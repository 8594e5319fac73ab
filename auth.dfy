/** The auth use cases: registration, login, refresh-token rotation and
    logout over the users and sessions tables. The clock is the `now`
    argument (nanoseconds); token signing and bcrypt are the token
    manager's oracles. */
module Auth {
  import opened Wrappers
  import opened Tokens
  import opened AuthRepo

  /** The errors the use cases return. */
  datatype AuthError =
    | EmailTaken                        // "user with this email already exists"
    | UserNotFound                      // "user not found"
    | InvalidPassword                   // "invalid password"
    | RefreshTokenExpired               // "refresh token expired"
    | SessionLookup(cause: RepoError)   // the session table's error, passed on unchanged
    | HashFailed                        // bcrypt refused to hash
    | SigningFailed                     // the signer refused to sign

  datatype LoginResult = LoginResult(user: User, accessToken: string, refreshToken: string)
  datatype Refreshed = Refreshed(user: User, refreshToken: string)

  /** Every user row with this email accepts the password, and an access
      token can be signed for it at `now`. */
  predicate LoginAdmits(tm: TokenManager, rows: map<int, User>, email: string, password: string, now: int)
  {
    forall id :: id in rows && rows[id].email == email ==>
      tm.CheckPasswordHash(password, rows[id].password) && tm.GenerateAccessToken(id, now).Some?
  }

  /** Every session row holding the token is unexpired at `now` and
      belongs to an existing user. */
  predicate RefreshAdmits(sessions: map<int, Session>, users: map<int, User>, token: string, now: int)
  {
    forall id :: id in sessions && sessions[id].refreshToken == token ==>
      now <= sessions[id].expiresAt && sessions[id].userId in users
  }

  class AuthUseCase {
    const userRepo: UserRepo
    const sessionRepo: SessionRepo
    const tm: TokenManager

    ghost predicate Valid()
      reads this, userRepo, sessionRepo
    {
      userRepo.Valid() && sessionRepo.Valid() && tm.Sound()
    }

    constructor (userRepo: UserRepo, sessionRepo: SessionRepo, tm: TokenManager)
      requires userRepo.Valid() && sessionRepo.Valid() && tm.Sound()
      ensures Valid()
      ensures this.userRepo == userRepo && this.sessionRepo == sessionRepo && this.tm == tm
    {
      this.userRepo := userRepo;
      this.sessionRepo := sessionRepo;
      this.tm := tm;
    }

    /** Refuses an email already in use; otherwise stores the bcrypt hash
        of the password (never the password) under a fresh id and returns
        the stored user. */
    method Register(username: string, email: string, password: string, now: int) returns (r: Result<User, AuthError>)
      requires Valid()
      modifies userRepo
      ensures Valid()
      ensures EmailInUse(old(userRepo.rows), email) ==> r == Failure(EmailTaken)
      ensures !EmailInUse(old(userRepo.rows), email) && tm.HashPassword(password).None? ==> r == Failure(HashFailed)
      ensures !EmailInUse(old(userRepo.rows), email) && tm.HashPassword(password).Some? ==> r.Success?
      ensures r.Failure? ==> userRepo.rows == old(userRepo.rows)
      ensures r.Success? ==>
        && !EmailInUse(old(userRepo.rows), email)
        && tm.HashPassword(password).Some?
        && r.value == User(old(userRepo.nextId), username, email, tm.HashPassword(password).value, now)
        && r.value.id !in old(userRepo.rows)
        && userRepo.rows == old(userRepo.rows)[r.value.id := r.value]
    {
      var existing := userRepo.GetUserByEmail(email);
      if existing.Some? {
        return Failure(EmailTaken);
      }
      var hashed := tm.HashPassword(password);
      if hashed.None? {
        return Failure(HashFailed);
      }
      var user := userRepo.CreateUser(User(0, username, email, hashed.value, now));
      return Success(user);
    }

    /** Looks the user up by email, checks the password, signs an access
        and a refresh token and records one new session for the refresh
        token, expiring RefreshTokenTTL after `now`. `picked` names the
        user row the email lookup chose. */
    method Login(email: string, password: string, now: int) returns (r: Result<LoginResult, AuthError>, ghost picked: int)
      requires Valid()
      modifies sessionRepo
      ensures Valid()
      ensures r == Failure(UserNotFound) <==> !EmailInUse(userRepo.rows, email)
      ensures EmailInUse(userRepo.rows, email) ==>
        && picked in userRepo.rows && userRepo.rows[picked].email == email
        && (r == Failure(InvalidPassword) <==> !tm.CheckPasswordHash(password, userRepo.rows[picked].password))
        && (r == Failure(SigningFailed) <==>
              && tm.CheckPasswordHash(password, userRepo.rows[picked].password)
              && (tm.GenerateAccessToken(picked, now).None? || tm.GenerateRefreshToken(now).None?))
        && (r.Success? <==>
              && tm.CheckPasswordHash(password, userRepo.rows[picked].password)
              && tm.GenerateAccessToken(picked, now).Some? && tm.GenerateRefreshToken(now).Some?)
      ensures r.Failure? ==> sessionRepo.rows == old(sessionRepo.rows)
      ensures r.Success? ==>
        && var u := r.value.user;
        && u.id == picked && u.id in userRepo.rows && userRepo.rows[u.id] == u && u.email == email
        && tm.CheckPasswordHash(password, u.password)
        && tm.GenerateAccessToken(u.id, now) == Some(r.value.accessToken)
        && tm.GenerateRefreshToken(now) == Some(r.value.refreshToken)
        && old(sessionRepo.nextId) !in old(sessionRepo.rows)
        && sessionRepo.rows == old(sessionRepo.rows)[old(sessionRepo.nextId) :=
             Session(old(sessionRepo.nextId), u.id, r.value.refreshToken, now + RefreshTokenTTL)]
      ensures (EmailInUse(userRepo.rows, email) && LoginAdmits(tm, userRepo.rows, email, password, now)
               && tm.GenerateRefreshToken(now).Some?) ==> r.Success?
    {
      picked := 0;
      var found := userRepo.GetUserByEmail(email);
      if found.None? {
        return Failure(UserNotFound), picked;
      }
      var user := found.value;
      picked := user.id;
      if !tm.CheckPasswordHash(password, user.password) {
        return Failure(InvalidPassword), picked;
      }
      var accessToken := tm.GenerateAccessToken(user.id, now);
      if accessToken.None? {
        return Failure(SigningFailed), picked;
      }
      var refreshToken := tm.GenerateRefreshToken(now);
      if refreshToken.None? {
        return Failure(SigningFailed), picked;
      }
      var session := sessionRepo.CreateSession(Session(0, user.id, refreshToken.value, now + RefreshTokenTTL));
      return Success(LoginResult(user, accessToken.value, refreshToken.value)), picked;
    }

    /** Rotates the session holding `token`: refuses a session expired
        before `now` (at the expiry instant itself it still succeeds), then
        gives the same row a freshly signed token and a new expiry, keeping
        its id and user. `rotated` names the row that was chosen. */
    method RefreshToken(token: string, now: int) returns (r: Result<Refreshed, AuthError>, ghost rotated: int)
      requires Valid()
      modifies sessionRepo
      ensures Valid()
      ensures r == Failure(SessionLookup(NoRows)) <==> !TokenInUse(old(sessionRepo.rows), token)
      ensures r == Failure(RefreshTokenExpired) ==>
        rotated in Holders(old(sessionRepo.rows), token) && now > old(sessionRepo.rows)[rotated].expiresAt
      ensures TokenInUse(old(sessionRepo.rows), token) ==>
        && rotated in Holders(old(sessionRepo.rows), token)
        && var s := old(sessionRepo.rows)[rotated];
        && (r == Failure(RefreshTokenExpired) <==> now > s.expiresAt)
        && (r == Failure(UserNotFound) <==> now <= s.expiresAt && s.userId !in userRepo.rows)
        && (r == Failure(SigningFailed) <==>
              now <= s.expiresAt && s.userId in userRepo.rows && tm.GenerateRefreshToken(now).None?)
        && (r.Success? <==>
              now <= s.expiresAt && s.userId in userRepo.rows && tm.GenerateRefreshToken(now).Some?)
      ensures r.Failure? ==> sessionRepo.rows == old(sessionRepo.rows)
      ensures r.Success? ==>
        && rotated in Holders(old(sessionRepo.rows), token)
        && var s := old(sessionRepo.rows)[rotated];
        && now <= s.expiresAt
        && s.userId in userRepo.rows && r.value.user == userRepo.rows[s.userId]
        && tm.GenerateRefreshToken(now) == Some(r.value.refreshToken)
        && sessionRepo.rows == old(sessionRepo.rows)[rotated := s.(refreshToken := r.value.refreshToken, expiresAt := now + RefreshTokenTTL)]
      ensures r.Success? && r.value.refreshToken != token ==>
        Holders(sessionRepo.rows, token) == Holders(old(sessionRepo.rows), token) - {rotated}
      ensures (TokenInUse(old(sessionRepo.rows), token) && RefreshAdmits(old(sessionRepo.rows), userRepo.rows, token, now)
               && tm.GenerateRefreshToken(now).Some?) ==> r.Success?
    {
      rotated := 0;
      var lookup := sessionRepo.GetSessionByRefreshToken(token);
      if lookup.Failure? {
        return Failure(SessionLookup(lookup.error)), rotated;
      }
      var session := lookup.value;
      rotated := session.id;
      if now > session.expiresAt {
        return Failure(RefreshTokenExpired), rotated;
      }
      var user := userRepo.GetUserByID(session.userId);
      if user.None? {
        return Failure(UserNotFound), rotated;
      }
      var newToken := tm.GenerateRefreshToken(now);
      if newToken.None? {
        return Failure(SigningFailed), rotated;
      }
      session := session.(refreshToken := newToken.value, expiresAt := now + RefreshTokenTTL);
      sessionRepo.UpdateSession(session);
      return Success(Refreshed(user.value, newToken.value)), rotated;
    }

    /** Deletes the session holding `token`; an unknown token is the
        session table's error, not a silent success. */
    method Logout(token: string) returns (r: Outcome<AuthError>, ghost removed: int)
      requires Valid()
      modifies sessionRepo
      ensures Valid()
      ensures r.Fail? <==> !TokenInUse(old(sessionRepo.rows), token)
      ensures r.Fail? ==> r.error == SessionLookup(NoRows) && sessionRepo.rows == old(sessionRepo.rows)
      ensures r.Pass? ==> removed in Holders(old(sessionRepo.rows), token) && sessionRepo.rows == old(sessionRepo.rows) - {removed}
    {
      removed := 0;
      var lookup := sessionRepo.GetSessionByRefreshToken(token);
      if lookup.Failure? {
        return Fail(SessionLookup(lookup.error)), removed;
      }
      removed := lookup.value.id;
      sessionRepo.DeleteSession(lookup.value.id);
      return Pass, removed;
    }

    /** The user with this id, or nil. */
    method GetUser(id: int) returns (found: Option<User>)
      requires Valid()
      ensures found.Some? <==> id in userRepo.rows
      ensures found.Some? ==> found.value == userRepo.rows[id]
    {
      found := userRepo.GetUserByID(id);
    }
  }

  /** A session's life from registration to logout: the first login of a
      new user succeeds, a refresh a second later rotates the token, the
      rotated-out token is refused, and logging out twice with the current
      token fails the second time. */
  method SessionLifecycle(auth: AuthUseCase, username: string, email: string, password: string, t0: int)
      returns (replay: Result<Refreshed, AuthError>, secondLogout: Outcome<AuthError>)
    requires auth.Valid()
    requires !EmailInUse(auth.userRepo.rows, email) && auth.sessionRepo.rows == map[]
    requires auth.tm.HashPassword(password).Some?
    requires forall c :: auth.tm.sign(c).Some?
    requires auth.tm.GenerateRefreshToken(t0) != auth.tm.GenerateRefreshToken(t0 + Second)
    modifies auth.userRepo, auth.sessionRepo
    ensures auth.Valid()
    ensures replay == Failure(SessionLookup(NoRows))
    ensures secondLogout == Fail(SessionLookup(NoRows))
    ensures auth.sessionRepo.rows == map[]
  {
    var registered := auth.Register(username, email, password, t0);
    assert registered.Success?;
    var user := registered.value;
    forall id | id in auth.userRepo.rows && auth.userRepo.rows[id].email == email
      ensures auth.tm.CheckPasswordHash(password, auth.userRepo.rows[id].password)
      ensures auth.tm.GenerateAccessToken(id, t0).Some?
    {
      assert id == user.id;
      assert auth.tm.HashPassword(password) == Some(user.password);
    }
    assert auth.userRepo.rows[user.id].email == email;
    assert auth.tm.GenerateRefreshToken(t0).Some?;
    var login, _ := auth.Login(email, password, t0);
    assert login.Success?;
    var tokenA := login.value.refreshToken;
    var refreshed, _ := auth.RefreshToken(tokenA, t0 + Second);
    assert refreshed.Success?;
    var tokenB := refreshed.value.refreshToken;
    ghost var ghostRow;
    replay, ghostRow := auth.RefreshToken(tokenA, t0 + 2 * Second);
    var logout, _ := auth.Logout(tokenB);
    assert logout.Pass?;
    secondLogout, ghostRow := auth.Logout(tokenB);
  }
}
