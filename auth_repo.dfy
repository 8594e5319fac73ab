/** The users and sessions tables behind the auth use cases, as in-memory
    keyed tables. Each table is a map from id to row plus the next value of
    its id sequence; an insert takes that value and hands it back to the
    caller, as `RETURNING id` scanned into the caller's struct does. */
module AuthRepo {
  import opened Wrappers

  /** A row of the users table; `password` holds the bcrypt hash. */
  datatype User = User(id: int, username: string, email: string, password: string, registeredAt: int)

  /** A row of the sessions table. `expiresAt` is the refresh token's
      expiry, in nanoseconds. */
  datatype Session = Session(id: int, userId: int, refreshToken: string, expiresAt: int)

  /** pgx.ErrNoRows, raised by a single-row query that matched nothing. */
  datatype RepoError = NoRows

  /** Some user row has this email. */
  predicate EmailInUse(rows: map<int, User>, email: string)
  {
    exists id :: id in rows && rows[id].email == email
  }

  /** Some session row holds this refresh token. */
  predicate TokenInUse(rows: map<int, Session>, token: string)
  {
    exists id :: id in rows && rows[id].refreshToken == token
  }

  /** The ids of the session rows holding a refresh token. */
  function Holders(rows: map<int, Session>, token: string): set<int>
  {
    set id | id in rows && rows[id].refreshToken == token
  }

  /** A user as GetUsers lists it: the query does not select the hash. */
  function Listed(u: User): User
  {
    u.(password := "")
  }

  /** `users` lists, in strictly ascending id order, exactly the rows
      whose id is below `bound`. */
  ghost predicate ListedBelow(users: seq<User>, rows: map<int, User>, bound: int)
  {
    && (forall i, j :: 0 <= i < j < |users| ==> users[i].id < users[j].id)
    && (forall i :: 0 <= i < |users| ==> users[i].id < bound)
    && (forall i :: 0 <= i < |users| ==> users[i].id in rows && users[i] == Listed(rows[users[i].id]))
    && (forall k :: k in rows && k < bound ==> exists i :: 0 <= i < |users| && users[i].id == k)
  }

  /** Appending the listing of row `id` extends the listing to `id + 1`. */
  lemma ListedBelowStep(users: seq<User>, rows: map<int, User>, id: int)
    requires ListedBelow(users, rows, id) && id in rows && rows[id].id == id
    ensures ListedBelow(users + [Listed(rows[id])], rows, id + 1)
  {
    var after := users + [Listed(rows[id])];
    assert after[|users|].id == id;
    assert forall i :: 0 <= i < |users| ==> after[i] == users[i];
    forall k | k in rows && k < id + 1
      ensures exists i :: 0 <= i < |after| && after[i].id == k
    {
      if k == id {
        assert after[|users|].id == k;
      } else {
        var i :| 0 <= i < |users| && users[i].id == k;
        assert after[i].id == k;
      }
    }
  }

  class UserRepo {
    var rows: map<int, User>
    var nextId: int

    /** Every row sits under its own id, below the sequence's next value. */
    ghost predicate Valid()
      reads this
    {
      1 <= nextId && forall id :: id in rows ==> 1 <= id < nextId && rows[id].id == id
    }

    constructor ()
      ensures Valid() && rows == map[]
    {
      rows := map[];
      nextId := 1;
    }

    /** INSERT ... RETURNING id: a new row under a fresh id; `created` is
        the caller's struct with that id written into it. */
    method CreateUser(user: User) returns (created: User)
      requires Valid()
      modifies this
      ensures Valid()
      ensures created == user.(id := old(nextId)) && created.id !in old(rows)
      ensures rows == old(rows)[created.id := created]
    {
      created := user.(id := nextId);
      rows := rows[nextId := created];
      nextId := nextId + 1;
    }

    /** SELECT ... ORDER BY id, without the password hash. */
    method GetUsers() returns (users: seq<User>)
      requires Valid()
      ensures forall i, j :: 0 <= i < j < |users| ==> users[i].id < users[j].id
      ensures forall i :: 0 <= i < |users| ==> users[i].id in rows && users[i] == Listed(rows[users[i].id])
      ensures forall id :: id in rows ==> exists i :: 0 <= i < |users| && users[i].id == id
    {
      users := [];
      var id := 1;
      while id < nextId
        invariant 1 <= id <= nextId
        invariant ListedBelow(users, rows, id)
      {
        if id in rows {
          ListedBelowStep(users, rows, id);
          users := users + [Listed(rows[id])];
        }
        id := id + 1;
      }
    }

    /** A user with this email, or nil (not an error) when there is none.
        When several rows share the email, the query returns one of them. */
    method GetUserByEmail(email: string) returns (found: Option<User>)
      requires Valid()
      ensures found.None? <==> !EmailInUse(rows, email)
      ensures found.Some? ==> found.value.id in rows && rows[found.value.id] == found.value
      ensures found.Some? ==> found.value.email == email
    {
      if id :| id in rows && rows[id].email == email {
        found := Some(rows[id]);
      } else {
        found := None;
      }
    }

    /** The user with this id, or nil when there is none. */
    method GetUserByID(id: int) returns (found: Option<User>)
      requires Valid()
      ensures found.Some? <==> id in rows
      ensures found.Some? ==> found.value == rows[id] && found.value.id == id
    {
      found := if id in rows then Some(rows[id]) else None;
    }

    /** UPDATE ... WHERE id = user.ID: overwrites the username, email and
        hash of that row; a missing id matches nothing and is no error. */
    method UpdateUser(user: User)
      requires Valid()
      modifies this
      ensures Valid() && nextId == old(nextId)
      ensures rows == if user.id in old(rows)
        then old(rows)[user.id := old(rows)[user.id].(username := user.username, email := user.email, password := user.password)]
        else old(rows)
    {
      if user.id in rows {
        rows := rows[user.id := rows[user.id].(username := user.username, email := user.email, password := user.password)];
      }
    }

    /** DELETE ... WHERE id: removes that row; a missing id is no error. */
    method DeleteUser(id: int)
      requires Valid()
      modifies this
      ensures Valid() && nextId == old(nextId)
      ensures rows == old(rows) - {id}
    {
      rows := rows - {id};
    }
  }

  class SessionRepo {
    var rows: map<int, Session>
    var nextId: int

    ghost predicate Valid()
      reads this
    {
      1 <= nextId && forall id :: id in rows ==> 1 <= id < nextId && rows[id].id == id
    }

    constructor ()
      ensures Valid() && rows == map[]
    {
      rows := map[];
      nextId := 1;
    }

    /** INSERT ... RETURNING id, written back into the caller's session. */
    method CreateSession(session: Session) returns (created: Session)
      requires Valid()
      modifies this
      ensures Valid()
      ensures created == session.(id := old(nextId)) && created.id !in old(rows)
      ensures rows == old(rows)[created.id := created]
    {
      created := session.(id := nextId);
      rows := rows[nextId := created];
      nextId := nextId + 1;
    }

    /** The session holding this token. Unlike the user lookup, no match is
        an error (the wrapped ErrNoRows), never a nil session. */
    method GetSessionByRefreshToken(token: string) returns (r: Result<Session, RepoError>)
      requires Valid()
      ensures r.Failure? <==> !TokenInUse(rows, token)
      ensures r.Failure? ==> r.error == NoRows
      ensures r.Success? ==> r.value.id in Holders(rows, token) && rows[r.value.id] == r.value
    {
      if id :| id in rows && rows[id].refreshToken == token {
        r := Success(rows[id]);
      } else {
        r := Failure(NoRows);
      }
    }

    /** UPDATE ... WHERE id = session.ID: replaces the token and expiry of
        that row only; its user id stays as stored. */
    method UpdateSession(session: Session)
      requires Valid()
      modifies this
      ensures Valid() && nextId == old(nextId)
      ensures rows == if session.id in old(rows)
        then old(rows)[session.id := old(rows)[session.id].(refreshToken := session.refreshToken, expiresAt := session.expiresAt)]
        else old(rows)
    {
      if session.id in rows {
        rows := rows[session.id := rows[session.id].(refreshToken := session.refreshToken, expiresAt := session.expiresAt)];
      }
    }

    /** DELETE ... WHERE id: the affected-row count is never looked at, so
        deleting a missing id succeeds. */
    method DeleteSession(id: int)
      requires Valid()
      modifies this
      ensures Valid() && nextId == old(nextId)
      ensures rows == old(rows) - {id}
    {
      rows := rows - {id};
    }
  }
}
