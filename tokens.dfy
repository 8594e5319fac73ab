/** The token manager of pkg/tokens: lifetimes, the claims it signs, the
    user-id subject codec and the error mapping of ParseAccessToken.

    The subject codec and ParseAccessToken are given twice: as the code is
    written (`RuneSubject`, `FirstByteUserId`, `ParseAccessTokenAsWritten`),
    with lemmas exhibiting where it goes wrong, and corrected (`Subject`,
    `SubjectUserId`, `ParseAccessToken`), which the rest of the model uses.

    HMAC signing, JWT parsing and bcrypt are foreign code. They are the
    oracle functions held by `TokenManager`; everything the package itself
    computes around them is modelled here. */
module Tokens {
  import opened Wrappers

  // Durations are Go `time.Duration` values: integer nanoseconds.
  const Second: int := 1_000_000_000
  const Minute: int := 60 * Second
  const Hour: int := 60 * Minute

  const AccessTokenTTL: int := 15 * Minute
  const RefreshTokenTTL: int := 35 * 24 * Hour
  const BcryptCost: int := 12

  newtype byte = b: int | 0 <= b < 256

  /** The registered claims the package fills in. `issuedAt` and
      `expiresAt` are JWT NumericDates (whole seconds); an empty subject is
      what a token without a `sub` claim parses to. */
  datatype Claims = Claims(subject: seq<byte>, issuedAt: int, expiresAt: int)

  /** jwt.NewNumericDate: a Unix time in nanoseconds truncated to whole
      seconds (rounded down). */
  function NumericDate(t: int): int
  {
    t / Second
  }

  /** Moving a time by a whole number of seconds moves its NumericDate by
      exactly that many seconds. */
  lemma NumericDateShift(t: int, k: int)
    ensures NumericDate(t + k * Second) == NumericDate(t) + k
  {
    var q, r := t / Second, t % Second;
    assert t == q * Second + r && 0 <= r < Second;
    assert t + k * Second == (q + k) * Second + r;
  }

  // ---------------------------------------------------------------------
  // The subject codec: string(rune(userID)) and []byte(subject)[0]

  /** Go's int64-to-int32 conversion `rune(x)`: the low 32 bits read as a
      two's-complement number. */
  function ToInt32(x: int): (r: int)
    ensures -0x8000_0000 <= r < 0x8000_0000
    ensures (x - r) % 0x1_0000_0000 == 0
    ensures -0x8000_0000 <= x < 0x8000_0000 ==> r == x
  {
    var m := x % 0x1_0000_0000;
    if m < 0x8000_0000 then m else m - 0x1_0000_0000
  }

  const MaxRune: int := 0x10FFFF
  /** U+FFFD, what Go substitutes for a value that is not a code point. */
  const RuneError: int := 0xFFFD

  /** A Unicode scalar value: in range and not a surrogate. */
  predicate ValidRune(r: int)
  {
    0 <= r <= MaxRune && !(0xD800 <= r <= 0xDFFF)
  }

  /** The UTF-8 bytes of a scalar value (utf8.EncodeRune). */
  function EncodeScalar(r: int): (s: seq<byte>)
    requires ValidRune(r)
    ensures 1 <= |s| <= 4
    ensures r < 0x80 <==> |s| == 1
    ensures |s| == 1 ==> s[0] as int == r
    ensures |s| > 1 ==> 0xC0 <= s[0] as int
  {
    if r < 0x80 then [r as byte]
    else if r < 0x800 then [(0xC0 + r / 0x40) as byte, (0x80 + r % 0x40) as byte]
    else if r < 0x1_0000 then
      [(0xE0 + r / 0x1000) as byte, (0x80 + r / 0x40 % 0x40) as byte, (0x80 + r % 0x40) as byte]
    else
      [(0xF0 + r / 0x4_0000) as byte, (0x80 + r / 0x1000 % 0x40) as byte,
       (0x80 + r / 0x40 % 0x40) as byte, (0x80 + r % 0x40) as byte]
  }

  /** Go's conversion of an integer to a string: the UTF-8 encoding of the
      value, or of U+FFFD when the value is not a scalar value. */
  function EncodeRune(r: int): (s: seq<byte>)
    ensures 1 <= |s| <= 4
    ensures !ValidRune(r) ==> s == [0xEF, 0xBF, 0xBD]
  {
    EncodeScalar(if ValidRune(r) then r else RuneError)
  }

  /** The subject GenerateAccessToken writes as the code stands:
      string(rune(userID)). */
  function RuneSubject(userId: int): (s: seq<byte>)
    ensures 1 <= |s| <= 4
  {
    EncodeRune(ToInt32(userId))
  }

  /** The user id ParseAccessToken reads back as the code stands: the first
      byte of the subject, widened to int64. It exists only for a non-empty
      subject. */
  function FirstByteUserId(subject: seq<byte>): (id: int)
    requires |subject| > 0
    ensures 0 <= id < 256
  {
    subject[0] as int
  }

  /** The codec as written round-trips exactly the ids 0..127 and 195: every
      other id is either encoded with a lead byte that differs from it or
      lies outside the byte range the decoder can produce. */
  lemma RuneSubjectRoundTrip(userId: int)
    ensures FirstByteUserId(RuneSubject(userId)) == userId <==> (0 <= userId < 128 || userId == 195)
  {
    var s := RuneSubject(userId);
    if 0 <= userId < 256 {
      assert ToInt32(userId) == userId;
      if 128 <= userId {
        assert s == [(0xC0 + userId / 0x40) as byte, (0x80 + userId % 0x40) as byte];
        assert s[0] as int == 0xC0 + userId / 0x40;
      }
    }
  }

  /** Every id whose truncation to 32 bits is not a scalar value (negative,
      a surrogate or above U+10FFFF) decodes to 0xEF, the lead byte of
      U+FFFD. */
  lemma InvalidRuneSubject(userId: int)
    requires !ValidRune(ToInt32(userId))
    ensures FirstByteUserId(RuneSubject(userId)) == 0xEF
  {
  }

  /** Two users share an identity under the codec as written: the token of
      user 200 reads back as user 195, the lead byte of U+00C8. */
  lemma RuneSubjectCollision()
    ensures FirstByteUserId(RuneSubject(200)) == 195 && FirstByteUserId(RuneSubject(195)) == 195
  {
    assert RuneSubject(200) == [0xC3, 0x88];
    assert RuneSubject(195) == [0xC3, 0x83];
  }

  // ---------------------------------------------------------------------
  // The subject codec with the user id round-tripping: decimal text with
  // an optional '-'

  const Minus: byte := 45   // '-'

  predicate IsDigitByte(b: byte)
  {
    48 <= b <= 57
  }

  predicate AllDigits(s: seq<byte>)
  {
    forall i :: 0 <= i < |s| ==> IsDigitByte(s[i])
  }

  /** The decimal digits of n, most significant first, without leading zeros. */
  function Digits(n: nat): (s: seq<byte>)
    ensures |s| >= 1 && AllDigits(s)
  {
    if n < 10 then [(48 + n) as byte] else Digits(n / 10) + [(48 + n % 10) as byte]
  }

  /** The value of a run of decimal digits. */
  function DigitsValue(s: seq<byte>): nat
    requires AllDigits(s)
  {
    if |s| == 0 then 0 else DigitsValue(s[..|s| - 1]) * 10 + (s[|s| - 1] as int - 48)
  }

  lemma {:induction false} DigitsRoundTrip(n: nat)
    ensures DigitsValue(Digits(n)) == n
  {
    if n >= 10 {
      var s := Digits(n);
      assert s[..|s| - 1] == Digits(n / 10);
      DigitsRoundTrip(n / 10);
    }
  }

  /** The subject of an access token: the user id in decimal. */
  function Subject(userId: int): (s: seq<byte>)
    ensures |s| >= 1
    ensures s[0] == Minus <==> userId < 0
  {
    if userId < 0 then [Minus] + Digits(-userId) else Digits(userId)
  }

  /** The user id in a subject: an optional minus sign and at least one
      digit; anything else, the empty subject included, is no user id. */
  function SubjectUserId(subject: seq<byte>): (id: Option<int>)
    ensures |subject| == 0 ==> id.None?
    ensures id.Some? ==> AllDigits(if subject[0] == Minus then subject[1..] else subject)
  {
    if |subject| > 0 && subject[0] == Minus then
      if |subject| > 1 && AllDigits(subject[1..]) then Some(-(DigitsValue(subject[1..]) as int)) else None
    else if |subject| > 0 && AllDigits(subject) then Some(DigitsValue(subject))
    else None
  }

  /** Every user id survives the trip through the subject. */
  lemma SubjectRoundTrip(userId: int)
    ensures SubjectUserId(Subject(userId)) == Some(userId)
  {
    var s := Subject(userId);
    if userId < 0 {
      assert s[1..] == Digits(-userId);
      DigitsRoundTrip(-userId);
    } else {
      assert IsDigitByte(s[0]);
      DigitsRoundTrip(userId);
    }
  }

  // ---------------------------------------------------------------------
  // The claims the two generators sign

  /** The claims of an access token issued at `now`. */
  function AccessClaims(userId: int, now: int): (c: Claims)
    ensures c.subject == Subject(userId)
    ensures c.issuedAt == NumericDate(now)
    ensures c.expiresAt == c.issuedAt + AccessTokenTTL / Second
  {
    NumericDateShift(now, AccessTokenTTL / Second);
    Claims(Subject(userId), NumericDate(now), NumericDate(now + AccessTokenTTL))
  }

  /** The claims GenerateAccessToken signs as the code stands: the same
      times, with the subject string(rune(userID)). */
  function AccessClaimsAsWritten(userId: int, now: int): (c: Claims)
    ensures c.subject == RuneSubject(userId)
    ensures c.issuedAt == NumericDate(now)
    ensures c.expiresAt == c.issuedAt + AccessTokenTTL / Second
  {
    AccessClaims(userId, now).(subject := RuneSubject(userId))
  }

  /** The claims of a refresh token issued at `now`: no subject at all. */
  function RefreshClaims(now: int): (c: Claims)
    ensures c.subject == []
    ensures c.issuedAt == NumericDate(now)
    ensures c.expiresAt == c.issuedAt + RefreshTokenTTL / Second
  {
    NumericDateShift(now, RefreshTokenTTL / Second);
    Claims([], NumericDate(now), NumericDate(now + RefreshTokenTTL))
  }

  /** Refresh-token claims depend on the issuing second only: two refresh
      tokens issued within the same second carry identical claims, so a
      deterministic signer gives them the same text. */
  lemma RefreshClaimsPerSecond(t1: int, t2: int)
    requires NumericDate(t1) == NumericDate(t2)
    ensures RefreshClaims(t1) == RefreshClaims(t2)
  {
    NumericDateShift(t1, RefreshTokenTTL / Second);
    NumericDateShift(t2, RefreshTokenTTL / Second);
  }

  // ---------------------------------------------------------------------
  // ParseAccessToken

  /** The reasons the JWT library can give for refusing a token. The key
      callback's refusal of a non-HMAC method surfaces as Unverifiable. */
  datatype JwtError = Expired | Malformed | SignatureInvalid | Unverifiable | OtherClaimInvalid

  /** What jwt.ParseWithClaims yields: the claims and the token's Valid
      flag, or an error that wraps one or more reasons. */
  datatype ParsedToken = Parsed(claims: Claims, valid: bool) | Rejected(reasons: set<JwtError>)

  /** The two errors the package exports. */
  datatype TokenError = ErrInvalidToken | ErrTokenExpired

  /** The library error mapping: errors.Is(err, jwt.ErrTokenExpired)
      becomes ErrTokenExpired, every other error ErrInvalidToken. */
  function ClassifyParseError(reasons: set<JwtError>): (e: TokenError)
    ensures e == ErrTokenExpired <==> Expired in reasons
  {
    if Expired in reasons then ErrTokenExpired else ErrInvalidToken
  }

  /** The outcome of ParseAccessToken as the code is written: a result, or
      the runtime panic of indexing the first byte of an empty subject. */
  datatype ParseOutcome = Returned(result: Result<int, TokenError>) | IndexOutOfRange

  /** ParseAccessToken as written. */
  function ParseAccessTokenAsWritten(p: ParsedToken): (o: ParseOutcome)
    ensures o == IndexOutOfRange <==> p.Parsed? && p.valid && p.claims.subject == []
  {
    match p
    case Rejected(reasons) => Returned(Failure(ClassifyParseError(reasons)))
    case Parsed(claims, valid) =>
      if valid then
        if |claims.subject| == 0 then IndexOutOfRange
        else Returned(Success(FirstByteUserId(claims.subject)))
      else Returned(Failure(ErrInvalidToken))
  }

  /** Refresh tokens are signed with the same key and method as access
      tokens, so the library accepts one as an access token; its empty
      subject then makes the code as written index past the end. */
  lemma RefreshTokenAsAccessTokenPanics(now: int)
    ensures ParseAccessTokenAsWritten(Parsed(RefreshClaims(now), true)) == IndexOutOfRange
  {
  }

  /** ParseAccessToken with the subject read by the round-tripping codec: a
      subject that holds no user id, the empty subject of a refresh token
      among them, is an invalid token. Every error the code as written
      returns, it returns too. */
  function ParseAccessToken(p: ParsedToken): (r: Result<int, TokenError>)
    ensures r == Failure(ErrTokenExpired) <==> p.Rejected? && Expired in p.reasons
    ensures r.Success? <==> p.Parsed? && p.valid && SubjectUserId(p.claims.subject).Some?
    ensures r.Success? ==> r.value == SubjectUserId(p.claims.subject).value
    ensures ParseAccessTokenAsWritten(p).Returned? && ParseAccessTokenAsWritten(p).result.Failure? ==>
      r == ParseAccessTokenAsWritten(p).result
  {
    match p
    case Rejected(reasons) => Failure(ClassifyParseError(reasons))
    case Parsed(claims, valid) =>
      var id := SubjectUserId(claims.subject);
      if valid && id.Some? then Success(id.value) else Failure(ErrInvalidToken)
  }

  /** A refresh token presented as an access token is refused. */
  lemma RefreshTokenAsAccessTokenRefused(now: int)
    ensures ParseAccessToken(Parsed(RefreshClaims(now), true)) == Failure(ErrInvalidToken)
  {
  }

  /** An access token that the library accepts yields its user id back. */
  lemma AccessTokenUserId(userId: int, now: int)
    ensures ParseAccessToken(Parsed(AccessClaims(userId, now), true)) == Success(userId)
  {
    SubjectRoundTrip(userId);
  }

  /** As the code stands, an access token the library accepts yields its
      own user id back exactly for the ids 0..127 and 195. */
  lemma AccessTokenUserIdAsWritten(userId: int, now: int)
    ensures ParseAccessTokenAsWritten(Parsed(AccessClaimsAsWritten(userId, now), true)) == Returned(Success(userId))
      <==> (0 <= userId < 128 || userId == 195)
  {
    RuneSubjectRoundTrip(userId);
  }

  // ---------------------------------------------------------------------
  // The token manager

  /** The foreign primitives the token manager wraps: HS256 signing with
      the configured key (None when signing fails), the JWT parser at the
      verifier's clock, and bcrypt at cost BcryptCost. `bcryptCompare(hash,
      password)` is true exactly when CompareHashAndPassword returns nil. */
  datatype TokenManager = TokenManager(
    sign: Claims -> Option<string>,
    parse: (string, int) -> ParsedToken,
    bcryptHash: (string, int) -> Option<string>,
    bcryptCompare: (string, string) -> bool)
  {
    /** bcrypt's own guarantee: a hash it produced matches its password. */
    ghost predicate Sound()
    {
      forall password :: bcryptHash(password, BcryptCost).Some? ==>
        bcryptCompare(bcryptHash(password, BcryptCost).value, password)
    }

    function GenerateAccessToken(userId: int, now: int): Option<string>
    {
      sign(AccessClaims(userId, now))
    }

    function GenerateRefreshToken(now: int): Option<string>
    {
      sign(RefreshClaims(now))
    }

    function HashPassword(password: string): Option<string>
    {
      bcryptHash(password, BcryptCost)
    }

    /** Never fails: a comparison error is reported as false. A hash this
        manager produced for a password matches that password. */
    function CheckPasswordHash(password: string, hash: string): (ok: bool)
      ensures Sound() && HashPassword(password) == Some(hash) ==> ok
    {
      bcryptCompare(hash, password)
    }

    /** ParseAccessToken on a token string, at the verifier's clock. */
    function ParseAccessTokenAt(token: string, now: int): Result<int, TokenError>
    {
      ParseAccessToken(parse(token, now))
    }
  }
}
