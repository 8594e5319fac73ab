# Forum_GO core in Dafny

This project models the sequential core of Forum_GO, a Go forum backend with a
separate auth service:

- **Auth service.** Registration, login, refresh-token rotation and logout
  work over two keyed tables, users and sessions (`auth.dfy`, `auth_repo.dfy`).
  The token manager computes token lifetimes, the claims it signs, the user-id
  subject codec and the error mapping of `ParseAccessToken` (`tokens.dfy`).
- **Forum service.** Post and topic use cases: the "owner or admin" access
  rule, existence checks before every mutation, and the enrichment of listed
  posts and topics with their authors' names from the user service
  (`forum.dfy`).
- **Migrator.** Migration numbers are parsed from file names. `Apply` runs the
  ".up.sql" files in ascending number order. `Rollback` runs the one
  ".down.sql" file with the highest number (`migrator.dfy`).

`wrappers.dfy` renders Go's return shapes: `Option` for a pointer that may be
nil, `Result` for `(T, error)`, and `Outcome` for a bare `error`.

How the model is built:

- **Tables.** Each repository is a class over a `map` from id to row, plus the
  next value of its id sequence.
- **Use cases.** They are classes whose methods change those tables.
- **Time.** The clock is an explicit `now` argument in nanoseconds, as Go's
  `time.Duration` counts.
- **Foreign code.** HMAC signing, JWT parsing and bcrypt are oracle functions
  held by `Tokens.TokenManager`. The user service is `Forum.UserDirectory`.
  The migrations directory is `Migrations.MigrationsDir` and the database is
  `Migrations.Database`.
- **Token manager members.** `GenerateAccessToken`, `GenerateRefreshToken`,
  `HashPassword` and `ParseAccessTokenAt` apply the oracles to the claims and
  results modelled below.
- **One row from a multi-row match.** A single-row query with no `ORDER BY`
  may match several rows. The model then picks any one of them (`:|`), and
  the contracts hold for whichever row is picked.

Where the code departs from the design it evidently aims at, the model
follows the code (the user-id subject of access tokens is the one exception: see
"Findings" and "Left out"):

- users are looked up by email, not by username;
- Login returns distinct errors for an unknown email and a wrong password;
- Logout with an unknown token returns the session table's error; it is not
  idempotent;
- RefreshToken on an expired session refuses but does not delete the row;
- `UpdateSession` is keyed by id, not by the old token;
- RefreshToken returns the user and a new refresh token, but no new access
  token.

The users table's `GetUserByID` is called by the auth use cases, but no
implementation of it appears in `internal/repo/authRepo.go`. The model gives
it the convention of the other single-user lookup: the row with that id, or
nil when there is none.

The post-side checks in `forumUseCase.go` return plain errors that wrap no
sentinel, while the topic-side checks wrap theirs. The model follows this,
although `internal/usecase/forumUseCase_test.go:540-576` expects the post
sentinels.

## Model

| member | source | states |
|---|---|---|
| `Tokens.NumericDateShift` | pkg/tokens/token.go:41-42 | moving a time by k whole seconds moves its JWT NumericDate by exactly k |
| `Tokens.ToInt32` | pkg/tokens/token.go:40 | `rune(userID)` keeps the value congruent mod 2^32 in the int32 range, and is the identity on that range |
| `Tokens.EncodeScalar` | pkg/tokens/token.go:40 | UTF-8 encoding of a scalar value: 1 to 4 bytes, a single byte equal to the value exactly below 0x80, otherwise a lead byte of at least 0xC0 |
| `Tokens.EncodeRune` | pkg/tokens/token.go:40 | an int32 that is not a scalar value becomes U+FFFD (EF BF BD) |
| `Tokens.RuneSubject` | pkg/tokens/token.go:40 | the subject as written is 1 to 4 bytes for every user id |
| `Tokens.FirstByteUserId` | pkg/tokens/token.go:74-75 | the id read back as written is a byte value, 0 to 255 |
| `Tokens.RuneSubjectRoundTrip` | pkg/tokens/token.go:38-75 | the codec as written gives the id back exactly for 0..127 and 195 |
| `Tokens.InvalidRuneSubject` | pkg/tokens/token.go:40-75 | ids that are negative, surrogates or above U+10FFFF after int32 truncation decode to 0xEF as written |
| `Tokens.RuneSubjectCollision` | pkg/tokens/token.go:38-75 | as written, users 200 and 195 both decode to 195 |
| `Tokens.Digits` | pkg/tokens/token.go:40 | the decimal digits of a natural number: at least one, all digit bytes |
| `Tokens.DigitsRoundTrip` | pkg/tokens/token.go:74-75 | reading the decimal digits of n gives n |
| `Tokens.Subject` | pkg/tokens/token.go:40 | the corrected subject is non-empty and starts with '-' exactly for negative ids |
| `Tokens.SubjectUserId` | pkg/tokens/token.go:74-75 | the corrected decoder finds no id in an empty subject, and finds one only in an optional '-' followed by digits |
| `Tokens.SubjectRoundTrip` | pkg/tokens/token.go:38-75 | with the corrected codec every user id survives the trip through the subject |
| `Tokens.AccessClaims` | pkg/tokens/token.go:38-43 | an access token carries the corrected subject of its user (see Findings, token.go:40); its expiry is its issue second plus AccessTokenTTL (900 s) |
| `Tokens.AccessClaimsAsWritten` | pkg/tokens/token.go:38-43 | the claims as written carry `string(rune(userID))` as subject, with the same issue and expiry seconds |
| `Tokens.AccessTokenUserIdAsWritten` | pkg/tokens/token.go:38-75 | with the claims and parser as written, an access token yields the user id it was issued for exactly when the id is 0..127 or 195 |
| `Tokens.RefreshClaims` | pkg/tokens/token.go:49-53 | a refresh token has no subject; its expiry is its issue second plus RefreshTokenTTL (35 days) |
| `Tokens.RefreshClaimsPerSecond` | pkg/tokens/token.go:49-53 | two refresh tokens issued within the same second carry identical claims |
| `Tokens.ClassifyParseError` | pkg/tokens/token.go:66-71 | a parse failure is ErrTokenExpired exactly when the library reports expiry, otherwise ErrInvalidToken |
| `Tokens.ParseAccessTokenAsWritten` | pkg/tokens/token.go:59-78 | the code as written indexes out of range exactly on a valid token with an empty subject |
| `Tokens.RefreshTokenAsAccessTokenPanics` | pkg/tokens/token.go:73-75 | as written, a refresh token presented as an access token takes that out-of-range path |
| `Tokens.ParseAccessToken` | pkg/tokens/token.go:59-78 | ErrTokenExpired iff the library reports expiry; success iff the token is valid and its subject holds a user id, which is the result; every error of the code as written is kept |
| `Tokens.RefreshTokenAsAccessTokenRefused` | pkg/tokens/token.go:73-78 | a refresh token presented as an access token is ErrInvalidToken |
| `Tokens.AccessTokenUserId` | pkg/tokens/token.go:38-78 | an accepted access token yields the user id it was issued for |
| `Tokens.TokenManager.CheckPasswordHash` | pkg/tokens/token.go:81-92 | a hash that HashPassword produced for a password matches that password |
| `AuthRepo.UserRepo.CreateUser` | internal/repo/authRepo.go:43-60 | inserts one row under a fresh id and hands back the caller's user with that id; other rows unchanged |
| `AuthRepo.UserRepo.GetUsers` | internal/repo/authRepo.go:62-93 | every user exactly once, in strictly ascending id order, without the password hash |
| `AuthRepo.UserRepo.GetUserByEmail` | internal/repo/authRepo.go:95-117 | nil (not an error) exactly when no row has the email; otherwise a stored row with that email |
| `AuthRepo.UserRepo.GetUserByID` | internal/usecase/authUseCase.go:115-121 | the row with that id, or nil exactly when there is none |
| `AuthRepo.UserRepo.UpdateUser` | internal/repo/authRepo.go:119-136 | overwrites username, email and hash of the row with that id only; a missing id changes nothing |
| `AuthRepo.UserRepo.DeleteUser` | internal/repo/authRepo.go:138-145 | removes that row only |
| `AuthRepo.SessionRepo.CreateSession` | internal/repo/authRepo.go:147-164 | inserts one row under a fresh id, written back into the caller's session; other rows unchanged |
| `AuthRepo.SessionRepo.GetSessionByRefreshToken` | internal/repo/authRepo.go:166-184 | a row holding the token, or the ErrNoRows error (never nil) exactly when none holds it |
| `AuthRepo.SessionRepo.UpdateSession` | internal/repo/authRepo.go:186-204 | replaces token and expiry of the row with that id only; its user id and all other rows unchanged |
| `AuthRepo.SessionRepo.DeleteSession` | internal/repo/authRepo.go:206-213 | removes that row; a missing id is no error |
| `Auth.AuthUseCase.Register` | internal/usecase/authUseCase.go:36-63 | a used email is refused with the table unchanged; otherwise the bcrypt hash (never the password) is stored under a fresh id and that user returned |
| `Auth.AuthUseCase.Login` | internal/usecase/authUseCase.go:65-100 | "user not found" iff no user has the email; for the user row the lookup picks (any one, when rows share the email), "invalid password" iff its hash check fails, "signing failed" iff the check passes and either token cannot be signed, and success iff the check passes and both tokens are signed; no session on failure; on success exactly one new session for the user with the returned refresh token and expiry now + RefreshTokenTTL |
| `Auth.AuthUseCase.RefreshToken` | internal/usecase/authUseCase.go:102-137 | an unknown token is the table's error; for the session the lookup picks (any one, when sessions share the token), RefreshTokenExpired iff now is strictly after its expiry, UserNotFound iff it is not expired and its user is gone, signing failed iff neither and the new token cannot be signed, success iff none of these; a refused session is left as it was; on success the same row keeps id and user, gets the new token and expiry now + RefreshTokenTTL, its user is returned, and the old token no longer selects it |
| `Auth.AuthUseCase.Logout` | internal/usecase/authUseCase.go:139-149 | an unknown token is the table's error; otherwise exactly the session holding the token is deleted |
| `Auth.AuthUseCase.GetUser` | internal/usecase/authUseCase.go:151-153 | the user with that id, or nil exactly when absent |
| `Auth.SessionLifecycle` | internal/usecase/authUseCase.go:36-149 | register, login and refresh succeed; the rotated-out token is then refused; a second logout with the current token fails; no session is left |
| `Forum.PostCheckAccess` | internal/usecase/forumUseCase.go:302-320 | granted iff the post exists and the role is admin or the caller is its non-nil author; its errors wrap no sentinel |
| `Forum.TopicCheckAccess` | internal/usecase/forumUseCase.go:438-456 | granted iff the topic exists and the role is admin or the caller is its non-nil author; a missing topic is ErrTopicNotFound even for admins, a refusal ErrForbidden |
| `Forum.CheckTopic` | internal/usecase/forumUseCase.go:291-300 | passes iff the topic exists; the error wraps no sentinel |
| `Forum.CheckCategory` | internal/usecase/forumUseCase.go:458-468 | passes iff the category exists; otherwise ErrCategoryNotFound |
| `Forum.UserDirectory.GetUsernames` | internal/client/user_grpc.go:67-88 | fails iff the request is non-empty and the service is down; an empty request gets an empty map; the answer holds the service's names for the requested ids it knows |
| `Forum.UserDirectory.GetUsername` | internal/client/user_grpc.go:90-106 | succeeds iff the service is up and knows the user, and then gives the service's name for it |
| `Forum.CollectAuthorIds` | internal/usecase/forumUseCase.go:227-236 | the loop with its seen-set builds exactly the first-appearance list of the non-nil authors |
| `Forum.FirstAppearancesMembers` | internal/usecase/forumUseCase.go:227-236 | an id is in the author list iff some item has it as author |
| `Forum.FirstAppearancesDistinct` | internal/usecase/forumUseCase.go:227-236 | no id appears twice in the author list |
| `Forum.FirstAppearancesOrder` | internal/usecase/forumUseCase.go:375-384 | the author list is in the order in which the authors first appear |
| `Forum.NoAuthorsNoIds` | internal/usecase/forumUseCase.go:238-241 | the author list is empty iff no item has an author, so the name request then short-circuits |
| `Forum.FillPostUsernames` | internal/usecase/forumUseCase.go:243-254 | in place, each post keeps every field except its username, which becomes the map's name for its author or "Удаленный пользователь" |
| `Forum.FillTopicUsernames` | internal/usecase/forumUseCase.go:391-402 | in place, each topic keeps every field except its username, which becomes the map's name for its author or "Удаленный пользователь" |
| `Forum.ServiceNamesShown` | internal/usecase/forumUseCase.go:238-254 | with the names the service returned for the collected ids, each item gets the service's name for its author, or the fallback |
| `Forum.EnrichPosts` | internal/usecase/forumUseCase.go:227-254 | fails with the service's error and no list iff some post has an author and the service is down; otherwise the posts in order, each with its author's name or the fallback |
| `Forum.EnrichTopics` | internal/usecase/forumUseCase.go:375-402 | fails with the service's error and no list iff some topic has an author and the service is down; otherwise the topics in order, each with its author's name or the fallback |
| `Forum.PostUsecase.Create` | internal/usecase/forumUseCase.go:200-214 | a missing topic is refused before anything is stored; otherwise one post is stored under a fresh id, which is returned |
| `Forum.PostUsecase.GetByTopic` | internal/usecase/forumUseCase.go:216-258 | a missing topic fails; the list fails with no partial result iff some post has an author and the service is down; otherwise the topic's posts in order, same length, each with its author's name or the fallback |
| `Forum.PostUsecase.Update` | internal/usecase/forumUseCase.go:260-273 | the result is checkAccess's; only on access is the content of that one post replaced |
| `Forum.PostUsecase.Delete` | internal/usecase/forumUseCase.go:275-289 | the result is checkAccess's; only on access is that one post removed |
| `Forum.TopicUsecase.Create` | internal/usecase/forumUseCase.go:322-336 | a missing category is ErrCategoryNotFound and stores nothing; otherwise one topic under a fresh id |
| `Forum.TopicUsecase.GetByID` | internal/usecase/forumUseCase.go:338-361 | a missing topic wraps ErrNoRows; a nil author gets the fallback without asking the service; otherwise the service's name, or an error and no topic |
| `Forum.TopicUsecase.GetByCategory` | internal/usecase/forumUseCase.go:363-406 | a missing category is ErrCategoryNotFound; the list fails with no partial result iff some topic has an author and the service is down; otherwise the category's topics, each with its author's name or the fallback |
| `Forum.TopicUsecase.Update` | internal/usecase/forumUseCase.go:408-421 | the result is checkAccess's; only on access is that topic's title replaced |
| `Forum.TopicUsecase.Delete` | internal/usecase/forumUseCase.go:423-436 | the result is checkAccess's; only on access is that one topic removed |
| `Migrations.BeforeUnderscore` | internal/app/migrator.go:94-97 | the first element of the split: a prefix of the name without '_', followed in the name by '_' unless it is the whole name |
| `Migrations.Atoi` | internal/app/migrator.go:98 | always an int64, and equal to `ParsedInt`: an optional sign and digits give their signed value clamped to the int64 range; any other text gives 0, unless its leading digits exceed 2^64 - 1, which gives the bound of its sign |
| `Migrations.MigrationNumber` | internal/app/migrator.go:93-100 | always an int64, and `ParsedInt` of the part before the first '_' |
| `Migrations.ScanDigitRun` | internal/app/migrator.go:98 | the digit scan ends in a range error iff its leading digits exceed 2^64 - 1, else in a syntax error iff a non-digit follows them, else with their decimal value |
| `Migrations.ParsedSignedNumeral` | internal/app/migrator.go:98 | "", "-" or "+" followed by digits parses to the signed value of the digits, clamped |
| `Migrations.MigrationNumberOfNumeral` | internal/app/migrator.go:93-100 | a name made of an optional sign, digits, then nothing or '_' and anything gets the signed value of its digits, leading zeros included, clamped to the int64 range |
| `Migrations.MigrationNumberOfMalformed` | internal/app/migrator.go:93-100 | a name whose part before '_' is not a sign and digits gets 0, when its leading digits fit in 2^64 - 1 |
| `Migrations.MigrationNumberOfOverflow` | internal/app/migrator.go:93-100 | leading digits above 2^64 - 1 give the int64 bound of the sign, whatever follows them |
| `Migrations.MigrationNumberWithoutDigits` | internal/app/migrator.go:93-100 | a name that does not start with a sign or a digit gets 0 |
| `Migrations.LeadingZerosExample` | internal/app/migrator.go:93-100 | "0001_init.up.sql" is migration 1 |
| `Migrations.SignExamples` | internal/app/migrator.go:93-100 | "-3_x.up.sql" is migration -3; "+_x.up.sql", a sign alone, is 0 |
| `Migrations.NoUnderscoreExample` | internal/app/migrator.go:93-100 | with no '_' the whole name is parsed, so "001.up.sql" is 0 |
| `Migrations.LetterExample` | internal/app/migrator.go:93-100 | "12a_x.up.sql" is 0 |
| `Migrations.Filter` | internal/app/migrator.go:32-38 | every kept name ends in the suffix |
| `Migrations.FilterCounts` | internal/app/migrator.go:65-70 | a name ending in the suffix is kept as often as it is listed, any other is dropped |
| `Migrations.SelectBySuffix` | internal/app/migrator.go:33-37 | the loop selects exactly the filtered names, in listing order |
| `Migrations.SortSlice` | internal/app/migrator.go:40-42 | the slice ends ordered by the key and is a permutation of what it was |
| `Migrations.SortByNumber` | internal/app/migrator.go:76-78 | ordered by migration number, ascending or descending, and a permutation |
| `Migrations.Database.Exec` | internal/app/migrator.go:50-52 | succeeds iff the database accepts the script, and then logs it |
| `Migrations.HighestFirst` | internal/app/migrator.go:76-80 | the first name of a list sorted by descending number has the highest number of the list |
| `Migrations.RunStopsAtFirstFailure` | internal/app/migrator.go:44-53 | the files that ran are a prefix of the list, each readable with an accepted script; success iff all ran; otherwise the error names the first file that did not run and why |
| `Migrations.AppliedInOrder` | internal/app/migrator.go:40-54 | the files that ran did so in non-decreasing migration-number order, none more often than listed |
| `Migrations.Migrator.RunFiles` | internal/app/migrator.go:44-55 | returns the run's outcome; the database has executed exactly the run's scripts, in order |
| `Migrations.Migrator.Apply` | internal/app/migrator.go:26-56 | an unreadable directory fails; otherwise it runs a number-ordered permutation of exactly the ".up.sql" entries, stopping at the first failure |
| `Migrations.Migrator.Rollback` | internal/app/migrator.go:58-91 | an unreadable directory fails; with no ".down.sql" entry it is nil and runs nothing; otherwise it runs exactly one down file, one with the highest number |

## Left out

- Database and driver failures other than "no rows" are left out. The tables are in-memory maps, so the `return nil, err` paths after a failed query, insert, update or delete are not modelled. The same holds for a failing `rows.Err()` and for `fs.ReadDir` on a directory it can read.
- Tokens.AccessClaims: the access claims, and everything built on them (`GenerateAccessToken`, `ParseAccessTokenAt` and the access token Login returns), carry the corrected decimal subject of the second finding, not `string(rune(userID))`. The claims as written are `Tokens.AccessClaimsAsWritten`, and what the code as written gives back is `Tokens.AccessTokenUserIdAsWritten`.
- The int64 width of the id sequences and of user ids is not modelled: ids are unbounded integers. Truncation to int32 is modelled where the code performs it, in the subject codec as written.
- Refresh tokens carry no user and no unique id, so two logins within the same second are handed the same refresh token (`Tokens.RefreshClaimsPerSecond`). RefreshToken and Logout then act on whichever session holding it the lookup picks, possibly another user's; the contracts state this choice, but a corrected token that names its session is not part of this model.
- Concurrency is left out. Two refreshes of the same token at once, the websocket chat, goroutines and the `UpdateSession` race all need concurrency, and the model is sequential.
- HMAC signing, JWT serialisation and bcrypt are oracles. The model assumes only bcrypt's own guarantee, that a hash matches its password (`Tokens.TokenManager.Sound`).
- `Tokens.TokenManager.GenerateAccessToken`, `GenerateRefreshToken`, `HashPassword` and `ParseAccessTokenAt` have no contract of their own. They pass the claims above to the oracles.
- Each use-case call reads the clock once. The code calls `time.Now()` separately for the issue time, the expiry and the session expiry, so the model reads them as equal.
- The session columns for the access token and its expiry are not modelled. No core operation reads or writes them.
- Created/updated timestamps of posts, topics and categories are not modelled. `registered_at` is kept as the `now` of registration.
- Logging and `fmt.Printf` output are left out, along with the HTTP/gRPC controllers, routes, bootstrap, configuration and generated code.
- The Scan-into-struct write-back is modelled as a value. `CreateUser` and `CreateSession` return the caller's struct with the new id instead of writing through a pointer.
- `Migrations.SortSlice`: `sort.Slice` is not stable. The model sorts by insertion, which keeps equal numbers in listing order, one of the orders `sort.Slice` may produce; the contracts state only ordering and permutation.
- `Forum.ForumRepos.PostsOfTopic` and `TopicsOfCategory` list rows in id order. The SQL of the forum repositories is not part of this model, and the use cases do not depend on the order.
- Deleting a topic does not cascade to its posts in the model. The schema's foreign-key behaviour is not part of this model.
- The server side of the user service is not part of this model. Its GetUsernames answer is taken to be exactly its names for the requested ids, and GetUsername is taken to fail for an unknown user; the 5-second call timeout is folded into "service down".
- The `session == nil` branches of RefreshToken and Logout are not modelled. The session table returns an error instead of nil, so they cannot be reached.
- The `len(parts) == 0` branch of getMigrationNumber is not modelled. It cannot be reached, because splitting always yields at least one part.

## Findings

| source | as written | input that shows it | evidently intended | confidence | as-written member | corrected member |
|---|---|---|---|---|---|---|
| pkg/tokens/token.go:73-75 | a valid token's user id is `[]byte(claims.Subject)[0]`, with no check for an empty subject | a refresh token, which has no subject and the same key and method, sent as an access token (`Tokens.RefreshTokenAsAccessTokenPanics`) | such a token is refused with ErrInvalidToken (`Tokens.RefreshTokenAsAccessTokenRefused`) | high, not executed | `Tokens.ParseAccessTokenAsWritten` | `Tokens.ParseAccessToken` |
| pkg/tokens/token.go:40 | the subject is `string(rune(userID))` and is read back as its first UTF-8 byte | user 200: its subject is C3 88, which reads back as 195, the same id user 195 gets (`Tokens.RuneSubjectCollision`); only 0..127 and 195 round-trip (`Tokens.RuneSubjectRoundTrip`) | the subject carries the user id and gives it back for every id, for example in decimal (`Tokens.SubjectRoundTrip`, `Tokens.AccessTokenUserId`) | high, not executed | `Tokens.FirstByteUserId` | `Tokens.SubjectUserId` |
