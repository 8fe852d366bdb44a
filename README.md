# User-credential service, modelled in Dafny

The service is a small account API. A client registers a user name, an
e-mail address and a password. The service checks the input, refuses a name
or an e-mail that is already taken, stores a bcrypt hash of the password, and
answers with the new account. A client then logs in with name and password.
The service verifies the password against the stored hash, stamps the
account's last-login time, refuses a disabled account, and answers with a
signed bearer token (JWT) whose subject is the user name, together with the
account.

The model covers:

- the request validators (user name, password) and the response shapes;
- the `users` table and the store that reads and changes it (`UserCRUD`),
  as a class whose methods update the table in place;
- password hashing and token issue and verification, around the two foreign
  libraries;
- the register and login handlers: which store call they make when, and which
  HTTP answer each outcome becomes;
- the settings and the database URL built from them;
- the input checks of the interactive registration client.

Modules, one per source file:

| module | file | what it holds |
|---|---|---|
| `Common` | common.dfy | `Option`, `Result`, `HttpError` |
| `Text` | text.dfy | Python's character classes over ASCII, `str.replace(c, '')`, character search, `str(int)` and its inverse |
| `Config` | config.dfy | `Settings`, its defaults, `database_url` |
| `Database` | database.dfy | the `User` row, column widths, `__repr__` |
| `Schemas` | schemas.dfy | validators, `UserResponse`, `Token`, `APIResponse` |
| `Security` | security.dfy | hashing, claims, token creation and verification |
| `Crud` | crud.dfy | `UserStore`, the table and its operations |
| `Auth` | auth.dfy | the register and login handlers |
| `SimpleRegister` | simple_register.dfy | the client's e-mail, password and user-name checks |

How the outside world enters the model:

- **Clock.** Every reading of the clock (`datetime.utcnow()`) is a parameter
  `now`, in whole seconds.
- **bcrypt.** The hasher is a value `PasswordHasher(hash, verify)` passed in.
  Its random salt is an explicit parameter of `hash`.
- **JWT.** The library is a value `JwtCodec(encode, decode)`. `decode` answers
  `None` wherever the library raises `JWTError`.
- **Trusted library properties.** The properties the service relies on are
  `requires` on the lemmas that use them, never axioms:
  - `HasherSound`: a hash verifies against its password.
  - `CodecRoundTrips`: a token decodes to its claims, for claim sets of the
    kind the service issues (`ServiceClaims`: at most a string `sub` and a
    numeric `exp`). The library refuses more than that (an expired token,
    an `aud` when no audience is given, a future `nbf`, a non-string `jti`),
    so the assumption is stated only for those claim sets. The model keeps
    no clock inside the codec (see "Left out").
- **Database failures.** Each database call that can raise (lost connection,
  failed commit) takes a boolean saying whether it raises this time. The
  insert of `create_user` takes two: one for a failure up to and including
  the commit, which is rolled back, and one for reloading the row after the
  commit, which leaves the committed row in place.

## Model

| member | source | states |
|---|---|---|
| Text.RemoveChar | app/schemas.py:29 | `v.replace('_', '')` drops every `_` and keeps every other character with its number of occurrences |
| Text.IntToStringRoundTrip | app/config.py:50 | the decimal rendering of an integer (the port in the URL, the id in `__repr__`) parses back to the same integer and uses only digits and `-` |
| Config.Settings.DatabaseUrl | app/config.py:41-50 | the URL starts with `mysql+aiomysql://` and ends with the database name |
| Config.TokenAndApiDefaults | app/config.py:23-33 | by default tokens use HS256, live 30 minutes, and the API prefix is `/api/v1` |
| Config.DefaultDatabaseUrl | app/config.py:16-20 | with the defaults the URL reads back as user `root`, an empty password, host `localhost`, port `3306` (rendered so) and database `user_service`, and the URL is exactly `mysql+aiomysql://root:@localhost:3306/user_service` |
| Config.DatabaseUrlRoundTrip | app/config.py:50 | when the user has no `:`, the password no `@` and the host no `:`, the URL parses back into exactly the five connection settings |
| Config.DatabaseUrlIsNotEscaped | app/config.py:50 | components are inserted unescaped: a `:` moved from the end of the user name to the start of the password leaves the URL unchanged |
| Database.ColumnDefaults | app/database.py:45-51 | a new row is active and has no last login |
| Database.ReprShowsIdentityOnly | app/database.py:53-54 | `__repr__` depends only on id, user name and e-mail, never on the hash, the status or the timestamps |
| Database.ReprExample | app/database.py:53-54 | the exact rendering of a sample row |
| Schemas.UnderscoreFreeIsAlnum | app/schemas.py:29 | the name with `_` removed is a non-empty alphanumeric string iff every character is alphanumeric or `_` and at least one is not `_` |
| Schemas.ValidateUsername | app/schemas.py:19-32 | accepts iff 3 ≤ length ≤ 50 and the alphabet holds; returns the name unchanged; a bad length gets the length message even when the alphabet is also wrong, otherwise a bad alphabet gets the charset message |
| Schemas.UsernameEdgeCases | app/schemas.py:26-30 | `___` is refused for its alphabet, `a!` for its length, `demo_user` is accepted |
| Schemas.ValidatePassword | app/schemas.py:42-58 | accepts iff length ≥ 8 with at least one letter and one digit; returns the password unchanged; the length message comes before the composition message |
| Schemas.PasswordExamples | app/schemas.py:49-58 | the sample passwords pass and `abcdefgh` fails on composition |
| Schemas.ResponseOf | app/schemas.py:70-82 | building the response from a row re-runs the inherited user-name validator: it fails with that validator's message when the stored name is refused, and otherwise copies every shown field (the inherited e-mail re-check is left out, see below) |
| Schemas.ResponseHidesHash | app/schemas.py:70-78 | the response does not depend on the stored hash |
| Schemas.TokenDefaults | app/schemas.py:93-107 | the token type defaults to `bearer`, the token's user name to absent |
| Schemas.SuccessResponse | app/schemas.py:119-131 | a success envelope carries `success = true`, the message and the data |
| Schemas.ErrorResponse | app/schemas.py:133-144 | an error envelope carries `success = false`, the message and no data |
| Schemas.EnvelopesAreDistinct | app/schemas.py:119-144 | no success envelope equals an error envelope |
| Security.HashedPasswordVerifies | app/security.py:25-50 | for a sound hasher, a stored hash accepts the password it was made from |
| Security.AccessTokenClaims | app/security.py:64-75 | the encoded claims are the caller's claims plus `exp`, every other claim kept; `exp` is now plus the given duration, or plus the configured minutes when none or a zero duration is given |
| Security.CreateAccessToken | app/security.py:52-79 | the token is the encoding, under the configured key and algorithm, of exactly those claims |
| Security.UserTokenClaims | app/security.py:129-136 | passing the configured duration explicitly yields a subject and an expiry the configured minutes ahead |
| Security.CreateTokenForUser | app/security.py:118-138 | the token encodes `{sub: name, exp: now + minutes·60}` |
| Security.VerifyToken | app/security.py:81-116 | succeeds iff the token decodes under the configured key and only the configured algorithm and carries a string `sub`; the answer is that subject; every failure is the one 401 with a bearer challenge |
| Security.IssuedTokenVerifies | app/security.py:118-138 | for a codec that round-trips, a token issued for a user verifies to that user's name |
| Security.MissingSubjectLooksLikeBadToken | app/security.py:107-116 | a token that decodes to claims without `sub` is refused with exactly the error of a token that does not decode |
| Crud.FindIndex | app/crud.py:37-39 | the position found holds a matching row and no earlier row matches, and there is none exactly when no row matches |
| Crud.LookupFindsTheOnlyMatch | app/crud.py:37-40 | with unique keys, a lookup answers a row iff that row is in the table and matches |
| Crud.Touch | app/crud.py:153 | stamping a login changes that row's last login and nothing else in the table |
| Crud.UserStore.constructor | app/database.py:25-51 | an empty table satisfies the constraints |
| Crud.UserStore.GetUserByUsername | app/crud.py:23-43 | an answer is a row with that name; no answer means the query raised or no such row exists |
| Crud.UserStore.GetUserByEmail | app/crud.py:45-64 | the same, by e-mail |
| Crud.UserStore.GetUserById | app/crud.py:66-85 | the same, by id |
| Crud.UserStore.CreateUser | app/crud.py:87-127 | commits a row iff nothing raises before the commit, the name and the e-mail are free and the row fits its columns; the new row is active, never logged in, holds the hash and a fresh id and is appended; otherwise the table and the counter are unchanged; it answers the row iff it committed and reloading it did not raise, so a late failure answers nothing with the row stored; the constraints are kept |
| Crud.UserStore.AuthenticateUser | app/crud.py:129-160 | answers iff the name exists, the password verifies and neither the lookup nor the commit raises; then exactly that row's last login becomes now and the answer is the updated row, active or not; otherwise the table is unchanged |
| Crud.UserStore.UpdateUserLastLogin | app/crud.py:162-184 | true iff an account with that id exists and nothing raises; then only its last login changes; otherwise nothing changes |
| Auth.RegisterUser | app/auth.py:29-90 | a taken name is refused (400) before the e-mail is looked at, then a taken e-mail (400); a failed insert is a 500; exactly one row is added and the counter advances iff the store committed, and nothing changes otherwise; success iff it committed and reloading the row did not raise, and then the body is the account with its id; a reload failure is a 500 with the account stored |
| Auth.LoginUser | app/auth.py:93-151 | bad credentials or a raising store step give the 401 and change nothing; correct credentials stamp the last login first; then a disabled account gets 400, a stored name the re-run validator refuses gets the generic 500, and otherwise the body is a bearer token for the name and the account with its new last login (the `from_orm` e-mail re-check is left out, see below) |
| Auth.RegisterIntoEmptyStore | app/auth.py:47-81 | valid input registered into an empty table succeeds with id 1, an active account and no last login |
| Auth.RegisterAgainAfterLateFailure | app/crud.py:113-127 | when reloading the new row raises after the commit, registration answers 500 "用户创建失败" with the account stored, and registering the same name again is refused as taken (400) |
| Auth.LoginOnlyAccount | app/auth.py:111-142 | with that account the only one, its password logs in, stamps the time and answers a bearer token for the name with the account |
| Auth.RefuseWrongPassword | app/auth.py:113-119 | a password the stored hash rejects gets the 401 and changes nothing |
| SimpleRegister.MatchesWholeIsPattern | simple_register.py:15 | the backtracking-free matcher accepts exactly the strings the pattern `[a-zA-Z0-9._%+-]+@[a-zA-Z0-9.-]+\.[a-zA-Z]{2,}` spans |
| SimpleRegister.ValidateEmail | simple_register.py:13-16 | accepts iff the pattern spans the whole string, or the whole string but one final newline (how `$` behaves) |
| SimpleRegister.AcceptedHasOneAt | simple_register.py:15 | an accepted address has exactly one `@`, with something before it |
| SimpleRegister.EmailAccepted | simple_register.py:15 | `demo@example.com` is accepted, also with a trailing newline |
| SimpleRegister.ShortDomainRefused | simple_register.py:15 | `a@b.c` is refused: the top-level domain needs two letters |
| SimpleRegister.DoubledAtRefused | simple_register.py:15 | `a@@b.com` is refused |
| SimpleRegister.ValidatePassword | simple_register.py:18-31 | accepts exactly what the server's password validator accepts, with the message `密码格式正确`; refuses a short password for its length whatever it holds, then a missing letter before a missing digit |
| SimpleRegister.PasswordMessagesCorrespond | simple_register.py:18-31 | where both validators refuse, both name the length, or the server names composition while the client names the missing class |
| SimpleRegister.PasswordExamples | simple_register.py:18-31 | an all-letter password misses its digit, an all-digit one its letter, a short one fails on length |
| SimpleRegister.CheckUsername | simple_register.py:44-52 | the input loop accepts exactly the names the server's validator accepts; an empty name gets its own message; any other refused name gets the server's message |

## Left out

- I/O is not modelled: HTTP routing, the database session and engine, `print`
  logging and the interactive prompts. The handlers are called directly, and
  store failures are the fault flags.
- Concurrency is not modelled. The handlers run one at a time, so the race
  between the duplicate checks and the insert does not arise. The outcome
  that race produces, an insert refused by a unique constraint, is still
  covered: it is the `CreateUser` → nothing → 500 path.
- `get_current_user_info` (app/auth.py:154-172) is a placeholder that returns
  a fixed message. It has no behaviour worth modelling.
- `DatabaseManager`, the FastAPI application and its exception handlers
  (app/main.py) are not part of this model, and neither are the operational
  and demonstration scripts.
- bcrypt and JWT internals (salting, HMAC, base64url) are not modelled.
  - The expiry check happens inside the JWT decoder, which takes no time
    argument here.
  - The only properties assumed of these libraries are `HasherSound` and
    `CodecRoundTrips`, as requirements.
- Security.IssuedTokenVerifies: the round trip it relies on holds in the
  library only while the token's `exp` has not passed. The lemma therefore
  covers verification right after issue; a later verification of the same
  token is refused by the library once `exp` is in the past, and that expiry
  check is not modelled.
- Character classes (`isalpha`, `isdigit`, `isalnum`) are modelled over ASCII.
  Python's Unicode letters and digits (such as `é` or `٣`) are outside the
  model.
- `EmailStr` validation of the request's e-mail is not modelled. Any string
  reaches the store.
- Schemas.ResponseOf: `from_orm` also re-validates the inherited
  `email: EmailStr` field. That re-check is not modelled, so a stored row
  whose e-mail is not an address still projects successfully here.
- Auth.LoginUser: because of the missing `from_orm` e-mail re-check, a row
  whose stored e-mail is not an address logs in successfully in the model,
  where the service answers the generic 500 (`登录过程中发生错误`).
- MySQL's case-insensitive collation is not modelled. Uniqueness and lookups
  compare strings exactly, so `Alice` and `alice` are different names here.
- Crud.UserStore.CreateUser: ids come from a counter. It advances only on a
  committed insert. MySQL's auto-increment can also skip values after a
  failed insert, and such gaps are not modelled.
- Times are whole seconds. `datetime.utcnow()` has microseconds.
  - A login reads the clock twice, once in the store and once for the token.
    The model uses the same `now` for both.
- Auth.RegisterUser: the generic 500 (`注册过程中发生错误`) cannot happen in
  the model.
  - The request validator has already accepted the name, so building the
    response cannot fail, and no other exception source is modelled.
  - The branch is kept in the body.
- SimpleRegister.CheckUsername is applied to the line after `strip()`.
  Whitespace stripping is part of the input I/O.
- The client's HTTP calls (`register_new_user`, `test_login`) are network I/O
  and are not modelled.

The model follows the code as written:
A name that is already taken but missed by the duplicate check (a lookup that
raised) does not get "用户名已存在". The insert then hits the unique constraint
and the answer is the 500 "用户创建失败", as `register_user` is written.
