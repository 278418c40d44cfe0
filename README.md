# User authentication service: a Dafny model of its authentication logic

This project models the decision logic of a Go service that registers users
and logs them in over HTTP and gates protected routes with bearer tokens.
Three pieces are modelled:

- **`UserUseCase`** (`internal/usecase/user_usecase.go`). `Register` decrypts
  the RSA-OAEP-encrypted password, hashes it and inserts the user. `Login`
  looks the user up, decrypts and checks the password, issues a 24-hour JWT
  and caches it. The use case is a class whose methods change two
  repositories: a user store and a session cache. Each method is proved
  equal to a specification function of the old state (`RegisterOutcome`,
  `LoginOutcome`). The lemmas about those functions state, branch by branch,
  what the flows promise.
- **`JWTProvider`** (`internal/infra/security/jwt.go`). It issues HS256
  tokens with `user_id`, `iat` and `exp` claims and validates them. The
  model follows the JWT library's own steps:
  - cut the compact token into three segments;
  - decode the header and the claims;
  - look up the `alg` (section 4.1.1 of RFC 7515);
  - call the key function, which refuses every non-HMAC `alg`;
  - compare the HMAC;
  - check `exp`, then `nbf`.

  The provider is an immutable value: its secret is set when it is built,
  and no operation changes it.
- **`AuthMiddleware`** (`internal/infra/http/middleware.go`). A pure decision
  on the `Authorization` header. The result is one of three 401 refusals, or
  "call `next` once, with `user_id` in the context".

The cryptography is abstract. Each primitive is a function-valued field, and
a predicate states what the model assumes of it (`Rsa.PairedWith` for RSA,
`Sound()` for the others):
- RSAES-OAEP decryption with SHA-256 and an empty label (section 7.1.2 of
  RFC 8017). Given the raw OAEP ciphertext bytes passed to `Decrypt`, it
  gives back the message, whatever OAEP seed the encryption drew.
- The salted password hash and its check. A password matches its own hash,
  no other password matches it, and two salts give two encodings.
- The JWT library's base64url/JSON segment encodings and HMAC. Each decoding
  undoes its encoding, every segment is base64url text, and a tag pins down
  its key. The last is a cryptographic idealisation (see `Jwt.OtherSecretRejected`
  under "Left out").

These assumptions can all hold at once. The module `Witnesses` builds naive
concrete stand-ins and proves that they meet every one of them:
- unary text codecs over a base64url sub-alphabet;
- a "hash" that stores the salt and the password;
- an identity "cipher".

Its lemmas `Witnesses.LibraryIsSound`, `Witnesses.HasherIsSound`,
`Witnesses.DecrypterIsPaired` and `Witnesses.ServicesAreSound` show that the
assumptions do not contradict one another. They do not show that each
lemma's full precondition can be met, and they model nothing in the service
itself, so they have no rows below.

Time is a whole number of seconds passed in as `now`. The OAEP seed and the
password salt are parameters too.

`strings.Split` is modelled exactly (`Strings.Split`), because both the
header check (split on `' '`) and the token parser (split on `'.'`) depend
on it.

The model follows the code as written, including where it falls short of
what an enumeration-safe login would do:
- A Login whose ciphertext does not decrypt answers "failed to decrypt
  password". This differs from the "invalid credentials" given for an
  unknown email or a wrong password. The answer therefore reveals whether an
  email is registered (`UseCase.LoginDecryptFailureRevealsAccount`). An
  enumeration-safe Login would answer all three failures alike.
- An unknown email does no decrypt or hash work. `UseCase.LoginUnknownEmail`
  shows the outcome does not depend on those collaborators at all.
- Validation accepts every HMAC-family `alg` (HS256, HS384, HS512), not only
  the HS256 that tokens are issued with (`Jwt.KeyFuncGate`).
- A repeated email is answered with the MySQL driver's own duplicate-entry
  error, returned unchanged (`UseCase.RegisterExistingEmail`). There is no
  separate duplicate-email error. "Repeated" means the same string here;
  the database compares emails under its collation (see "Left out").
- The token's subject is the email.
- The "base64" ciphertext is decrypted as the raw bytes of the request
  string, without base64 decoding. A client that sends base64, as the
  handler's request type documents, is therefore never decrypted (see
  `Rsa.DecryptRoundTrip` under "Left out").

Files: `wrappers.dfy` (Option, Result), `strings.dfy`, `rsa.dfy`,
`password.dfy`, `jwt.dfy`, `repository.dfy`, `user_usecase.dfy`,
`middleware.dfy`, `end_to_end.dfy`, `witnesses.dfy`.

## Model

| member | source | states |
|---|---|---|
| `Strings.Split` | internal/infra/http/middleware.go:30 | `strings.Split` always returns at least one piece; the empty string gives `[""]` |
| `Strings.SplitJoin` | internal/infra/http/middleware.go:30 | joining the pieces with the separator gives back the input, and no piece contains the separator |
| `Strings.SplitNone` | internal/infra/http/middleware.go:30 | a string without the separator is a single piece |
| `Strings.SplitAt` | internal/infra/http/middleware.go:30 | the first separator ends the first piece, and the rest is split on its own |
| `Rsa.DecryptRoundTrip` | internal/infra/security/rsa.go:46-60 | for any OAEP seed, `Decrypt` of the raw OAEP ciphertext bytes of `m` gives `m` |
| `Jwt.MethodFamily` | internal/infra/security/jwt.go:40 | the library's registered method for an `alg` is of the HMAC family exactly for HS256, HS384 and HS512, and is the unsecured method exactly for "none" |
| `Jwt.SignedShape` | internal/infra/security/jwt.go:34-35 | a token the provider signs, with any claims, has three segments: an HS256 header, those claims, and the HMAC of the first two segments under the provider's own secret |
| `Jwt.GeneratedTokenShape` | internal/infra/security/jwt.go:25-36 | a generated token has three segments: an HS256 header (HMAC family), claims with `user_id == userId`, `iat == now`, `exp == now + duration` and no `nbf`, and the HMAC of the first two segments under the provider's own secret |
| `Jwt.GeneratedTokenHasNoSpace` | internal/infra/security/jwt.go:35 | a generated token contains no space |
| `Jwt.KeyFuncGate` | internal/infra/security/jwt.go:39-44 | the key function hands the provider's secret to HS256, HS384 and HS512, and refuses every other `alg` with "unexpected signing method: " followed by the `alg` |
| `Jwt.NonHmacRejected` | internal/infra/security/jwt.go:39-42 | a token whose header names a non-HMAC `alg` is refused, and the refusal does not depend on the secret or on the HMAC |
| `Jwt.ValidateTokenAccepts` | internal/infra/security/jwt.go:38-55 | validation returns claims `c` if and only if the token is three '.'-free segments, its header names an HMAC `alg`, its claims decode to `c`, its signature is the HMAC under the provider's secret, `exp`, if present, is after `now`, and `nbf`, if present, is not after `now` |
| `Jwt.ValidateSigned` | internal/infra/security/jwt.go:38-52 | a token signed under the provider's own secret, with any claims, is refused as expired from `exp` on, refused as not yet valid before `nbf`, and otherwise accepted with exactly its claims |
| `Jwt.ValidateGenerated` | internal/infra/security/jwt.go:25-52 | round trip: the provider validates its own token, with the claims it put in, before `exp`; from `exp` on, the token is refused as expired |
| `Jwt.OtherSecretRejected` | internal/infra/security/jwt.go:43-48 | a token signed under one secret fails signature verification under any other secret |
| `Jwt.EmptyTokenMalformed` | internal/infra/security/jwt.go:39-48 | the empty token is refused as malformed |
| `Repository.InsertUser` | internal/infra/database/user_repository.go:20-39 | the INSERT succeeds if and only if the email is new; a repeated email gives the driver's duplicate-entry error and no change; existing rows are never altered; the table stays keyed by email |
| `Repository.UserStore.Create` | internal/infra/database/user_repository.go:35-39 | the store's new contents and the error are those of `InsertUser` on the old contents |
| `Repository.UserStore.GetByEmail` | internal/infra/database/user_repository.go:41-58 | returns the stored user with that email if there is one, else "user not found" |
| `Repository.StoreSession` | internal/infra/database/cache_repository.go:20-22 | a reachable cache maps the user id to the token and TTL and leaves other entries alone; an unreachable cache reports an error and changes nothing |
| `Repository.SessionCache.SetUserSession` | internal/infra/database/cache_repository.go:20-22 | the cache's new contents and the error are those of `StoreSession` on the old contents |
| `Repository.SessionCache.GetSession` | internal/infra/database/cache_repository.go:24-26 | returns the cached token when the cache is reachable and holds the key, else the matching error |
| `UseCase.UserUseCase.constructor` | internal/usecase/user_usecase.go:20-27 | the use case holds the given repositories, decrypter and provider |
| `UseCase.UserUseCase.Register` | internal/usecase/user_usecase.go:30-59 | the returned error and the new store are exactly `RegisterOutcome` of the old store; the cache is unchanged |
| `UseCase.UserUseCase.Login` | internal/usecase/user_usecase.go:61-90 | the token, the error and the new cache are exactly `LoginOutcome` of the old cache; the user store is unchanged |
| `UseCase.RegisterDecryptFailure` | internal/usecase/user_usecase.go:39-42 | a ciphertext that OAEP does not decrypt gives exactly "failed to decrypt password: decryption failed: " followed by the RSA library's error (the wrapping of rsa.go:55-57 and of the use case); the store is not written |
| `UseCase.RegisterHashFailure` | internal/usecase/user_usecase.go:45-48 | a hash failure is returned unchanged; the store is not written |
| `UseCase.RegisterNewEmail` | internal/usecase/user_usecase.go:50-58 | success adds exactly one record: the given email, the hash of the decrypted plaintext, and `now` as both timestamps |
| `UseCase.RegisterExistingEmail` | internal/usecase/user_usecase.go:50-58 | registering an email already present fails and leaves the store unchanged; when the password decrypts and hashes, the error is `Create`'s duplicate-entry error, unchanged |
| `UseCase.RegisterSucceedsIff` | internal/usecase/user_usecase.go:30-59 | Register succeeds if and only if the password decrypts, the hash succeeds and the email is new; existing records never change; the store stays keyed by email |
| `UseCase.RegisterHashIsSalted` | internal/usecase/user_usecase.go:45-53 | with a sound hash, two salts store two different hashes, and both check against the password |
| `UseCase.LoginUnknownEmail` | internal/usecase/user_usecase.go:63-66 | an unknown email gives `("", "invalid credentials")` with the cache unchanged, whatever the decrypter, hash and JWT provider are |
| `UseCase.LoginDecryptFailure` | internal/usecase/user_usecase.go:69-72 | a ciphertext that does not decrypt gives `("", "failed to decrypt password")`, a text distinct from "invalid credentials" |
| `UseCase.LoginWrongPasswordLikeUnknownEmail` | internal/usecase/user_usecase.go:63-77 | a wrong password has exactly the outcome of an unknown email |
| `UseCase.LoginDecryptFailureRevealsAccount` | internal/usecase/user_usecase.go:63-72 | for a ciphertext that does not decrypt, the error differs between a registered and an unregistered email |
| `UseCase.LoginSuccess` | internal/usecase/user_usecase.go:80-89 | a correct password returns `GenerateToken(email, 24h)` with no error; a reachable cache then holds that token under the email with TTL 86400 |
| `UseCase.LoginIgnoresCacheFailure` | internal/usecase/user_usecase.go:87-89 | the token and the error do not depend on whether the cache write succeeds |
| `UseCase.LoginSucceedsIff` | internal/usecase/user_usecase.go:61-90 | Login succeeds if and only if the email is registered, the password decrypts and it checks against the stored hash; a token is non-empty exactly on success; other users' cache entries are untouched |
| `UseCase.LoginAcceptsOnlyRegisteredPassword` | internal/usecase/user_usecase.go:30-90 | after Register of a new email with password `registered` (which succeeds), Login for that email with any password `attempt`, under any OAEP seeds, succeeds if and only if `attempt == registered` |
| `Middleware.BearerSplit` | internal/infra/http/middleware.go:30-34 | splitting on `' '` gives `["Bearer", t]` if and only if the header is "Bearer " followed by a space-free `t` |
| `Middleware.RejectionsAreUnauthorized` | internal/infra/http/middleware.go:22-46 | every refusal has status 401 and one of the three fixed messages |
| `Middleware.MissingHeaderRejected` | internal/infra/http/middleware.go:24-28 | an empty header gives 401 "missing authorization header" |
| `Middleware.FormatRejectedIff` | internal/infra/http/middleware.go:30-34 | a present header gives 401 "invalid authorization header format" if and only if it is not "Bearer", one space and a space-free token |
| `Middleware.FormatExamples` | internal/infra/http/middleware.go:30-34 | "Bearer", "Token abc", "Bearer a b" and "bearer x" are refused for their format |
| `Middleware.TokenDecides` | internal/infra/http/middleware.go:36-44 | for a well-formed header, exactly the text after the space is validated; any failure gives 401 "invalid token"; success forwards with `user_id` set to the token's user id and the rest of the context unchanged |
| `Middleware.ForwardIff` | internal/infra/http/middleware.go:30-44 | `next` is reached if and only if the header is well formed and its token validates |
| `Middleware.EmptyBearerToken` | internal/infra/http/middleware.go:30-40 | "Bearer " passes the format check with an empty token, which fails validation: 401 "invalid token" |
| `EndToEnd.LoginTokenOpensGate` | internal/usecase/user_usecase.go:80-89 | a token from a successful Login, sent as "Bearer <token>" before it expires, is forwarded with `user_id` equal to the email |
| `EndToEnd.LoginTokenExpires` | internal/usecase/user_usecase.go:80 | the same token is refused with 401 "invalid token" from 24 hours after issue on |
| `EndToEnd.RegisterLoginScenario` | internal/usecase/user_usecase.go:30-90 | the scenario runs as expected: Register succeeds; a second Register fails with the duplicate-entry error and changes nothing; Login with the right password gives a token the gate accepts; Login with "wrongpass" gives "invalid credentials" |

## Left out

- Login's error return after `GenerateToken` (internal/usecase/user_usecase.go:81-83) is not modelled. `SignedString` cannot fail for HS256 with a byte-slice key, so `Jwt.GenerateToken` returns a token and no error.
- The "invalid token" fallback of `ValidateToken` (internal/infra/security/jwt.go:53-54) is not modelled. The JWT library (v5) marks a token valid exactly when it returns no error, so this branch cannot be reached.
- Jwt.OtherSecretRejected: holds under a cryptographic idealisation, that an HMAC tag determines its key. Real HMAC does not quite do this. It zero-pads a short key, so secrets that differ only by trailing NUL bytes sign alike. It also replaces a key longer than the 64-byte SHA-256 block by its digest, so a long secret and its raw digest sign alike.
- Jwt.ValidateGenerated: `iat` and `exp` come from two clock reads in the source (jwt.go:29-30), and `CreatedAt`/`UpdatedAt` from two more (user_usecase.go:54-55). The model uses one `now` in whole seconds, so a real `exp - iat` can be one second short across a second boundary.
- Validation options the service does not turn on are not modelled: `iat` checking, `aud`, `iss` and `sub`, and leeway.
- Jwt.ValidateTokenAccepts: the `nbf` check is modelled, so a token carrying an `nbf` after `now` is refused (`TokenError.NotValidYet`). `GenerateToken` (internal/infra/security/jwt.go:26-32) never sets `nbf`, so only a token signed by another holder of the same secret can carry one. When both `exp` and `nbf` fail, the library joins the two errors; the model reports only `Expired`.
- The exact error texts of the JWT library are kinds (`TokenError`), not strings. The middleware collapses all of them into "invalid token".
- Base64url and JSON encoding, decoding leniency, RSA, bcrypt and HMAC are abstract.
- UseCase.LoginAcceptsOnlyRegisteredPassword and EndToEnd.RegisterLoginScenario: their "only the registered password logs in" half rests on the `Password.Hasher.Sound` clause that no other password checks against a hash. bcrypt compares only the first 72 bytes of a password, so an attempt that extends a 72-byte registered password also checks against its hash and logs in. bcrypt's real collisions are likewise outside that clause.
- Rsa.DecryptRoundTrip: `Rsa.PairedWith` describes a Go caller that passes the raw OAEP ciphertext bytes to `Decrypt`. The handler's request type documents `encrypted_password` as base64 (internal/infra/http/handlers/user_handler.go:20,25), and the use case passes that text's bytes to `rsa.DecryptOAEP` undecoded (internal/usecase/user_usecase.go:39, internal/infra/security/rsa.go:48-53). The base64 of a 256-byte ciphertext (the 2048-bit key of cmd/api/main.go) is 344 bytes, longer than the modulus, and OAEP decryption refuses it. Raw ciphertext bytes cannot be sent instead, because JSON decoding yields only valid UTF-8. So over HTTP every Register fails with "failed to decrypt password: decryption failed: …", and every Login for a registered email gets "failed to decrypt password". The success paths of `UseCase.LoginAcceptsOnlyRegisteredPassword` and `EndToEnd.RegisterLoginScenario` are reachable only by a direct caller.
- Repository.InsertUser: email equality is exact string equality (map keys). In the program, the UNIQUE `email` column (internal/infra/database/user_repository.go:22) sets no COLLATE, so MySQL compares emails under its default case-insensitive collation. There, registering "A@x.com" after "a@x.com" fails with the duplicate-entry error, while in the model it succeeds.
- Repository.UserStore.GetByEmail: `WHERE email = ?` (internal/infra/database/user_repository.go:42) uses the same collation, so the program also finds a differently-cased address, and Login then issues a token whose `user_id` is the spelling typed at login. In the model, a lookup finds only the exact spelling, so that Login gets "invalid credentials".
- Repository.DuplicateEntry: the exact text is an assumption about the MySQL server and driver. The key name (`'users.email'` or `'email'`) depends on the server version, and the `(23000)` part on the driver version. The model relies only on the error being present and fixed for a given email.
- The store's transport and SQL errors other than the duplicate email are not modelled, and neither are the `AUTO_INCREMENT` id or DATETIME storage.
- The cache's `"session:"` key prefix and the expiry of entries are not modelled. `GetSession` is modelled but never called by the use case.
- Timing is not modelled. The unknown-email path does no decrypt or hash work, so it is faster than the wrong-password path, and the model cannot express this.
- Concurrency between requests and context cancellation are not modelled.
- `Header.Get`'s canonical key lookup and multiple header values are not modelled: an absent header is the empty string. `http.Error`'s body newline and its headers are not modelled either.
- Middleware.EmptyBearerToken: describes a direct call of the handler. Go's HTTP/1.1 header parser trims trailing whitespace from header values, so a header sent over the wire as "Bearer " arrives as "Bearer" and gets "invalid authorization header format" instead.
- Key generation and PEM files (`cmd/api/main.go`), private-key loading (`NewRSADecrypter`), `LoggerMiddleware`, the HTTP handlers, MySQL/Redis connection setup and retry loops, and configuration lookup are not part of this model. They are I/O and wiring.
