# Serverless authentication, modelled in Dafny

This project models the authentication logic of a set of AWS Lambda handlers and proves
properties of it. There are two services.

- **The JWT service** (`auth.ts`, `data.ts`). Users register and log in against a users
  table of `username → {bcrypt digest, refresh token?}`. A login issues a 15-minute access
  token and a fresh refresh token, overwriting the previous one. A refresh token is found
  again through the `RefreshTokenIndex` secondary index. Logout removes it. Refresh exchanges
  it for a new access token. The data handler serves `/data/public` to anyone and
  `/data/private` only to a token that `verifyToken` accepts.
- **The Basic-auth service** (`register_function.ts`, `lambda_function.js`,
  `lambda_function.py`). Registration stores the password AES-256-CBC encrypted, as
  `hex(iv) + hex(ciphertext)` in one string. The Node reader parses
  `Authorization: Basic <base64>`, slices the stored string at 32 characters, decrypts it and
  compares. The Python reader does the same against a table of plaintext passwords, but
  insists on exactly two parts at every split.

Every operation is a pure function over immutable values. A handler takes the table, the
request and the fresh random values it would draw, and returns a reply and the new table.
The foreign libraries are function-typed parameters that the model never looks inside:
bcrypt, jsonwebtoken, AES-256-CBC and each reader's own base64 + UTF-8 decoder. The facts
the proofs need about them appear only as lemma hypotheses. Examples are "decrypting with the
same iv inverts encrypting" (`StoredCredential.Inverts`), "the signer's tokens verify" and
"a signed token never verifies without a secret" (`Sessions.SignedTokensNeedSecret`). Freshness of a new
refresh token (no row holds it yet) is likewise a hypothesis of the invariant lemmas. It is
never a precondition of the operations.

Modules, leaf first:

| file | module | models |
|---|---|---|
| wrappers.dfy | `Wrappers` | `Option`, `Result` |
| text.dfy | `Text` | JavaScript/Python `split` with one separator, `startsWith`, out-of-range indexing |
| hex.dfy | `Hex` | Node's hex encoding and its lenient decoding |
| lexorder.dfy | `LexOrder` | a total order on strings, to make "the first index match" definite |
| http.dfy | `Http` | API Gateway events (headers, parsed bodies) and replies |
| sessions.dfy | `Sessions` | `register`, `login`, `logout`, `refreshAccessToken`, `verifyToken` |
| auth_handler.dfy | `AuthHandler` | the `/auth` Lambda `handler` |
| data_handler.dfy | `DataHandler` | the `/data` Lambda `handler` |
| stored_credential.dfy | `StoredCredential` | the `iv ++ ciphertext` credential format and its reader |
| legacy_register.dfy | `LegacyRegister` | the Basic-auth registration `handler` |
| basic_auth_node.dfy | `BasicAuthNode` | the Node Basic-auth `handler` |
| basic_auth_python.dfy | `BasicAuthPython` | the Python `lambda_handler` |
| jwt_flows.dfy, legacy_flows.dfy | `JwtFlows`, `LegacyFlows` | properties across several handlers |

The model follows the code, which departs from the usual REST choices in four places:

- A failed login is answered with **500**, not 401. `login` throws "Invalid credentials" and
  the handler's catch-all maps every thrown error to 500.
- A refresh with an unknown token is also **500**, not 401.
- In the JWT service, registering a taken username is also **500**, not 409. The conditional
  put throws.
- The Basic-auth registration reads the table and then writes it. It does not write
  conditionally.

A modelling decision: the model gives each scheme a table of its own (`Sessions.Store` of
bcrypt digests, `LegacyRegister.Table` of encrypted strings, `BasicAuthPython.PlainTable` of
plaintext). The code does not guarantee that. `auth.ts` and `register_function.ts` both
read `process.env.USERS_TABLE`, and `auth.ts` falls back to `"Users"`, the name
`lambda_function.py` hard-codes. "## Left out" lists what a shared table would add.

Some consequences of the code are proved as lemmas:

- `verifyToken` hands `jwt.verify` the raw `JWT_SECRET`, without the `"your-secret-key"`
  fallback that signing uses. What `jwt.verify` does with an unset or empty secret is up to
  the jsonwebtoken version, so the model passes the raw value to the opaque verifier and
  states each behaviour as a hypothesis. Every version rejects a signed token there, so the
  service's own tokens never verify (`Sessions.DefaultSecretTokensNeverVerify`). Version 9
  rejects every token, which keeps private data locked
  (`DataHandler.UnsetSecretLocksPrivateData`). Versions up to 8.5.1 accept an unsigned
  token, and then that token is served private data
  (`DataHandler.UnsignedTokenOpensPrivateData`).
- A Basic-auth password containing `:` can be registered but never used with the Node
  reader. The reader keeps only the text up to the colon (`LegacyFlows.ColonPasswordIsRejected`).
- `logout` is idempotent only while no two rows share a refresh token. The invariant
  `UniqueRefreshTokens` holds when every new token is fresh, and the lemmas carry it.

## Model

| member | source | states |
|---|---|---|
| `Sessions.SigningSecret` | 3-Serverless-JWT-Example-Postman/lambda/src/auth.ts:7 | the signing secret is never empty: a configured secret is used as is, an unset or empty one falls back to "your-secret-key" |
| `Sessions.FindByRefreshToken` | 3-Serverless-JWT-Example-Postman/lambda/src/auth.ts:68-80 | the index query finds nothing exactly when no row holds the token; what it finds holds the token |
| `LexOrder.Least` | 3-Serverless-JWT-Example-Postman/lambda/src/auth.ts:80 | the row taken as `Items[0]` is a member of the match set and sorts no later than any other match |
| `Sessions.Register` | 3-Serverless-JWT-Example-Postman/lambda/src/auth.ts:16-34 | fails with UsernameTaken and leaves the table alone exactly when the username exists; otherwise adds exactly one row {hash(password), refresh token}, changes no other row, and returns the same refresh token it stored together with a token signed for the user |
| `Sessions.Login` | 3-Serverless-JWT-Example-Postman/lambda/src/auth.ts:36-64 | an unknown user and a wrong password fail with the same InvalidCredentials error and no write; success overwrites only that user's refresh token with the fresh one, keeping the digest and every other row |
| `Sessions.Logout` | 3-Serverless-JWT-Example-Postman/lambda/src/auth.ts:66-89 | a token nobody holds changes nothing; otherwise exactly one row holding the token loses it and every other row, another holder included, stays as it was; digests never change |
| `Sessions.RefreshAccessToken` | 3-Serverless-JWT-Example-Postman/lambda/src/auth.ts:91-110 | fails with InvalidRefreshToken exactly when no row holds the token; otherwise returns a token signed for a user holding it |
| `Sessions.VerifyToken` | 3-Serverless-JWT-Example-Postman/lambda/src/auth.ts:112-119 | the verdict is the library's on the raw JWT_SECRET: with a configured secret it checks against the very key signing uses, and otherwise against the unset or empty value, which is never the signing default; `DefaultSecretTokensNeverVerify` and `IssuedTokenVerifies` carry what follows for issued tokens |
| `Sessions.HolderIsFound` | 3-Serverless-JWT-Example-Postman/lambda/src/auth.ts:79-80 | while refresh tokens are unique, the index finds exactly the row holding the token, so the choice of `Items[0]` never matters |
| `Sessions.RegisterOnlyOnce` | 3-Serverless-JWT-Example-Postman/lambda/src/auth.ts:20-30 | after a successful registration the table has one more row, and registering the same name again fails with the table unchanged |
| `Sessions.RegisterKeepsTokensUnique` | 3-Serverless-JWT-Example-Postman/lambda/src/auth.ts:18-29 | registering with a fresh token keeps refresh tokens unique across rows |
| `Sessions.LoginKeepsTokensUnique` | 3-Serverless-JWT-Example-Postman/lambda/src/auth.ts:50-61 | logging in with a fresh token keeps refresh tokens unique across rows |
| `Sessions.LogoutKeepsTokensUnique` | 3-Serverless-JWT-Example-Postman/lambda/src/auth.ts:79-88 | logout keeps refresh tokens unique across rows |
| `Sessions.LogoutClearsToken` | 3-Serverless-JWT-Example-Postman/lambda/src/auth.ts:79-88 | while no two rows share a refresh token (`UniqueRefreshTokens`), after logout no row holds the token |
| `Sessions.LogoutEndsSession` | 3-Serverless-JWT-Example-Postman/lambda/src/auth.ts:103-105 | while no two rows share a refresh token (`UniqueRefreshTokens`), a refresh with a logged-out token fails with InvalidRefreshToken |
| `Sessions.LogoutIdempotent` | 3-Serverless-JWT-Example-Postman/lambda/src/auth.ts:66-89 | while no two rows share a refresh token (`UniqueRefreshTokens`), logging out twice with one token gives the same table as logging out once |
| `Sessions.LoginRotatesRefreshToken` | 3-Serverless-JWT-Example-Postman/lambda/src/auth.ts:50-61 | after a login the token the user held before no longer resolves, and the fresh one resolves to that user |
| `Sessions.RegisteredUserCanLogIn` | 3-Serverless-JWT-Example-Postman/lambda/src/auth.ts:45 | with a hasher whose digest matches its password, login right after registration succeeds |
| `Sessions.DefaultSecretTokensNeverVerify` | 3-Serverless-JWT-Example-Postman/lambda/src/auth.ts:112-119 | when JWT_SECRET is unset or empty and the library rejects signed tokens checked without a secret, the access token a login returns is rejected by verifyToken |
| `Sessions.IssuedTokenVerifies` | 3-Serverless-JWT-Example-Postman/lambda/src/auth.ts:112-119 | with the secret configured and a verifier that accepts what the signer signs under it, the access token a login returns passes verifyToken |
| `AuthHandler.BearerToken` | 3-Serverless-JWT-Example-Postman/lambda/src/auth.ts:168 | the token is the text from just after `Bearer ` up to the next space or the end |
| `AuthHandler.RegisterRoute` | 3-Serverless-JWT-Example-Postman/lambda/src/auth.ts:142-148 | 201 with the token pair exactly when both fields are present and the name is new, and the stored token is the one returned; any other outcome is 500 with no write |
| `AuthHandler.LoginRoute` | 3-Serverless-JWT-Example-Postman/lambda/src/auth.ts:149-155 | 200 with the token pair exactly when both fields are present and login succeeds; a failed login or missing field is 500 with no write |
| `AuthHandler.LogoutRoute` | 3-Serverless-JWT-Example-Postman/lambda/src/auth.ts:156-173 | with a header map, 400 and no write exactly when there is no `Bearer ` header, and 200 for every `Bearer ` header, a no-op logout included; a 200 has logged out the bearer token; without a header map, 500 |
| `AuthHandler.RefreshRoute` | 3-Serverless-JWT-Example-Postman/lambda/src/auth.ts:174-180 | never writes; 200 exactly when the body carries a token some row holds, with an access token signed for that row's user; otherwise 500 |
| `AuthHandler.Handle` | 3-Serverless-JWT-Example-Postman/lambda/src/auth.ts:121-188 | OPTIONS is 200 with an empty body on any path; 404 exactly for a request outside the four POST routes; only 200/201 change the table; 400 exactly for a logout without a Bearer header |
| `AuthHandler.ThrownErrorsAreInternal` | 3-Serverless-JWT-Example-Postman/lambda/src/auth.ts:184-187 | a taken username, a failed login and an unknown refresh token all come out as 500 with the table unchanged |
| `DataHandler.PresentedToken` | 3-Serverless-JWT-Example-Postman/lambda/src/data.ts:44 | a token is presented exactly when the Authorization header contains a space, and it is the text from just after the first space up to the next space or the end |
| `DataHandler.Admitted` | 3-Serverless-JWT-Example-Postman/lambda/src/data.ts:44-45 | admitted exactly when the header has a space and the slice between the first space and the next one (or the end) is not empty and verifyToken accepts it |
| `DataHandler.Handle` | 3-Serverless-JWT-Example-Postman/lambda/src/data.ts:13-73 | OPTIONS is 200 first; GET public is 200 with public data; 404 exactly off the two GET routes; 500 exactly for GET private without a header map; otherwise 200 or 401 as the token gate decides; private data only goes to an admitted token |
| `DataHandler.SchemeIsIgnored` | 3-Serverless-JWT-Example-Postman/lambda/src/data.ts:44 | the first word of the header is not checked: any scheme, a space and a token present that token |
| `DataHandler.UnsetSecretLocksPrivateData` | 3-Serverless-JWT-Example-Postman/lambda/src/data.ts:44-50 | with JWT_SECRET unset or empty and a library that rejects every token without a secret (jsonwebtoken 9), private data is never served |
| `DataHandler.UnsignedTokenOpensPrivateData` | 3-Serverless-JWT-Example-Postman/lambda/src/data.ts:44-56 | with JWT_SECRET unset or empty and a library that accepts some token without a secret (jsonwebtoken 8.5.1 and earlier, for an unsigned one), `Bearer <that token>` is served private data |
| `JwtFlows.RegisterLoginFetch` | 3-Serverless-JWT-Example-Postman/lambda/src/auth.ts:142-155 | register gives 201, a wrong-password login gives 500 with no write, the right one 200, and its access token opens private data while no header gives 401 |
| `JwtFlows.SecondLoginRevokesFirst` | 3-Serverless-JWT-Example-Postman/lambda/src/auth.ts:50-61 | after a second login, refreshing with the first login's token is 500 |
| `JwtFlows.LogoutThroughHandler` | 3-Serverless-JWT-Example-Postman/lambda/src/auth.ts:156-173 | logout through the handler is 200, repeating it changes nothing, and a refresh with the token is then 500 |
| `Hex.Encode` | 3-Serverless-JWT-Example-Postman/lambda/src/register_function.ts:23 | two hexadecimal digits per byte |
| `Hex.Decode` | 1-Serverless-First/Node.js/lambda/lambda_function.js:9-10 | every byte is read from its own digit pair, and reading stops only at the end, at a lone last digit, or at the first pair that is not two hexadecimal digits |
| `Hex.DecodeEncode` | 1-Serverless-First/Node.js/lambda/lambda_function.js:9-10 | `Buffer.from(_, "hex")` reads back exactly the bytes `toString("hex")` wrote |
| `StoredCredential.Pack` | 3-Serverless-JWT-Example-Postman/lambda/src/register_function.ts:64-65 | the stored string is hex of iv followed by hex of ciphertext, so its length is twice the byte count; with a 16-byte iv its first 32 characters are exactly the iv |
| `StoredCredential.Unpack` | 1-Serverless-First/Node.js/lambda/lambda_function.js:64-67 | the two slices concatenate back to the stored string and the first is 32 characters, or all of a shorter string |
| `StoredCredential.UnpackPack` | 1-Serverless-First/Node.js/lambda/lambda_function.js:65-66 | slicing at 32 characters gives back the iv hex and the ciphertext hex that were packed |
| `StoredCredential.Decrypt` | 1-Serverless-First/Node.js/lambda/lambda_function.js:8-15 | halves written as hex reach the cipher as the bytes they were written from |
| `StoredCredential.DecryptPacked` | 1-Serverless-First/Node.js/lambda/lambda_function.js:8-15 | when decryption inverts encryption, a packed credential decrypts to the password it was made from |
| `LegacyRegister.Handle` | 3-Serverless-JWT-Example-Postman/lambda/src/register_function.ts:28-88 | no body is 400; 400 exactly for no body or an empty or missing field; 409 exactly for a taken name; 201 exactly for valid fields, a new name and a working cipher; only 201 writes, adding one row whose value is the packed credential and whose first 32 characters are the iv, other rows unchanged; otherwise 500 |
| `LegacyRegister.ValidationIgnoresTable` | 3-Serverless-JWT-Example-Postman/lambda/src/register_function.ts:30-44 | a 400 is decided before the table is consulted: it is the same answer for every table |
| `BasicAuthNode.ReadClaim` | 1-Serverless-First/Node.js/lambda/lambda_function.js:43 | the username is the text up to the first colon or the end; a password is read exactly when there is a colon, and it is the text from just after that colon up to the next colon or the end |
| `BasicAuthNode.Claimed` | 1-Serverless-First/Node.js/lambda/lambda_function.js:31-43 | credentials are read only from a header whose first word is `Basic` |
| `BasicAuthNode.Handle` | 1-Serverless-First/Node.js/lambda/lambda_function.js:20-85 | always 200 or 401; a missing or empty header is the missing-header 401; 200 "Authorized" exactly when a Basic claim names a stored user whose credential decrypts to the claimed password |
| `BasicAuthNode.ReadClaimOfPair` | 1-Serverless-First/Node.js/lambda/lambda_function.js:43 | colon-free `user:password` is read as exactly that pair |
| `BasicAuthNode.ReadClaimOfTriple` | 1-Serverless-First/Node.js/lambda/lambda_function.js:43 | text after a second colon is dropped |
| `BasicAuthNode.BasicValue` | 1-Serverless-First/Node.js/lambda/lambda_function.js:31 | `Basic <value>` with a space-free value splits into exactly the scheme and the value |
| `BasicAuthPython.SplitPair` | 1-Serverless-First/Python/lambda/lambda_function.py:11 | two-way unpacking succeeds exactly when the separator occurs once, and the halves rebuild the string |
| `BasicAuthPython.Credentials` | 1-Serverless-First/Python/lambda/lambda_function.py:11-16 | credentials come only from `Basic <value>` with a space-free value that decodes to exactly two colon-free halves |
| `BasicAuthPython.Handle` | 1-Serverless-First/Python/lambda/lambda_function.py:8-38 | a null header map raises out of the handler and nothing else does; every reply is 200 or the 401 "Unauthorized"; 200 exactly when the parsed user exists with that plaintext password |
| `LegacyFlows.RegisteredUserIsAuthorized` | 1-Serverless-First/Node.js/lambda/lambda_function.js:61-79 | a password stored by the registration handler is accepted by the Node reader when presented as `Basic base64(user:password)` |
| `LegacyFlows.ColonPasswordIsRejected` | 1-Serverless-First/Node.js/lambda/lambda_function.js:43 | a registered password containing a colon is always answered "Incorrect password" by the Node reader |
| `LegacyFlows.PythonAcceptsOnlyWhatNodeReads` | 1-Serverless-First/Python/lambda/lambda_function.py:11-16 | when the two decoders read the header value alike, any credentials the Python reader accepts from a header are the ones the Node reader reads from it |
| `LegacyFlows.SecondColonSplitsTheReaders` | 1-Serverless-First/Python/lambda/lambda_function.py:16 | when both decoders give a text with a second colon, Node reads the first two pieces and Python rejects |
| `LegacyFlows.ThirdWordSplitsTheReaders` | 1-Serverless-First/Python/lambda/lambda_function.py:11 | with a third header word, Node ignores it and Python rejects |
| `LegacyFlows.PythonMatchIsAuthorized` | 1-Serverless-First/Python/lambda/lambda_function.py:23-32 | for a well-formed header the Python reader returns, with 200 exactly when the stored plaintext equals the presented password |
| `Text.Split` | 1-Serverless-First/Node.js/lambda/lambda_function.js:31 | `split` yields at least one piece, no piece holds the separator, and joining the pieces with it gives the string back |
| `Text.SplitUnique` | 1-Serverless-First/Python/lambda/lambda_function.py:11 | separator-free pieces that join back to a string are exactly its `split` |
| `Text.SplitCount` | 1-Serverless-First/Python/lambda/lambda_function.py:16 | `split` yields one more piece than there are separators |

## Left out

- DynamoDB: the table is an in-memory map. Table names, `USERS_TABLE` and network or service
  errors are not modelled. DynamoDB's rejection of an empty string as a key value is not
  modelled either: the map accepts any string key. This includes the `RefreshTokenIndex`
  key: `Authorization: Bearer ` with an empty token makes the logout query throw, and the
  handler answers 500, while `AuthHandler.LogoutRoute` answers 200 with nothing changed.
- A users table shared between the schemes. The three tables are separate values in the
  model, but the deployment may point them at one table. A shared table would bring
  `login`'s bcrypt compare against an encrypted `hex(iv) + hex(ciphertext)` row, the Node
  reader decrypting a bcrypt digest, and the Python reader comparing a plaintext password
  against a stored digest or ciphertext. None of these cross-scheme reads is modelled.
- `Sessions.FindByRefreshToken`: DynamoDB does not specify the order of several index
  matches, so the least username stands in for `Items[0]`. `Sessions.HolderIsFound` shows
  that the choice is immaterial while tokens are unique.
- bcrypt, jsonwebtoken, AES-256-CBC, uuid and `randomBytes` are opaque. Their parameters
  stand for them. bcrypt's random salt is not modelled: `hash` is a function of the password.
  The 15-minute expiry and signature checking are inside the opaque verifier.
- `REFRESH_TOKEN_SECRET` is read but never used by the code, so it is absent.
- `ENCRYPTION_KEY` is used, by the registration encrypt and the Node reader's decrypt. Its
  loading from hex is not modelled: the key is folded into the opaque `StoredCredential.Cipher`.
- `JSON.parse` and `JSON.stringify`: bodies arrive already parsed, with optional string
  fields. JSON values of other types (numbers, booleans) in those fields are not modelled.
  Which exception a missing field raises is not distinguished, since every one of them is
  500.
- CORS header contents and all logging are left out. So is the Node handler's `console.log`
  of `event.headers.Authorization` before its `try`, which crashes on a missing header map.
  That is a runtime artefact outside the decision logic.
- Read consistency: every read sees the latest write. In DynamoDB, `RefreshTokenIndex` is
  a global secondary index, which only answers eventually consistent queries, and `login`'s
  `get` does not ask for `ConsistentRead`. So even with strictly sequential requests, a
  refresh right after a logout or a second login can still find the old token and answer
  200, and a login right after registration can miss the new row. `LogoutEndsSession`,
  `LoginRotatesRefreshToken`, `SecondLoginRevokesFirst`, `LogoutThroughHandler` and
  `RegisteredUserCanLogIn` hold only once the index and the table reads have caught up,
  and so does `JwtFlows.RegisterLoginFetch`, whose login `get` follows the registration
  `put`. The Basic-auth store reads are eventually consistent too: `getItem` in
  register_function.ts:54 and lambda_function.js:52 and `get_item` in lambda_function.py:18
  do not set `ConsistentRead`. So `LegacyFlows.RegisteredUserIsAuthorized` and
  `LegacyFlows.ColonPasswordIsRejected`, whose Node `getItem` follows the registration
  `putItem`, hold only once the table has caught up. `LegacyRegister.Handle`'s "409 exactly
  when the name is taken" likewise assumes its read sees the latest write; a read that
  misses a user registered just before answers 201 and overwrites that user, even with no
  concurrency.
- Shared environment: the flows take one `Config` for both the `/auth` and `/data` Lambdas
  (`JwtFlows.RegisterLoginFetch`), so they assume both are deployed with the same
  `JWT_SECRET`; and one `Cipher` for the registration and Node Lambdas
  (`LegacyFlows.RegisteredUserIsAuthorized`), so they assume the same `ENCRYPTION_KEY`.
- Concurrency: the model is sequential. This leaves out the read-then-write window of the
  Basic-auth registration and last-writer-wins between concurrent logins.
- Each reader's base64 + UTF-8 decoder is an opaque function that may fail, and the two
  are separate parameters. They differ in the code: Node's `Buffer.from(_, "base64")` also
  takes the URL-safe digits `-` and `_` and never throws, while Python's `b64decode`
  discards those digits and raises on bad padding or bad UTF-8. The lemmas that relate the
  readers assume agreement on the one value they look at.
- `LegacyFlows.PythonAcceptsOnlyWhatNodeReads`: holds only for header values both decoders
  read alike. A value with URL-safe digits can be accepted by Python and read differently
  by Node.
- `Sessions.VerifyToken`: the verdict of `jwt.verify` without a usable secret depends on
  the jsonwebtoken version, and the handlers do not say which one they use. The model leaves it to the
  opaque verifier and states version 9's behaviour (`Sessions.RejectsWithoutSecret`) and
  the behaviour of every version (`Sessions.SignedTokensNeedSecret`) as hypotheses.
- Python: an `Authorization` value that is not a string, and `ClientError`s from the store,
  are not modelled.
