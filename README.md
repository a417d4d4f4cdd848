# aimo-api: bearer-token gate, login and soft-delete store

This project models the core of aimo-api, a small note-keeping web API. The model covers:

- **The gate** (`jwt_auth_required`). Every note endpoint goes through it. It reads the
  `AUTHORIZATION` header and checks it against `^Bearer <token>$`, which is the bearer scheme
  of section 2.1 of RFC 6750. It then strips the prefix and decodes the token, which is signed
  with HS256 (section 3.2 of RFC 7518). It rejects a token whose `exp` claim (section 4.1.4 of
  RFC 7519) has passed. Last, it looks the user up and puts that user on the request.
- **Token issuing.** A token carries a two-key claim set: the username and `exp`.
- **Login.** The login serializer takes a user from its context or from the store. It checks
  the password and returns `{"access_token": ...}`. An unknown user and a wrong password give
  the same error.
- **The store.** It has user and note tables whose rows carry an `available` soft-delete flag.
  The user model hashes the password only on its first save.
- **Error responses.** There are JSON error responses with default statuses, and the
  bottle error handler.
- **Endpoints.** Note listing, note creation behind the gate, and registration, which means
  "create the user, then log in with the injected user".

There is one module per source file:

| module | models |
|---|---|
| `Settings` | the defaults of the token settings |
| `Http` | JSON values and the JSON response classes |
| `Exceptions` | the JSON error classes and `handle_http_errors` |
| `BaseModels` | `BaseModel` defaults and `select_available` |
| `Bcrypt` | an abstract hash and check pair |
| `Models` | `User` and `Note`, and an in-memory `Database` class |
| `HeaderPattern` | the header regular expression, as a matcher with a reference semantics |
| `JwtAuth` | the gate, with a `Request` object whose `user` slot is written |
| `Schemas` | required-string schema loading with unknown keys excluded |
| `AuthSerializers` | the login serializer |
| `Endpoints` | the note and user resources |

Some things are abstractions:

- **The codec.** HS256 signing is a `Codec` value holding an encode and a decode function.
  The lemmas that need it to be sound take `RoundTrips(codec)` as a hypothesis: a live token
  decodes to the claims it was issued with.
- **Passwords.** A stored password is text or a symbolic digest, `Bcrypt.Secret`. The random
  salt is a parameter.
- **Time.** Time is an integer number of seconds, `now`.

The gate as written crashes on a token for an unknown or disabled user (see "## Findings").
The endpoints keep that crash visible as `Endpoints.Reply.Crash`, because that is how the
repository behaves. bottle's catch-all turns the escaped exception into its own 500 error,
which the installed error handler answers with `{"detail": "Internal Server Error"}`
(`Endpoints.Reply.Sent`). `JwtAuth.GateResultFixed` is the corrected gate.

One place where the settings and the code disagree: the claim builder stores the identity
under `USER_FIELD_CLAIM`, but `check_jwt_claims` reads the hard-coded key `username`. The
model follows the code. `JwtAuth.IssuedClaimsNameTheUser` shows that the two agree under the
default setting.

## Model

| member | source | states |
|---|---|---|
| Http.JsonResponse | utils/response.py:4-13 | the status is the given one when truthy, else the class default; the body is kept; Content-Type is application/json |
| Http.Ok | utils/response.py:4-13 | a response built without a status is 200 with the given body and the JSON content type |
| Http.Created | utils/response.py:4-13 | a response built with status 201 keeps that status and the body, with the JSON content type |
| Exceptions.NewError | utils/exceptions.py:9-18 | a truthy status is kept, a falsy or absent one becomes `default_status` of the class; Content-Type is always application/json; body, exception and traceback are kept |
| Exceptions.DefaultStatuses | utils/exceptions.py:10-38 | the default statuses are 500, 405, 404, 401, 400 and 401 for the six classes |
| Exceptions.ZeroStatusIsDefault | utils/exceptions.py:14 | status 0 is falsy and gives the same error as no status |
| Exceptions.JwtErrorOf | utils/exceptions.py:37-46 | the JWT error has status 401 and body `{"detail": "Authentication credentials were not provided."}` |
| Exceptions.JwtErrorIgnoresArguments | utils/exceptions.py:40-46 | the JWT error's response is the same whatever exception and traceback it is given |
| Exceptions.BadRequestRaised | utils/exceptions.py:33-34 | a bare bad request has status 400 and the empty body |
| Exceptions.BadRequestWith | utils/exceptions.py:33-34 | a bad request with a body has status 400, that body and the JSON content type |
| Exceptions.HandleHttpErrors | utils/exceptions.py:49-66 | fails exactly when DEBUG is on and the error carries an exception (the exception object cannot be dumped); otherwise the answer is JSON with the error's nonzero status, `detail` is the error's JSON body, its non-empty text, or else the status, `traceback` is present exactly when DEBUG is on and the traceback is truthy, and there are no other keys |
| Exceptions.HandleHttpErrorsDefault | utils/exceptions.py:58-64 | with DEBUG off (the default) the handler always answers, and the body holds `detail` and nothing else |
| Exceptions.HandlerAnswersBottleErrors | utils/exceptions.py:49-66 | one of bottle's own errors (a 404 or 405 with its text) is answered with that status and `{"detail": text}` in JSON, whatever DEBUG is |
| Exceptions.InternalErrorAnswer | utils/exceptions.py:49-66 | bottle's 500 for an uncaught exception is answered `{"detail": "Internal Server Error"}` with status 500 when DEBUG is off, and makes the handler fail when DEBUG is on |
| BaseModels.NewRow | utils/models.py:9-11 | a new row is available, with the given id and creation date |
| BaseModels.SelectAvailable | utils/models.py:20 | a row is selected exactly when it is in the table and available; the selection is no longer than the table; being a function, it leaves the table unchanged |
| BaseModels.SelectAvailableAppend | utils/models.py:20 | the selection of a concatenation is the concatenation of the selections |
| BaseModels.SelectAvailableIdempotent | utils/models.py:20 | selecting twice is selecting once |
| BaseModels.SelectAllAvailable | utils/models.py:20 | a table whose rows are all available is selected whole |
| Bcrypt.HashPw | api/models.py:27-28 | the hash is a digest at the requested cost |
| Bcrypt.CheckPw | api/models.py:42-43 | a stored value that is not a hash is an error (ValueError); otherwise the check is true exactly when the digest is of this password |
| Bcrypt.CheckOwnHash | api/models.py:27-43 | a password checks against its own hash, whatever the salt and the cost |
| Bcrypt.CheckOtherFails | api/models.py:27-43 | a different password does not check against that hash |
| Models.PasswordMatches | api/models.py:41-46 | true exactly when the stored password is the digest of the raw one; a stored value that is not a hash gives false, not an error |
| Models.ReplaceRow | api/models.py:19 | an update replaces the row with that id and no other, keeping the table's length |
| Models.GetUser | api/models.py:61-66 | a found user is in the table, available and has the requested name; None exactly when no available user has that name |
| Models.GetUserFindsAvailable | api/models.py:61-66 | with unique usernames, every available user is found by their name |
| Models.DisabledUserNotFound | api/models.py:61-66 | once a user is soft-deleted, looking up their name gives None |
| Models.FirstNamed | api/models.py:63 | a found row is in the table and has the name; none exactly when no row has it |
| Models.OwnedBy | api/models.py:91 | exactly the rows whose owner is the user |
| Models.GetUserNotes | api/models.py:91-92 | exactly the available notes whose owner id is the user's id |
| Models.Database.constructor | api/models.py:73 | the tables start empty and the store's invariant holds (ids increase, usernames unique) |
| Models.Database.InsertUser | api/models.py:11-19 | refused exactly when the username is taken; otherwise the row is appended under the next id; the invariant is kept |
| Models.Database.UpdateUser | api/models.py:11-19 | refused exactly when another row holds the username; otherwise the row with that id is replaced; the invariant is kept |
| Models.Database.InsertNote | api/models.py:99 | the note is appended as a new available row under the next id; users untouched |
| Models.User.constructor | utils/models.py:10-11 | a new instance has no primary key and is available |
| Models.User.SetPassword | api/models.py:21-30 | the password becomes the hash of the raw password at 12 rounds, and nothing else changes; `check_password` of that raw password is then true |
| Models.User.CheckPassword | api/models.py:32-46 | true exactly when the stored password is the digest of the raw one |
| Models.User.Save | api/models.py:14-19 | the password is hashed exactly when there is no primary key yet; a new user is inserted (refused on a taken name), a saved one updated; other fields and the note table are unchanged |
| Models.CreateUser | api/models.py:14-30 | the stored password is the hash of the given one; created exactly when the name is free, appended under the next id; otherwise nothing is stored |
| Models.CreateNote | api/models.py:76-79 | the note is appended, available, with the given name, text and owner |
| HeaderPattern.Literal | utils/jwt_auth.py:67 | the literal prefix matches character for character |
| HeaderPattern.MatchIffDenotes | utils/jwt_auth.py:65-69 | the backtracking matcher accepts exactly the strings that split into pieces matching the pattern's elements |
| HeaderPattern.Pieces | utils/jwt_auth.py:65-69 | a string the matcher accepts splits into pieces, each matching its element of the pattern |
| HeaderPattern.HeaderMatchesIffDenotes | utils/jwt_auth.py:64-69 | `MatchToEnd` and `HeaderMatches`: the header test accepts exactly a header the pattern denotes, or such a header followed by one final newline |
| HeaderPattern.MatchComplete | utils/jwt_auth.py:65-69 | a split into matching pieces is accepted by the matcher |
| HeaderPattern.PlusComplete | utils/jwt_auth.py:65-66 | a run of class characters followed by a match of the rest is accepted by `[...]+` |
| HeaderPattern.MatchLength | utils/jwt_auth.py:65-66 | an accepted string is at least as long as the pattern's minimum |
| HeaderPattern.LiteralPrefix | utils/jwt_auth.py:67 | a string accepted by a literal followed by a pattern starts with the literal, and the rest is accepted by the pattern |
| HeaderPattern.LiteralComplete | utils/jwt_auth.py:67 | the literal followed by an accepted string is accepted |
| HeaderPattern.TokenShape | utils/jwt_auth.py:65-66 | an accepted token has at least 8 characters and starts with a letter or digit |
| HeaderPattern.AcceptedHeaderShape | utils/jwt_auth.py:64-69 | an accepted header starts with "Bearer" and one space, is at least 15 characters long, and its token starts with a letter or digit |
| HeaderPattern.TokenWithoutDots | utils/jwt_auth.py:65-66 | the token pattern accepts "abcdefgh": each `.` takes a letter and `.?` takes nothing |
| HeaderPattern.CompactToken | utils/jwt_auth.py:65-66 | the token pattern accepts "aaa.bbb.ccc" |
| HeaderPattern.AcceptsTokenWithoutDots | utils/jwt_auth.py:65-66 | the unescaped `.` lets a token with no dot through ("Bearer abcdefgh") |
| HeaderPattern.AcceptsCompactToken | utils/jwt_auth.py:65-66 | a three-segment token "aaa.bbb.ccc" is accepted |
| HeaderPattern.AcceptsTrailingNewline | utils/jwt_auth.py:67-69 | `$` also accepts a header that ends in a newline |
| HeaderPattern.RejectsShortToken | utils/jwt_auth.py:65-70 | "Bearer abc.def" is refused |
| JwtAuth.GetHttpAuthHeader | utils/jwt_auth.py:38-52 | a missing or empty header is the JWT error; otherwise the header's value |
| JwtAuth.CheckHttpAuthHeader | utils/jwt_auth.py:55-70 | passes exactly when the header matches the pattern; a passing header has the "Bearer " prefix and a token of at least 8 characters starting with a letter or digit; a failing one raises the JWT error |
| JwtAuth.GetJwtokenFromHttpAuth | utils/jwt_auth.py:82-84 | the token is what follows the first `len("Bearer")+1` characters, and is empty for a shorter header |
| JwtAuth.ExtractedToken | utils/jwt_auth.py:82-84 | for an accepted header, `"Bearer" + " " + token` is the header again |
| JwtAuth.DecodeJwtoken | utils/jwt_auth.py:99-104 | a decode or invalid-token failure becomes the JWT error; otherwise the decoded claims |
| JwtAuth.HeaderClaims | utils/jwt_auth.py:29-32 | every failure of the header, shape or decode step is the JWT error |
| JwtAuth.GateResult | utils/jwt_auth.py:29-33 | a refusal is always the JWT error; an authenticated user is an available row of the table, and the request carried an Authorization header that matches the pattern |
| JwtAuth.ExpOf | utils/jwt_auth.py:159 | the expiry is present exactly when the `exp` claim is an integer, and is that integer |
| JwtAuth.LookupSubject | utils/jwt_auth.py:164 | a user found is an available row of the table whose name is the `username` claim; none is found exactly when that claim is missing or names no available user |
| JwtAuth.CreateUserJwtClaim | utils/jwt_auth.py:134-143 | fails with the 400 bad request exactly when the username is empty; otherwise exactly the keys `username` and `exp`, with the username and `now + 86400` |
| JwtAuth.GenerateJwtoken | utils/jwt_auth.py:116-119 | the token is the encoding of the built claims; the same failure as the builder |
| JwtAuth.IssuedClaimsNameTheUser | utils/jwt_auth.py:139-164 | the hard-coded `username` key reads back the identity the builder stored under `USER_FIELD_CLAIM`, and `exp` reads back the expiry |
| JwtAuth.IssuedTokenDecodes | utils/jwt_auth.py:101-118 | with a sound codec, an issued token decodes to its claims until it expires |
| JwtAuth.CheckJwtClaims | utils/jwt_auth.py:158-170 | rejected exactly when `exp < now`; crashes when `exp` is not an integer or when the lookup finds no user; otherwise authenticated with the looked-up user, who is available |
| JwtAuth.ExpiredTokenRejected | utils/jwt_auth.py:162-163 | an expired token is refused with the JWT error, as written and corrected |
| JwtAuth.ExpiryBoundary | utils/jwt_auth.py:162 | a token with `exp == now` is not rejected |
| JwtAuth.CheckJwtClaimsFixed | utils/jwt_auth.py:164-166 | never crashes on a missing user; rejected exactly when expired or the user is not found |
| JwtAuth.FixAgreesExceptOnCrash | utils/jwt_auth.py:164-166 | the corrected check equals the original except on the crash, which it turns into the JWT error |
| JwtAuth.GateResultFixed | utils/jwt_auth.py:164-166 | the corrected gate never crashes on a missing user and agrees with the gate as written everywhere else |
| JwtAuth.GateAuthenticatedIff | utils/jwt_auth.py:28-35 | a request passes exactly when the header is present, non-empty, accepted, decodes, is not expired and names an available user |
| JwtAuth.GateRejectionIsJwtError | utils/jwt_auth.py:28-35 | every refusal by the gate is the 401 JWT error |
| JwtAuth.MissingHeaderRejected | utils/jwt_auth.py:49-51 | a missing or empty header is refused with the JWT error |
| JwtAuth.AuthenticatedHeaderShape | utils/jwt_auth.py:64-84 | an authenticated request sent "Bearer", a space and a token of at least 8 characters starting with a letter or digit |
| JwtAuth.IssuedTokenAuthenticates | utils/jwt_auth.py:28-35 | a token issued to an available user and sent before it expires authenticates that user |
| JwtAuth.DisabledUserCrashesGate | utils/jwt_auth.py:164-165 | as written, a live token of a user disabled since it was issued crashes the gate |
| JwtAuth.DisabledUserRejectedWhenFixed | utils/jwt_auth.py:164-166 | with the corrected check, that user's claims are refused with the JWT error |
| JwtAuth.DisabledUserRejectedByFixedGate | utils/jwt_auth.py:164-166 | with the corrected gate, that user's request is refused with the JWT error |
| JwtAuth.Request.constructor | utils/request.py:14-17 | a new request has no user, so reading it gives None |
| JwtAuth.InjectUserOnRequest | utils/jwt_auth.py:173-179 | the request's user becomes the given user |
| JwtAuth.RunGate | utils/jwt_auth.py:28-35 | runs the checks in order and yields the gate's outcome; the request's user becomes the authenticated user exactly when authenticated with injection on, and is unchanged otherwise |
| Schemas.FieldErrors | auth/serializers.py:9-10 | one message list for each declared field that is missing, null or not a string |
| Schemas.LoadStrings | api/serializers.py:15-20 | succeeds exactly when the input is an object whose declared fields are all strings; the result has exactly those keys and values; an input that is not an object gives the `_schema` error; otherwise the per-field messages |
| Schemas.ReloadIsIdentity | api/endpoints.py:90-97 | loading the result of a load gives it back |
| Schemas.UnknownKeysIgnored | auth/serializers.py:41-42 | keys that are not declared make no difference to a load |
| Schemas.MissingFieldReported | auth/serializers.py:9-10 | a missing required field fails the load with "Missing data for required field." under its name |
| AuthSerializers.ResolveUser | auth/serializers.py:29-31 | the context user when there is one; otherwise the store's available user of that name |
| AuthSerializers.Authenticate | auth/serializers.py:12-39 | the credentials error exactly when no user resolves or the password does not match; success exactly when both hold and the username is non-empty, with `{"access_token": <encoded claims>}`; the only other failure is the raised 400 |
| AuthSerializers.Load | auth/serializers.py:8-42 | a failed field load gives its messages; otherwise the `authenticate` rule on the loaded username and password |
| AuthSerializers.LoginFailuresIndistinguishable | auth/serializers.py:34-36 | an unknown user and a wrong password give the identical error |
| AuthSerializers.ContextUserSkipsLookup | auth/serializers.py:29-31 | with a context user the store is not consulted |
| AuthSerializers.ContextUserPasswordChecked | auth/serializers.py:34 | the context user's password is still checked |
| AuthSerializers.HashedUserLogsIn | auth/serializers.py:34-39 | a freshly hashed user logs in with the password that was hashed |
| AuthSerializers.LoginNeedsBothFields | auth/serializers.py:9-10 | a body without username or password is a validation error |
| Endpoints.NoteJson | api/serializers.py:5-9 | a dumped note is an object with exactly `id`, `name`, `text` and `creation_date`, holding the note's values |
| Endpoints.NoteDumpLoads | api/serializers.py:5-12 | loading a dumped note gives back its name and text, the dump-only fields being excluded |
| Endpoints.NotesJson | api/endpoints.py:33 | one dumped object per note, in order |
| Endpoints.ListNotes | api/endpoints.py:36-52 | with a user, exactly that user's available notes; without one, exactly the available notes |
| Endpoints.ListNotesIsQuery | api/endpoints.py:49-52 | the empty-query branch gives the query's own (empty) result |
| Endpoints.Refusal | api/endpoints.py:23 | a refused request gets the 401 JWT error response; a crash stays a crash |
| Endpoints.NotesReply | api/endpoints.py:22-34 | authenticated: 200 with the dumped notes of the authenticated user; refused: 401 with the JWT error body |
| Endpoints.Reply.Sent | api/app.py:23-29 | a response is sent as it is; a crash reaches the client as bottle's 500 answered by the error handler, `{"detail": "Internal Server Error"}` |
| Endpoints.DisabledUserGets500 | utils/jwt_auth.py:164-165 | as written, GET /notes with a live token of a user disabled since it was issued answers 500 `{"detail": "Internal Server Error"}` |
| Endpoints.NotesOkIffAuthenticated | api/endpoints.py:22-34 | GET /notes answers 200 exactly when the gate lets the request through |
| Endpoints.NoHeaderNoNotes | api/endpoints.py:22-56 | without an Authorization header both note endpoints answer 401 |
| Endpoints.ListedNotesAreOwnAndAvailable | api/endpoints.py:31-46 | a listed note is the authenticated user's own and is available |
| Endpoints.GetNotesResource | api/endpoints.py:22-34 | the answer is the gate's reply with the notes of the user put on the request |
| Endpoints.CreateNotesResource | api/endpoints.py:54-72 | no note is created unless the gate passes; a load failure answers 400 with the messages and creates nothing; otherwise one available note owned by the request's user is appended and dumped with 200 |
| Endpoints.RegisteredRow | api/models.py:14-30 | a registered row is available, has the name and accepts the password |
| Endpoints.CreateUsersResource | api/endpoints.py:80-105 | a load failure answers 400 with the messages; a taken name answers 400 `{"detail": ["User already exists."]}`; otherwise the user row with the hashed password is appended, is what `get_user` finds under the name, and the answer is 201 with the login result (400 with an empty body when the name is empty); notes untouched |
| Endpoints.RegisteredUserCanLogIn | api/endpoints.py:91-97 | after registration, a login from the store with the same credentials yields the access token |

## Left out

- Cryptography is not modelled: HS256 signing and verification (PyJWT `encode` and `decode`) is the abstract `Codec`, and its soundness is the hypothesis `RoundTrips`. The secret key and PyJWT's own `exp` validation are part of the codec's decode.
- bcrypt is the symbolic `Bcrypt.Secret`. The encoding to and from UTF-8 bytes is left out.
- Bcrypt.CheckOtherFails: bcrypt uses only the first 72 bytes of a password, so a different password that shares those 72 bytes is accepted by `checkpw`; the model treats every different password as refused.
- `gensalt` randomness is the parameter `salt`.
- peewee and SQLite are replaced by the in-memory `Models.Database`. Queries return rows in table order. Table creation, the foreign-key constraint and the column lengths are left out.
- Models.User.Save: the `force_insert` and `only` arguments are dropped.
- Schemas.FieldError: a `JText` value (a document already dumped into text) is refused as "Not a valid string.", although its text is a string. A parsed request body never holds one: a JSON string is always `JStr`.
- JSON serialisation (`json.dumps`) is not modelled. A body holds the JSON value whose text would be sent, and a body that was already dumped inside another object is `JText`.
- Endpoints.NoteJson: `creation_date` is dumped as the integer timestamp rather than an ISO 8601 string.
- bottle's routing, app wiring, server and client are left out. Header names are taken as given, without bottle's case folding. The request's `user` slot is a field of `JwtAuth.Request`. A raised JSON error response is sent as it is, because it is an `HTTPResponse` and not an `HTTPError`.
- Exceptions.HandleHttpErrors: bottle's `error.status` is its status line, which is modelled as the integer code. Bottle answers 200 for status 0, so the status is stated only for nonzero codes. With DEBUG on an error that carries an exception makes `json_dumps` raise, which the model states as the handler's failure `ExceptionNotSerializable`; the critical-error page bottle then shows is not modelled. The handler receives bottle's own errors (404, 405 and the 500 for an uncaught exception); the JSON errors this program raises are `HTTPResponse`s and are sent without it.
- Time is an integer number of seconds. The sub-second part of `utcnow` is not modelled, so `exp == now` passes the check.
- JwtAuth.CheckJwtClaims: an `exp` claim that is not an integer is a crash (`ExpNotAnInteger`), although `int()` would accept a numeric string. A non-string username claim counts as "no user".
- JwtAuth.IssuedTokenAuthenticates: the codec's output is not tied to the header regular expression. The header acceptance of the issued token is a hypothesis, because a real token's base64 text may hold `-`, `_` or `=` where the pattern wants letters and digits.
- The `auth/endpoints.py` handler is left out, because it only maps a schema load to 200 or 400.
- Settings loading (decouple, the environment) is left out. The defaults are fixed constants in `Settings`, with DEBUG off.
- HeaderPattern: only the one pattern is modelled, not general regular-expression semantics.
- The marshmallow machinery is reduced to required string fields with unknown keys excluded. Its `field_name='detail'` error for login is written out as `{"detail": [message]}`.

## Findings

| source | as written | input that shows it | evidently intended | confidence | as-written member | corrected member |
|---|---|---|---|---|---|---|
| utils/jwt_auth.py:164-165 | `get_user` returns None for an unknown or soft-deleted user, and `user.available` is then read on None, which raises AttributeError; bottle answers it with its 500, which the error handler turns into `{"detail": "Internal Server Error"}` | a live token of a user whose `available` flag was set to false after the token was issued | the request is refused with the 401 JWT error, like the other failed checks | not executed | JwtAuth.CheckJwtClaims (shown by JwtAuth.DisabledUserCrashesGate and Endpoints.DisabledUserGets500) | JwtAuth.CheckJwtClaimsFixed (proved by JwtAuth.DisabledUserRejectedWhenFixed, JwtAuth.GateResultFixed and JwtAuth.DisabledUserRejectedByFixedGate) |
