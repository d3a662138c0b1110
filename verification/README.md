# Dance studio booking backend and student client: authentication and core services

This project is a Dafny model of the core of a small studio-management system. The system has a NestJS server over a relational store (courses, class sessions, students, bookings, admins) and a browser client for students. The model covers:

- **Authentication service.**
  - Password login, including the one-time migration of legacy plain-text passwords to bcrypt hashes.
  - Paired access and refresh JWTs. The refresh token rotates: its bcrypt hash is stored on the admin row and replaced on every refresh (see "## Findings" for why rotation does not retire old tokens).
  - Logout, which clears the stored hash and never fails.
- **Request guards.**
  - The CSRF double-submit guard. It excludes the login and refresh routes and all safe methods.
  - The role guard. A role list on the handler overrides one on the class.
  - The JWT strategy. It accepts only unexpired access tokens.
- **Server edges.**
  - The global exception filter, which produces the `{code, message, data}` envelope.
  - The success envelope.
  - Validation-error flattening.
  - The CORS origin list and the CORS origin check.
- **Table services.**
  - Booking creation, with existence checks, a seat limit and a unique (student, session) pair, and an idempotent cancel.
  - Session creation, listing by start-time window, and a paged roster.
  - Student create, find, list, update and remove, with the unique phone index.
- **Student client.**
  - Token storage.
  - A response classifier that turns a 401 business code or a 401 HTTP status into refresh-then-replay.
  - A single-flight refresh slot. All requests that meet a 401 while a refresh is pending share that one refresh. Each of them is replayed once with the new token. A failed refresh logs the user out.
  - The thin wrapper client that unwraps envelopes.

Some parts of the system are taken as parameters instead of being modelled:

- **bcrypt, SHA-256 and JWT signing** are a record of functions, `Crypto.Kit`. The laws the model relies on are stated in `Crypto.Lawful`:
  - bcrypt reads only the first 72 characters of its input, so a string matches a hash exactly when those characters agree with the hashed string's;
  - a bcrypt hash is never empty;
  - decoding a signed token gives back its claims;
  - two tokens of one admin (same id, username and role) share their first 72 characters, because the fixed HS256 header and the start of the payload fill them;
  - SHA-256 digests are never empty and never collide.
- **Random values** (bcrypt salts and `randomUUID` token ids) are draws from a counter in the auth state.
- **The clock** is an argument.
- **The store** is a value `Store.Db`. Each table is a sequence of rows in auto-increment id order. `Store.Valid` states what the schema guarantees: primary keys, the unique indexes, and capacities of at least 1.
- **The client's promises** are explicit events, played by `ClientSession.Run`:
  - a request sent under `id`, which records the config it went out with;
  - a reply to request `id`, classified by that recorded config;
  - the settling of the shared refresh call.

Files:

- `wrappers.dfy`: `Option` and `Result`.
- `text.dfy`: the JavaScript string operations.
- `schema.dfy`: the row types.
- `crypto.dfy`: the bcrypt/SHA-256/JWT kit and its laws.
- `auth_service.dfy` and `auth_traces.dfy`: the authentication service, and properties of it over whole call histories.
- `csrf_guard.dfy`, `roles_guard.dfy`, `jwt_strategy.dfy`: the guards.
- `http_errors.dfy`, `envelope.dfy`, `exception_filter.dfy`, `bootstrap.dfy`: the server edges.
- `tables.dfy`: query building blocks.
- `store.dfy`: the store and its integrity.
- `booking_service.dfy`, `session_service.dfy`, `student_service.dfy`: the table services.
- `client_session.dfy` and `client_traces.dfy`: the student client's session manager, and its event traces.
- `thin_client.dfy`: the thin wrapper client.

## Model

| member | source | states |
|---|---|---|
| AuthService.FindByUsername | apps/server/src/modules/auth/auth.service.ts:48-50 | Under the unique username index, the lookup finds the admin with that username exactly when one exists. |
| AuthService.VerifyPassword | apps/server/src/modules/auth/auth.service.ts:99-119 | A password is accepted iff bcrypt matches it or it equals the stored plain text. Only the plain-text branch writes, replacing that admin's password by a fresh hash of the input. No other row changes. |
| AuthService.IssueTokenPair | apps/server/src/modules/auth/auth.service.ts:121-159 | The access and refresh tokens decode to the admin's id, name and role, with types "access"/"refresh" and lifetimes of 15 minutes and 7 days. The two tokens differ. The stored value is never empty, and a token opens it iff the check cannot tell that token from the returned refresh token. Only that admin's stored value changes. |
| AuthService.Seal | apps/server/src/modules/auth/auth.service.ts:149-153 | A stored refresh value is never empty. A token opens it iff the check cannot tell the token from the sealed one: under whole-token bcrypt, the first 72 characters agree; under a SHA-256 digest, the tokens are equal. |
| AuthService.ToAuthTokenResponse | apps/server/src/modules/auth/auth.service.ts:177-183 | The legacy `token` field always equals `accessToken`. |
| AuthService.VerifyRefreshToken | apps/server/src/modules/auth/auth.service.ts:161-175 | A token is accepted iff it verifies, is unexpired and is of type "refresh". Every refusal carries the same "invalid refresh token" message. |
| AuthService.Login | apps/server/src/modules/auth/auth.service.ts:47-63 | Login fails iff no admin with that username accepts the password. An unknown user and a wrong password fail identically. On success the password is rehashed only on the legacy branch, and the stored refresh value is opened exactly by the tokens the check cannot tell from the returned one. The access token names that admin. No other admin changes. |
| AuthService.Refresh | apps/server/src/modules/auth/auth.service.ts:65-89 | Refresh succeeds iff the token verifies as a refresh token, its admin exists, and the admin's stored value is set, non-empty and opened by it. Every failure is "invalid refresh token". Success rotates the stored hash to the new refresh token and changes nothing else. |
| AuthService.Logout | apps/server/src/modules/auth/auth.service.ts:91-97 | Logout never fails. It clears the named admin's refresh hash if the row exists and leaves every other row and the key set alone. |
| AuthTraces.Step | apps/server/src/modules/auth/auth.service.ts:47-97 | Any call keeps the set of admins, their usernames and the unique-username invariant. |
| AuthTraces.Run | apps/server/src/modules/auth/auth.service.ts:47-97 | Any sequence of calls keeps the set of admins, their usernames and the unique-username invariant. |
| AuthTraces.SignedOutUntilLogin | apps/server/src/modules/auth/auth.service.ts:91-97 | A signed-out admin stays signed out through any calls that do not successfully log in under its own username. |
| AuthTraces.RefreshAfterLogoutFails | apps/server/src/modules/auth/auth.service.ts:65-97 | After logout, no refresh token naming that admin is accepted, whatever calls follow, until a login under that admin's username succeeds. |
| AuthTraces.StepKeepsHashesFromThePast | apps/server/src/modules/auth/auth.service.ts:121-159 | Under the SHA-256 digest check, every token matching a stored refresh digest carries a token id drawn before the current counter. Every call keeps this true. |
| AuthTraces.StepKeepsRetired | apps/server/src/modules/auth/auth.service.ts:65-89 | Under the SHA-256 digest check, once a token no longer matches its admin's stored digest and was drawn in the past, no later call makes it match again. |
| AuthTraces.RunKeepsRetired | apps/server/src/modules/auth/auth.service.ts:65-89 | Under the SHA-256 digest check, a retired token stays retired over any sequence of calls. |
| AuthTraces.RunKeepsHashesFromThePast | apps/server/src/modules/auth/auth.service.ts:121-159 | Under the SHA-256 digest check, the past-draw invariant holds over any sequence of calls. |
| AuthTraces.ReuseAfterRotationFails | apps/server/src/modules/auth/auth.service.ts:76-87 | Under the SHA-256 digest check, a refresh token that has been exchanged once is refused ever after, at any time and whatever calls come between. |
| AuthTraces.RotatedOutTokenStillAccepted | apps/server/src/modules/auth/auth.service.ts:76-87 | As written, with whole-token bcrypt: exchange a token, then exchange the token it returned. That rotated-out token is accepted yet again, at any time before it expires. |
| AuthTraces.ReuseAfterRotationInAnyHistory | apps/server/src/modules/auth/auth.service.ts:65-89 | Under the SHA-256 digest check, from the seeded table (no hashes), in any history, a refresh token that is exchanged successfully can never be exchanged again. |
| AuthTraces.RotationChain | apps/server/src/modules/auth/auth.service.ts:87-88 | The refresh token a refresh returns is itself accepted by the next refresh before it expires. |
| AuthTraces.AccessTokenNotARefreshToken | apps/server/src/modules/auth/auth.service.ts:170-172 | An access token obtained from login is never accepted by refresh. |
| AuthTraces.LegacyMigrationOnce | apps/server/src/modules/auth/auth.service.ts:108-116 | A legacy plain-text password logs in once and is migrated. The same password then logs in through bcrypt, and the stored hash is not rewritten again. |
| Crypto.Verify | apps/server/src/modules/auth/strategies/jwt.strategy.ts:30-34 | A token verifies iff it decodes and the clock is strictly before its expiry; it then yields exactly its claims. |
| Crypto.BcryptInput | apps/server/src/modules/auth/auth.service.ts:149 | bcrypt reads a prefix of its input of at most 72 characters: all of a short string, exactly 72 characters of a long one. |
| Crypto.SameSubjectTokensCollide | apps/server/src/modules/auth/auth.service.ts:124-149 | A bcrypt hash of one token of an admin is matched by any other token with the same id, username and role. |
| Crypto.SignInjective | apps/server/src/modules/auth/auth.service.ts:130-147 | Different claims sign to different tokens, so the access and refresh tokens of a pair never coincide. |
| JwtStrategy.NewJwtStrategy | apps/server/src/modules/auth/strategies/jwt.strategy.ts:24-35 | Construction fails with "JWT_SECRET is not set" iff the secret is unset or empty. Otherwise expiry is enforced. |
| JwtStrategy.Validate | apps/server/src/modules/auth/strategies/jwt.strategy.ts:37-48 | Any payload not of type "access" is refused with 401 "invalid access token". Otherwise the user carries the payload's id, name and role. |
| JwtStrategy.Authenticate | apps/server/src/modules/auth/strategies/jwt.strategy.ts:30-47 | A request passes iff it carries a bearer token that decodes, is unexpired (or expiry is ignored) and is an access token. It then yields the payload's id, username and role. Every refusal is a 401. |
| JwtStrategy.RefreshTokenIsNotAnAccessToken | apps/server/src/modules/auth/strategies/jwt.strategy.ts:39-41 | A refresh token never authenticates a request. |
| CsrfGuard.NormalizedEndsWith | apps/server/src/modules/auth/guards/csrf.guard.ts:29-32 | After one trailing "/" is dropped, a path ends with a route iff the raw path ends with the route, with or without a trailing "/". |
| CsrfGuard.IsCsrfExcludedPath | apps/server/src/modules/auth/guards/csrf.guard.ts:28-38 | A path is excluded iff it ends in "/auth/login" or "/auth/refresh", each with an optional trailing "/". |
| CsrfGuard.ExtractRequestPath | apps/server/src/modules/auth/guards/csrf.guard.ts:40-44 | The path is the longest prefix of `originalUrl`, else `url`, else `path`, that stops before the first "?". |
| CsrfGuard.ReadCsrfHeader | apps/server/src/modules/auth/guards/csrf.guard.ts:46-54 | A missing header, or a repeated header with no values, reads as "". A single value reads as itself trimmed, and a repeated header as its first value trimmed. |
| CsrfGuard.ReadCsrfCookie | apps/server/src/modules/auth/guards/csrf.guard.ts:71-73 | The cookie token is the "csrfToken" cookie trimmed, or "" when there is no such cookie. |
| CsrfGuard.CanActivate | apps/server/src/modules/auth/guards/csrf.guard.ts:58-85 | The guard never returns false. It refuses with 403 "invalid csrf token" iff the method is unsafe, the path is not excluded, and the trimmed cookie and header tokens are missing, empty or unequal. |
| CsrfGuard.GetAlwaysPasses | apps/server/src/modules/auth/guards/csrf.guard.ts:60-64 | A request with method "GET" or "get", or with no method, passes whatever it holds. |
| CsrfGuard.MatchingPairPasses | apps/server/src/modules/auth/guards/csrf.guard.ts:66-84 | An unsafe request passes iff its route is excluded, or its raw cookie and the first value of its raw header trim to the same non-empty token. |
| CsrfGuard.PaddedHeaderPasses | apps/server/src/modules/auth/guards/csrf.guard.ts:46-54 | An unsafe request whose header value is its cookie's non-blank token after leading white space passes. |
| CsrfGuard.TrimLeading | apps/server/src/modules/auth/guards/csrf.guard.ts:51-53 | Leading white space never changes a trimmed token. |
| CsrfGuard.QueryDoesNotExcludeOrInclude | apps/server/src/modules/auth/guards/csrf.guard.ts:40-44 | Appending a query string changes neither the extracted path nor the exclusion decision. |
| RolesGuard.DeclaredRoles | apps/server/src/modules/auth/guards/roles.guard.ts:28-31 | Roles declared on the handler override those on the class. |
| RolesGuard.CanActivate | apps/server/src/modules/auth/guards/roles.guard.ts:27-46 | The guard passes iff no roles are declared (or the list is empty), or the user has a role that is in the list. Otherwise it refuses with 403 "forbidden" and never returns false. |
| RolesGuard.HandlerOverridesClass | apps/server/src/modules/auth/guards/roles.guard.ts:28-31 | With handler roles declared, the class's roles play no part. |
| RolesGuard.NormalAdminOnSuperRoute | apps/server/src/modules/auth/guards/roles.guard.ts:34-43 | A NORMAL admin is refused on a SUPER route and let through on an undeclared one. |
| Envelope.Success | apps/server/src/common/interceptors/response.interceptor.ts:29-36 | Every handler result is sent with code 0, message "ok" and the result as data. |
| ExceptionFilter.ParseHttpExceptionBody | apps/server/src/filters/http-exception.filter.ts:63-82 | A string body is the message, with null data. For an object body, a list message is joined with ", "; a missing message falls back to the exception's own; missing data is null. |
| ExceptionFilter.Catch | apps/server/src/filters/http-exception.filter.ts:32-58 | The envelope code always equals the HTTP status. An HTTP exception keeps its status, with the message and data parsed from its response body. Anything else becomes 500 "internal error" with null data. |
| ExceptionFilter.ServiceErrorEnvelope | apps/server/src/filters/http-exception.filter.ts:37-49 | A service's `new XxxException(message)` reaches the client as `{code: status, message, data: null}`. |
| ExceptionFilter.ListMessages | apps/server/src/filters/http-exception.filter.ts:74-76 | A one-line list message is that line. An empty list gives "", not the fallback. |
| Bootstrap.CollectValidationIssues | apps/server/src/main.ts:31-48 | Every issue carries at least one error. A node with failed constraints contributes its issue first, under its dotted field path. |
| Bootstrap.OneIssuePerConstrainedNode | apps/server/src/main.ts:31-48 | The flattening yields exactly one issue per node of the error tree that has a failed constraint: none lost, none invented. |
| Bootstrap.SiblingOrderPreserved | apps/server/src/main.ts:35-47 | Flattening a concatenation of sibling lists concatenates their flattenings, so sibling order is kept. |
| Bootstrap.FieldsExtendParentPath | apps/server/src/main.ts:36-44 | Below a non-empty parent path, every issue's field starts with the parent path followed by ".". |
| Bootstrap.ValidationFailureEnvelope | apps/server/src/main.ts:72-77 | A validation failure reaches the client as 400 `{code: 400, message: "validation error", data: issues}`. |
| Bootstrap.ParseCorsOrigins | apps/server/src/main.ts:53-58 | Every listed origin is non-empty, already trimmed and free of ",". |
| Bootstrap.CorsOriginMembership | apps/server/src/main.ts:53-58 | An origin is listed iff it is non-empty and some comma-separated piece of the setting trims to it. |
| Bootstrap.UnsetOriginListIsEmpty | apps/server/src/main.ts:54 | An unset setting lists no origin. |
| Bootstrap.AllowOrigin | apps/server/src/main.ts:95-108 | A request with no (or an empty) origin, or with a listed origin, is allowed. Any other origin is refused with "CORS origin not allowed: " followed by the origin. |
| Tables.Find | apps/server/src/modules/booking/booking.service.ts:69-71 | A lookup by id finds a row with that id, or reports that no row has it. |
| Tables.FindAtPosition | apps/server/src/modules/booking/booking.service.ts:69-85 | With unique ids, lookup by id and update by id address the same row. |
| Tables.SameKeySameRow | apps/server/src/modules/student/student.service.ts:46-48 | Under ascending ids, a row is determined by its id. |
| Tables.Filter | apps/server/src/modules/student/student.service.ts:64-66 | A `where` clause keeps exactly the rows that satisfy it and nothing else. |
| Tables.FilterKeepsAscending | apps/server/src/modules/student/student.service.ts:70-75 | Filtering keeps table order. |
| Tables.FilterAppend | apps/server/src/modules/booking/booking.service.ts:35-40 | Filtering distributes over appending rows. |
| Tables.Reverse | apps/server/src/modules/student/student.service.ts:72 | Descending id order is the table read backwards. |
| Tables.ReverseDescends | apps/server/src/modules/student/student.service.ts:72 | Reading an id-ordered table backwards gives strictly descending ids. |
| Tables.Offset | apps/server/src/modules/student/student.service.ts:61 | The offset of page `p` is non-negative and ends exactly where page `p` ends, at `p * pageSize`. |
| Tables.Window | apps/server/src/modules/student/student.service.ts:73-74 | `skip`/`take` yield at most `take` rows: the rows from position `skip` on, in order. |
| Tables.WindowsTile | apps/server/src/modules/session/session.service.ts:89-102 | Adjacent pages together form the window of their combined size, so pages neither overlap nor skip rows. |
| Tables.RowOnItsPage | apps/server/src/modules/session/session.service.ts:89-102 | Every row appears on the page its position determines, at its position's remainder. |
| Tables.Paginate | apps/server/src/modules/student/student.service.ts:69-79 | A page holds exactly the rows from the page offset on, as many as fit: a full page, the remainder, or none past the end. The total counts all matching rows. The requested page and size are echoed. |
| Tables.InsertBy | apps/server/src/modules/session/session.service.ts:71 | Inserting into an ordered list keeps it ordered and adds exactly that row. |
| Tables.SortBy | apps/server/src/modules/session/session.service.ts:71 | `orderBy asc` gives a permutation of its input, ordered by the key. |
| Tables.SortKeepsRows | apps/server/src/modules/session/session.service.ts:69-72 | Sorting keeps exactly the rows it was given. |
| Store.BookedRows | apps/server/src/modules/booking/booking.service.ts:35-40 | A session's seat holders are exactly its bookings with status BOOKED. |
| Store.BookedCountAppend | apps/server/src/modules/booking/booking.service.ts:46-52 | Appending a booking adds one seat to its session if it is BOOKED, and changes no other session's count. |
| Store.BookedCountCancel | apps/server/src/modules/booking/booking.service.ts:82-85 | Cancelling a booked row frees exactly one seat of its session and none of another. |
| BookingService.Create | apps/server/src/modules/booking/booking.service.ts:16-65 | Error precedence is: "session not found", then "student not found", then "session is full" (counting only BOOKED rows), then "booking already exists" (against any row, cancelled ones included). Success iff none applies. It appends one BOOKED row with a fresh id and writes nothing else. |
| BookingService.CreateKeepsValid | apps/server/src/modules/booking/booking.service.ts:46-52 | A successful booking keeps primary keys ascending and below the next ids, the unique pair index, and every booking's session and student ids below the next ids. It does not state that the referenced rows exist. |
| BookingService.CreateKeepsWithinCapacity | apps/server/src/modules/booking/booking.service.ts:34-43 | A successful booking never takes a session beyond its capacity. |
| BookingService.CreateTakesOneSeat | apps/server/src/modules/booking/booking.service.ts:34-52 | Each success takes exactly one seat of its own session and none of another. |
| BookingService.Cancel | apps/server/src/modules/booking/booking.service.ts:67-86 | A missing id fails "booking not found". Otherwise the row is kept and returned as CANCELLED, and only that row's status changes. |
| BookingService.CancelMarksRow | apps/server/src/modules/booking/booking.service.ts:76-85 | Both the already-cancelled and the update path leave the table with that one row marked CANCELLED. |
| BookingService.CancelIdempotent | apps/server/src/modules/booking/booking.service.ts:76-79 | Cancelling a cancelled booking returns it and changes nothing. |
| BookingService.CancelKeepsValid | apps/server/src/modules/booking/booking.service.ts:81-85 | Cancelling keeps every integrity rule of the store. |
| BookingService.CancelKeepsWithinCapacity | apps/server/src/modules/booking/booking.service.ts:81-85 | Cancelling keeps every session within its capacity. |
| BookingService.CreateThenCancel | apps/server/src/modules/booking/booking.service.ts:16-86 | After booking then cancelling, the seat count is back to what it was, the pair is still taken, and the store is still valid. |
| BookingService.RebookAfterCancelConflicts | apps/server/src/modules/booking/booking.service.ts:55-62 | A student who booked and then cancelled a session cannot book it again: the unique index still holds the cancelled row. |
| SessionService.Create | apps/server/src/modules/session/session.service.ts:25-50 | An absent course fails "course not found". A non-positive duration fails 400 "endTime must be greater than startTime". Otherwise one session is appended with a fresh id, the given times, and the given capacity or else the course's. |
| SessionService.CreateKeepsInvariants | apps/server/src/modules/session/session.service.ts:42-49 | A new session starts with no seat taken, so store integrity and every seat limit keep holding. |
| SessionService.FindByRange | apps/server/src/modules/session/session.service.ts:52-73 | Fails 400 iff both bounds are given and inverted. Otherwise the result is ordered by start time and is a permutation of the sessions in the window. |
| SessionService.FindByRangeMembers | apps/server/src/modules/session/session.service.ts:61-72 | The listing holds exactly the sessions whose start lies within the given bounds, both inclusive. |
| SessionService.UnboundedListsAll | apps/server/src/modules/session/session.service.ts:61-67 | With no bounds, every session is listed. |
| SessionService.GetBookingsBySession | apps/server/src/modules/session/session.service.ts:75-108 | A missing session fails "session not found". Otherwise the page is exactly the requested page of that session's BOOKED rows, newest first, with the total equal to its seat count and page and size echoed. |
| SessionService.RosterNewestFirst | apps/server/src/modules/session/session.service.ts:100 | Roster pages list booking ids strictly descending. |
| SessionService.RosterCoversEverySeat | apps/server/src/modules/session/session.service.ts:89-102 | Every booked seat of the session appears on some page. |
| StudentService.Create | apps/server/src/modules/student/student.service.ts:24-42 | Fails "phone already exists" iff a phone is given that some student holds. Otherwise one student is appended with a fresh id, with a null phone when none is given. |
| StudentService.CreateKeepsValid | apps/server/src/modules/student/student.service.ts:24-31 | Creation keeps the unique phone index and primary keys. |
| StudentService.FindOne | apps/server/src/modules/student/student.service.ts:44-53 | Fails "student not found" iff no student has the id. Otherwise it returns the student with that id. |
| StudentService.CreatedIsFound | apps/server/src/modules/student/student.service.ts:24-53 | A created student is found under the id it was given. |
| StudentService.NormalizeKeyword | apps/server/src/modules/student/student.service.ts:63-66 | A filter is in force iff the keyword has a non-blank character, and it is then the trimmed keyword. |
| StudentService.FindAll | apps/server/src/modules/student/student.service.ts:55-80 | The page is exactly the requested page of the students matching the trimmed keyword, newest first. The total counts with the same filter. Page and size are echoed. |
| StudentService.EveryMatchIsListed | apps/server/src/modules/student/student.service.ts:61-79 | Every student matching the keyword appears on some page. |
| StudentService.BlankKeywordListsAll | apps/server/src/modules/student/student.service.ts:63-66 | A missing, empty or all-blank keyword filters nothing: the result is the unfiltered one, with the total equal to the table size. |
| StudentService.KeywordIsTrimmed | apps/server/src/modules/student/student.service.ts:63 | Surrounding blanks in the keyword never change the result. |
| StudentService.FindAllNewestFirst | apps/server/src/modules/student/student.service.ts:72 | The list runs newest first, with strictly descending ids. |
| StudentService.Update | apps/server/src/modules/student/student.service.ts:82-109 | A `null` name fails as an unexpected 500. Otherwise a missing id fails "student not found", and a phone sent and held by another student fails "phone already exists". On success an omitted field keeps its value, a `null` phone becomes null, and a sent value is written, in that row only. |
| StudentService.NullPhoneClears | apps/server/src/modules/student/student.service.ts:86-90 | Sending a `null` phone succeeds and clears the phone. |
| StudentService.EmptyUpdateChangesNothing | apps/server/src/modules/student/student.service.ts:86-90 | An update naming no field succeeds and leaves the store unchanged. |
| StudentService.UpdateKeepsValid | apps/server/src/modules/student/student.service.ts:82-91 | Updates keep the unique phone index and primary keys. |
| StudentService.Remove | apps/server/src/modules/student/student.service.ts:111-126 | A missing id fails "student not found". Otherwise the row is returned and removed, and every other row stays. |
| StudentService.RemovedIsGone | apps/server/src/modules/student/student.service.ts:111-126 | After removal, looking the student up fails "student not found". |
| StudentService.RemoveKeepsValid | apps/server/src/modules/student/student.service.ts:114-116 | Removal keeps the store's integrity rules. |
| ClientSession.GetAccessToken | apps/student-h5/src/api/request.ts:78-88 | The new key wins over the legacy key, and "" is the default. |
| ClientSession.GetRefreshToken | apps/student-h5/src/api/request.ts:93-99 | The stored refresh token, or "" when none is stored. |
| ClientSession.PersistTokens | apps/student-h5/src/api/request.ts:104-120 | Fails "invalid refresh response" iff `accessToken ?? token` or the refresh token is missing or empty. Otherwise the access token is readable under both keys, the refresh token under its own, and no unrelated key changes. |
| ClientSession.ClearAuthAndRedirectToLogin | apps/student-h5/src/api/request.ts:125-139 | Removes the four auth keys and nothing else, fires one logout event, and ends on "/login". |
| ClientSession.IsRefreshRequest | apps/student-h5/src/api/request.ts:144-147 | A request is the refresh call iff it has a URL containing "/auth/refresh". |
| ClientSession.AttachToken | apps/student-h5/src/api/request.ts:210-223 | A stored access token is sent as "Bearer <token>". Without one, the config is untouched. |
| ClientSession.OnFulfilled | apps/student-h5/src/api/request.ts:231-260 | Code 0 passes. Code 401 refreshes and replays iff the request is neither a retry nor the refresh call. Any other code throws, carrying the code and the message, with fallback "request failed". |
| ClientSession.OnRejected | apps/student-h5/src/api/request.ts:261-291 | A transport error is never delivered. It refreshes and replays iff there is a config, it is not the refresh call or a retry, and the status is 401. Otherwise the envelope message, else the error's own, is rethrown. |
| ClientSession.Classify | apps/student-h5/src/api/request.ts:230-291 | A reply passes iff it is a code-0 envelope. It leads to refresh-then-replay of the config it was sent with iff that request is neither a retry nor the refresh call and the reply carries code 401 or HTTP status 401. |
| ClientSession.NoSecondReplay | apps/student-h5/src/api/request.ts:242-244 | A retried request, and the refresh call, are never sent to refresh again. |
| ClientSession.BothUnauthorizedSignalsRefresh | apps/student-h5/src/api/request.ts:240-283 | Both the business code 401 and the HTTP status 401 lead to refresh-then-replay. |
| ClientSession.JoinRefresh | apps/student-h5/src/api/request.ts:166-191 | While a refresh is pending, a caller joins it and posts nothing. With no refresh token it fails "missing refresh token" at once and logs out. Otherwise it posts the stored refresh token and opens the slot. |
| ClientSession.ReplayConfig | apps/student-h5/src/api/request.ts:199-204 | A replay keeps the URL and is marked as a retry. It carries "Bearer <new token>", unless the request interceptor finds a stored token, which then replaces it. |
| ClientSession.Resume | apps/student-h5/src/api/request.ts:196-205 | Once the shared refresh settles, each waiter in order either replays its request marked as a retry with "Bearer <new token>", or fails with the refresh error and logs out. A replayed request is recorded as in flight with its retry mark set, and no other request's config changes. |
| ClientSession.RefreshResult | apps/student-h5/src/api/request.ts:178-185 | A non-zero refresh code fails with its message, or "refresh failed". Success only comes from code 0 with persisted tokens. |
| ClientSession.SettleRefresh | apps/student-h5/src/api/request.ts:186-188 | Settling clears the slot whatever the outcome, counts one answered post, and answers every waiter. On success every waiter becomes a replay in flight, marked as a retry; on failure nothing else is recorded. |
| ClientSession.Send | apps/student-h5/src/api/request.ts:210-223 | A request under a fresh id is recorded in flight with the stored token attached. A request under an outstanding id is ignored. |
| ClientSession.OnReply | apps/student-h5/src/api/request.ts:230-291 | A reply to no request in flight is ignored. Otherwise the request leaves flight and is classified by the config it was sent with: a pass is delivered, an error fails the caller (and also clears auth when the request was a replay), and a 401 joins or opens the shared refresh. |
| ClientSession.Step | apps/student-h5/src/api/request.ts:196-291 | A send outputs nothing and leaves the slot alone. A reply answers at most its own request. Refresh posts are only appended, at most one per event, and answered posts only grow. |
| ClientSession.Run | apps/student-h5/src/api/request.ts:196-291 | Over any event sequence, refresh posts are only appended and answered posts only grow. |
| ClientTraces.StepKeepsOneRefreshInFlight | apps/student-h5/src/api/request.ts:166-191 | Posts to "/auth/refresh" exceed answered ones by one exactly while the slot is pending, and a pending slot has a waiter. Every event keeps this. |
| ClientTraces.RunKeepsOneRefreshInFlight | apps/student-h5/src/api/request.ts:166-191 | At most one refresh call is outstanding over any event sequence. |
| ClientTraces.StepKeepsReplaysMarked | apps/student-h5/src/api/request.ts:196-205 | Every unanswered replay is in flight with its retry mark set and is not waiting on the refresh. Every event keeps this. |
| ClientTraces.RunKeepsReplaysMarked | apps/student-h5/src/api/request.ts:196-205 | The replay marks hold over any event sequence. |
| ClientTraces.ReplayNeverWaitsAgain | apps/student-h5/src/api/request.ts:242-244 | Whatever answers a replayed request, it is delivered or fails, and the slot and the refresh posts are unchanged: a replay never waits on a refresh again. |
| ClientTraces.ReplaysNeverRefreshInAnyHistory | apps/student-h5/src/api/request.ts:196-291 | In any history, a reply to a request still being replayed leaves the slot and the refresh posts alone. |
| ClientTraces.PendingRefreshIsShared | apps/student-h5/src/api/request.ts:167-169 | A 401 arriving while a refresh is pending joins it and posts nothing. |
| ClientTraces.MissingRefreshTokenFailsFast | apps/student-h5/src/api/request.ts:171-174 | With no refresh token, a 401 fails at once without touching the slot or the network, and logs out. |
| ClientTraces.Unauthorized | apps/student-h5/src/api/request.ts:240-247 | Builds one business-401 reply per request, in order. |
| ClientTraces.ConcurrentUnauthorizedJoinOneRefresh | apps/student-h5/src/api/request.ts:166-191 | Any number of distinct requests in flight that meet a 401 together produce exactly one refresh post, all wait on it in order, and they leave flight. |
| ClientTraces.RenewedReplaysAllWaiters | apps/student-h5/src/api/request.ts:176-205 | A refresh answered with a new token pair stores both tokens and replays every waiter in order, as a retry with the new token, each recorded as a replay in flight. |
| ClientTraces.SingleFlightReplaysEachOnce | apps/student-h5/src/api/request.ts:166-205 | After the shared refresh succeeds, every waiting request is replayed exactly once with the new token and is in flight as a replay, and both new tokens are stored. |
| ClientTraces.FailedReplayLogsOut | apps/student-h5/src/api/request.ts:246-251 | A replayed request answered with anything but a code-0 envelope, by HTTP status or business code, fails its caller, clears both tokens, goes to "/login" and fires one logout event. |
| ClientTraces.FailedRefreshFailsAllWaiters | apps/student-h5/src/api/request.ts:176-191 | A refresh that fails for any reason (a transport error, a non-zero code, or missing tokens) fails every waiting request with that error, clears the slot, removes both tokens, goes to "/login" and fires one logout event per waiter. |
| ThinClient.OnFulfilled | apps/student-h5/src/lib/request.ts:22-34 | A response passes unchanged iff its code is 0. Otherwise it throws an error carrying that code, with message fallback "request failed". |
| ThinClient.OnRejected | apps/student-h5/src/lib/request.ts:35-40 | A transport error is replaced by `Error(message)` iff the body has a message. Otherwise the original error is rejected unchanged. |
| ThinClient.UnwrapData | apps/student-h5/src/lib/request.ts:43-47 | Yields exactly the envelope's `data`, and passes errors through. |
| ThinClient.SuccessEnvelopeRoundTrip | apps/student-h5/src/lib/request.ts:22-47 | Data wrapped in the server's success envelope is unwrapped back to itself. |
| ThinClient.FailureNeverUnwraps | apps/student-h5/src/lib/request.ts:25-31 | A non-zero code never yields data, and the error carries that code. |
| Text.ToUpper | apps/server/src/modules/auth/guards/csrf.guard.ts:60 | Upper-casing keeps the length and maps each character on its own: the letters "a" to "z" to "A" to "Z", "ı" to "I", "ſ" to "S", and every other character to itself. |
| Text.IndexOf | apps/server/src/modules/auth/guards/csrf.guard.ts:42 | The first position of a character, or -1 exactly when it is absent. |
| Text.Trim | apps/server/src/modules/auth/guards/csrf.guard.ts:51-53 | The result is a slice with only white space outside it, and no white space at either end. |
| Text.TrimEmptyIffBlank | apps/server/src/modules/student/student.service.ts:63-64 | A string trims to "" iff all of it is white space. |
| Text.TrimIdempotent | apps/server/src/main.ts:56 | Trimming twice is trimming once. |
| Text.Split | apps/server/src/main.ts:55 | Splitting gives at least one part, no part holds the separator, and joining the parts with it gives back the string. |

## Left out

- bcrypt and JWT internals: these are the library functions in `Crypto.Kit`. No lawful kit is constructed; the properties hold for any kit satisfying `Crypto.Lawful`.
- The concurrency of `Promise.all` at apps/server/src/modules/auth/auth.service.ts:130: the two tokens are signed one after the other, with token ids drawn from the counter.
- Concurrent server requests and row-level races: every service call is atomic. Transactions are taken as the source means them.
- The JWT auth guard, the `@Public` decorator and `ExtractJwt.fromAuthHeaderAsBearerToken`: the JWT auth guard's source is not part of this model. `JwtStrategy.Authenticate` receives the already-extracted bearer token.
- The `typeof window === "undefined"` guards in the client: the model always runs in a browser.
- `toUpperCase` in full: `Text.ToUpper` maps only the characters whose upper case is a single ASCII letter ("a" to "z", "ı" to "I", "ſ" to "S"). Other mappings, including the multi-letter ones such as "ﬁ" to "FI", are left out; none of them can produce "GET", "HEAD" or "OPTIONS".
- bcrypt's limit counts UTF-8 bytes and the model counts characters. Tokens are ASCII, where the two agree. A NUL character, which some bcrypt builds stop at, is not modelled.
- SHA-256 is idealised as collision-free in `Crypto.Lawful`. No length of a digest is promised.
- `ClientSession.OnRejected` handles a rejection that carries no config. Every reply the model delivers answers a request it sent, so `ClientSession.Classify` always has a config.
- AuthService.FindByUsername: compares usernames exactly. The store compares them under the collation chosen at apps/server/src/prisma/prisma.service.ts:34-45, by default utf8mb4_unicode_ci, which ignores case, accents and trailing spaces. The model is exact for a binary collation such as utf8mb4_bin, not for the default.
- AuthService.Login: inherits that exact lookup, so a login under a collation-equal name, such as "ADMIN" for the seeded "admin", fails in the model but succeeds against the default collation. The same exact reading applies to "its own username" in `AuthTraces.SignedOutUntilLogin`, `AuthTraces.RefreshAfterLogoutFails` and `AuthTraces.NoLoginSucceedsAs`, and to `AuthService.UniqueUsernames`.
- StudentService.Create: the phone conflict compares phones exactly. The unique index compares them under the store's collation, so with the default, "ABC" or "abc " conflicts with a stored "abc". `Store.UniquePhones` is the exact-equality reading of that index.
- StudentService.Update: the same exact phone comparison as `StudentService.Create`, for the same reason.
- `StudentService.FindAll`: the keyword match is case-sensitive. The store's collation (utf8mb4_unicode_ci) makes it case- and accent-insensitive.
- BookingService.CreateKeepsValid: keeps every booking's session and student ids below the next ids, not that those rows exist. Student removal is modelled without its foreign-key refusal, so the store model does not keep full referential integrity.
- `StudentService.Remove`: a student who still has bookings may be refused by a foreign key (Prisma error P2003, which then surfaces as 500). The schema's `onDelete` rule is not part of this model, so removal is modelled as always deleting the row.
- `SessionService.GetBookingsBySession`: the `include: { student: true }` join is not modelled. Items are booking rows without the attached student.
- `SessionService.FindByRange`: the contract promises only "ordered by start time, a permutation of the window", as the query does. The model's own order among equal start times is a choice the store does not promise.
- Auto-increment gaps: an insert that fails on a unique index may consume an id in the store. The model advances the next id only on success.
- DTO validation: the DTOs' bounds (page >= 1, pageSize 1..50, session capacity 1..500, ids >= 1) are preconditions. String-length bounds on names and phones are omitted because no service logic depends on them.
- `course.service.ts`, the controllers, `prisma.service.ts`, the seed script, `usePagination.ts` and `api/student.ts`: these are plumbing around the modelled core. Only the seed's "no admin holds a refresh hash" state is used, as `AuthTraces.Seeded`.
- `normalizeError` at apps/student-h5/src/api/request.ts:152-158: every error the model throws is already an `Error`, so it is the identity here.
- The 10-second request timeout and page unloads: a request whose reply never arrives simply has no `Respond` event.

## Findings

The service stores each refresh token as a bcrypt hash and checks a presented token with `bcrypt.compare`. bcrypt reads only the first 72 bytes of its input. Every refresh token of one admin begins with the same 72 characters: the fixed 36-character HS256 header, a ".", and the encoding of `{"sub":…,"username":"…","role":"`, which the payload writes first. So rotation does not retire old tokens. The service functions take the check as a parameter, `AuthService.TokenCheck`: `WholeTokenBcrypt` is the code as written, and `Sha256Digest` stores a digest of the whole token. The rotation properties in `AuthTraces` are proved for the digest.

| source | as written | input that shows it | evidently intended | confidence | as-written member | corrected member |
|---|---|---|---|---|---|---|
| apps/server/src/modules/auth/auth.service.ts:149 | The refresh token is stored as `bcrypt.hash(refreshToken)` and checked with `bcrypt.compare` at line 78; bcrypt reads only the first 72 bytes, which all refresh tokens of one admin share. | Log in and get T1; refresh with T1 and get T2; refresh with T2 and get T3. T2 is then accepted again before it expires, although its hash was replaced by T3's. | A rotated-out refresh token is refused: the stored value checks the whole token, for example a SHA-256 digest. | high; not executed | AuthTraces.RotatedOutTokenStillAccepted | AuthTraces.ReuseAfterRotationInAnyHistory |
