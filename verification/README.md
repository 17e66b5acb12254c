# hono-auth-example in Dafny

A model of the authentication core of a small Hono/Bun server. It has three parts.

- **Credential validator** (`src/routes/auth.ts`). These are the zod rules for usernames and passwords. Each rule is modelled as a string predicate. The five regular expressions, of two shapes (`/[...]/` and `/^[...]+$/`), are modelled over a small character-class parser.
- **Bearer access guard** (`src/middleware/auth.ts`, with the older copy in `src/index.ts`). The guard is modelled as a function from the request context and a token verifier to a run. A run is the calls the guard makes and the error it throws, if any.
- **Register and login handlers** (`src/controller/user.ts`, with the inline `/register` in `src/index.ts`). These are modelled as functions over the users table, with the bcrypt and JWT operations passed in as opaque functions.

Modules and files:

| file | module | models |
|---|---|---|
| `js_runtime.dfy` | `JsRuntime` | `undefined`, thrown errors, the shared catch block, UTF-16 `length`, `startsWith`, `split(' ')` |
| `regex_class.dfy` | `RegexClass` | `/[...]/.test` and `/^[...]+$/.test` over a parsed class body |
| `validation.dfy` | `Validation` | `passwordValidationSchema`, `usernameValidationSchema`, `userValidationSchema` |
| `store.dfy` | `Store` | the `users` table, `getUserByEmail`, `createUser` |
| `crypto.dfy` | `Crypto` | `Bun.password.hash/verify` and hono's JWT `sign`/`verify`, as opaque functions |
| `middleware.dfy` | `Middleware` | `authMiddleware` |
| `controller.dfy` | `Controller` | `login`, `register` |
| `app.dfy` | `App` | the inline `/register` and the older `authMiddleware` of `src/index.ts` |
| `flows.dfy` | `Flows` | register → login → guard sequences |

Modelling decisions:

- **Lengths.** zod compares JavaScript `length`, which counts UTF-16 code units. So a character outside the Basic Multilingual Plane counts twice (`Utf16Length`).
- **Table.** The users table is a sequence of rows. It has no unique constraint on email, so lookups return the first matching row. New ids follow SQLite's rule: one more than the largest id, or 1 for an empty table.
- **Catch blocks.** Every catch block rethrows `new HTTPException(e.statusCode, { message: e.message, cause: e })`. Hono's `HTTPException` keeps its code in `status`, not in `statusCode`, and its constructor gives itself status 500 when its status argument is `undefined`. So the guard's own 401 leaves the guard as a 500 with the message `Unauthorized access` (`RejectionStatus`), and so does every other error a handler rethrows. Errors that are not HTTPExceptions (a JSON syntax error, a JWT verification error) carry no status in the model.
- **Request bodies.** Each handler reads a request body that may fail to parse. In `src/index.ts` that read happens outside the `try`, which is the only difference between the two `/register` handlers.

Some behaviour of the code is worth stating plainly, since the model follows it:

- The code does not lowercase emails before lookup or insert.
- A duplicate registration answers `User already exists`, which reveals that the email is registered.
- Tokens carry only `{ user: { id } }`, with no expiry and no username.
- The validator schema is defined, but no handler in the code applies it.
- The guard's 401 does not survive the catch block; it leaves as a 500.

## Model

| member | source | states |
|---|---|---|
| `JsRuntime.HttpException` | src/middleware/auth.ts:11-13 | an HTTPException built with a code carries that code; built with `undefined`, it carries the constructor's default 500 |
| `JsRuntime.Rethrow` | src/middleware/auth.ts:27-31 | the rethrown error keeps the caught message and takes its status from the caught `statusCode`, or 500 when that is undefined; the caught `status` plays no part |
| `JsRuntime.RethrowResetsStatus` | src/middleware/auth.ts:10-31 | a 401 given to an HTTPException leaves the catch block as a 500 with the same message, and a second pass changes nothing more |
| `JsRuntime.RethrowKeepingHttp` | src/middleware/auth.ts:27-31 | the intended catch block lets an HTTPException through unchanged and rebuilds any other error as the written one does |
| `JsRuntime.KeepingHttpDiffers` | src/middleware/auth.ts:27-31 | the intended catch block keeps an HTTPException's code, and differs from the written one exactly on HTTPExceptions whose code is not 500 |
| `JsRuntime.StartsWith` | src/middleware/auth.ts:10 | `startsWith` holds iff the prefix is no longer than the string and agrees with it character by character |
| `JsRuntime.Utf16Length` | src/routes/auth.ts:9-10 | the length zod compares lies between the character count and twice it; it equals the count exactly when no character is outside the Basic Multilingual Plane |
| `JsRuntime.Split` | src/middleware/auth.ts:16 | `split` cuts at every separator: joining the segments gives back the header, no segment holds a separator, and there is one segment exactly when the header has no separator |
| `RegexClass.ParseClass` | src/routes/auth.ts:11-27 | a class body parses to at most one item per character; the meaning of the items is stated by the class lemmas below |
| `RegexClass.Test` | src/routes/auth.ts:11 | `/[class]/.test(s)` holds iff some character of `s` is in the class |
| `RegexClass.FullMatch` | src/routes/auth.ts:27 | `/^[class]+$/.test(s)` holds iff `s` is non-empty and every character is in the class |
| `RegexClass.RangeClass` | src/routes/auth.ts:11-19 | a body `lo-hi`, as in `[A-Z]`, `[a-z]` and `[0-9]`, holds exactly the characters from `lo` to `hi` |
| `RegexClass.SpecialClass` | src/routes/auth.ts:20 | `[#?!@$%^&*-]` holds exactly its ten characters: the `^` is not first and the trailing `-` is literal |
| `RegexClass.NoRangeParsesToSingles` | src/routes/auth.ts:20 | a class body with no `-` strictly inside parses to one single-character item per character, and no range |
| `RegexClass.SinglesClass` | src/routes/auth.ts:20 | such a class matches exactly the characters written in it |
| `RegexClass.WordClass` | src/routes/auth.ts:27 | `[a-zA-Z0-9_]` holds exactly the ASCII letters, digits and `_` |
| `Validation.Failing` | src/routes/auth.ts:8-22 | the reported rules are exactly the failing rules of the chain, in chain order |
| `Validation.UppercaseTest` | src/routes/auth.ts:11-13 | the uppercase refinement passes iff the password has a character in `'A'..'Z'` |
| `Validation.LowercaseTest` | src/routes/auth.ts:14-16 | the lowercase refinement passes iff the password has a character in `'a'..'z'` |
| `Validation.DigitTest` | src/routes/auth.ts:17-19 | the number refinement passes iff the password has a character in `'0'..'9'` |
| `Validation.SpecialTest` | src/routes/auth.ts:20-22 | the special refinement passes iff the password has one of `# ? ! @ $ % ^ & * -` |
| `Validation.WordTest` | src/routes/auth.ts:27-29 | the username refinement passes iff the username is non-empty and all letters, digits or `_` |
| `Validation.PasswordViolations` | src/routes/auth.ts:8-22 | a password rule is reported iff the password fails it as the schema tests it, regular expressions included |
| `Validation.PasswordViolationsIff` | src/routes/auth.ts:8-22 | too short iff length < 8; too long iff length > 20; each class rule iff no character of that class; nothing reported iff all six rules hold |
| `Validation.PasswordViolationsOrdered` | src/routes/auth.ts:8-22 | violations come in the order of the chain, each at most once |
| `Validation.PasswordIssues` | src/routes/auth.ts:8-22 | one message per violated rule, in the same order |
| `Validation.PasswordMessagesDistinct` | src/routes/auth.ts:9-21 | the six rules have six different messages |
| `Validation.PasswordMessageIff` | src/routes/auth.ts:8-22 | a rule's fixed message appears iff the password violates that rule |
| `Validation.PasswordAcceptedIff` | src/routes/auth.ts:8-22 | a password gets no message iff it meets all six rules |
| `Validation.ShortPasswordScenario` | src/routes/auth.ts:8-22 | `Short1!` (7 characters, all classes present) gets exactly `At least 8 characters long` |
| `Validation.UsernameViolations` | src/routes/auth.ts:24-29 | a username rule is reported iff the name fails it as the schema tests it, regular expression included |
| `Validation.UsernameViolationsIff` | src/routes/auth.ts:24-29 | too short iff length < 4; too long iff length > 20; charset rule iff the name is empty or has a character outside letters, digits and `_` |
| `Validation.UsernameViolationsOrdered` | src/routes/auth.ts:24-29 | username violations come in chain order, each at most once |
| `Validation.UsernameIssues` | src/routes/auth.ts:24-29 | one message per violated username rule, in the same order |
| `Validation.UsernameAcceptedIff` | src/routes/auth.ts:24-29 | a username is accepted iff it has 4 to 20 characters, all letters, digits or `_` |
| `Validation.EmptyUsernameIssues` | src/routes/auth.ts:24-29 | the empty username fails both the minimum length and the charset rule |
| `Validation.EmailIssues` | src/routes/auth.ts:33-34 | the email field gets `Invalid email` iff the email grammar rejects it |
| `Validation.ValidateUser` | src/routes/auth.ts:31-36 | the object passes iff username, email and password each pass; success returns the input and failure returns every field's messages |
| `Validation.FieldsIndependent` | src/routes/auth.ts:31-36 | each field's messages depend on that field alone |
| `Store.FirstWithEmail` | src/db/queries/select.ts:6-8 | the lookup finds nothing iff no row has the email; otherwise it finds the first row with the email |
| `Store.GetUserByEmail` | src/db/queries/select.ts:6-8 | `getUserByEmail` finds nothing iff no row holds the email; what it finds is a row of the table holding that email |
| `Store.LookupAfterCreate` | src/db/queries/insert.ts:4-6 | in any table, an email it did not hold looks up to the row just inserted for it |
| `Store.NextId` | src/db/schema.ts:4 | a new id exceeds every id in the table, and is 1 in an empty table |
| `Store.CreateUser` | src/db/queries/insert.ts:4-6 | the insert appends exactly one row, under an id no existing row has, and changes no existing row |
| `Store.LookupUnique` | src/db/queries/select.ts:6-8 | in a valid table, the lookup returns the one row holding the email |
| `Store.CreateKeepsValid` | src/db/queries/insert.ts:4-6 | inserting a new email keeps ids and emails unique, and the email then looks up to the new row |
| `Middleware.TokenSegment` | src/middleware/auth.ts:16 | `split(' ')[1]` is undefined iff the header has no space, and never contains a space |
| `Middleware.SplitAfterWord` | src/middleware/auth.ts:16 | text without a space only lengthens the first segment of a split |
| `Middleware.SegmentBeforeSpace` | src/middleware/auth.ts:16 | a word followed by nothing or by a space is the whole first segment |
| `Middleware.TokenBetweenSpaces` | src/middleware/auth.ts:16 | the token is exactly the text between the first space and the second space (or the end) |
| `Middleware.AuthMiddleware` | src/middleware/auth.ts:6-35 | missing header, a prefix other than `Bearer`, or a missing or empty token is rejected with no calls; verify is called at most once, with a non-empty token; next runs once, last, only after verify succeeds; the only context change is the payload; verify errors keep their message |
| `Middleware.GuardOnHeader` | src/middleware/auth.ts:8-26 | for a header `a t rest`: rejected unless `a` starts with `Bearer` and `t` is non-empty; otherwise verify gets `t` and its answer decides |
| `Middleware.BareSchemeRefused` | src/middleware/auth.ts:16-22 | the header `Bearer` is rejected without calling verify |
| `Middleware.DoubleSpaceRefused` | src/middleware/auth.ts:16-22 | `Bearer` followed by two spaces (or one trailing space) is rejected without calling verify |
| `Middleware.PrefixWithoutSpace` | src/middleware/auth.ts:10-16 | `Bearerx t` passes the prefix test and verify receives `t` |
| `Middleware.Rejection` | src/middleware/auth.ts:10-31 | the guard's refusal, after the catch block, is a 500 with the message `Unauthorized access` |
| `Middleware.IntendedRejection` | src/middleware/auth.ts:10-31 | with the intended catch block the refusal is a 401 with the message `Unauthorized access` |
| `Middleware.RejectionStatus` | src/middleware/auth.ts:10-31 | the written refusal is a 500, not a 401; it differs from the intended refusal in that status alone |
| `Controller.Login` | src/controller/user.ts:9-49 | unknown email and wrong password both give 400 `Email or Password is incorrect`; 200 iff the user exists, the password verifies and signing succeeds; 400 iff the email is unknown or the password does not verify; a signing failure is rethrown through the catch block; the token is signed over the stored user's id and the response echoes the submitted email with type `Bearer` |
| `Controller.LoginAsWritten` | src/controller/user.ts:9-49 | the login as written behaves like the intended one given a password check that accepts everything, so only an unknown email gets 400 |
| `Controller.LoginIndistinguishable` | src/controller/user.ts:12-26 | the unknown-email response equals the wrong-password response |
| `Controller.UnawaitedVerifyAcceptsWrongPassword` | src/controller/user.ts:20-26 | with the verify not awaited, a wrong password for an existing email gets 200 and a token, where the awaited version refuses it |
| `Controller.RegisterParsed` | src/controller/user.ts:54-87 | a taken email gives 400 `User already exists` and no insert; otherwise one row holding `hash(password)` is appended; 200 iff the insert happened and signing succeeded, echoing username and email with a token over the new id; 400 iff the email is taken; a hash failure is rethrown with nothing inserted; a signing failure is rethrown and keeps the new row |
| `Controller.Register` | src/controller/user.ts:51-93 | an unparsable body is rethrown through the catch block with the table unchanged; a parsed body follows the registration steps |
| `Controller.RegisterKeepsValid` | src/controller/user.ts:54-67 | registration keeps ids and emails unique, and after an insert the email looks up to the new record |
| `App.RegisterInline` | src/index.ts:20-63 | unparsable body propagates unchanged; an existing email gives 400 and no insert; success inserts the hashed password and answers username, email, `Bearer` and a token over the new id |
| `App.RegisterVariantsAgree` | src/index.ts:20-63 | the inline handler equals the controller's on every parsed body; on an unparsable one only the controller rebuilds the error through the catch block, which makes it a 500 |
| `App.AuthMiddlewareV1` | src/index.ts:65-88 | missing header or a prefix other than `Bearer` is rejected with no calls; past that, verify is called exactly once, with `split(' ')[1]` even when undefined, and its answer alone decides: on success the payload is stored and next runs, on failure the error is rethrown |
| `App.GuardVariantsDiffer` | src/index.ts:65-88 | the two guards behave identically except on a missing or empty token, which only the later one refuses before verify |
| `App.BareSchemeReachesVerifier` | src/index.ts:75-78 | on the header `Bearer` the older guard calls verify with undefined and, if verify accepts it, admits the request with the returned payload, while the later one calls nothing |
| `Flows.RegisterThenLogin` | src/controller/user.ts:9-93 | in any table, after a successful register, login with the same email and password succeeds with a token over the registered id (assuming a hash verifies against its own password) |
| `Flows.RegisterTwiceRefused` | src/controller/user.ts:54-67 | registering an email a second time is refused and leaves the table as the first registration left it |
| `Flows.IssuedTokenAdmitted` | src/middleware/auth.ts:16-34 | `Bearer <issued token>` passes the guard and stores the signed claims (assuming verify inverts sign and tokens have no spaces) |
| `Flows.RegisterLoginAccess` | src/controller/user.ts:67-77 | register, login, then a protected request: the guard admits it and the stored claims carry the registered id |

## Left out

- `Bun.password` and `hono/jwt` internals. bcrypt, HMAC and base64 are not modelled; each call is an opaque function. `Flows` relies on three expectations of these functions, which it takes as hypotheses and does not prove: `HashVerifies`, `SignVerifies` and `TokensAreWords`.
- The JWT secret. `process.env.JWT_SECRET || ''` is folded into the sign and verify functions as a fixed value.
- The email grammar of zod's `.email()`. Its regular expression is not shown, so it is a predicate parameter.
- JSON bodies with missing or non-string fields, and zod's type errors for them. Bodies are either parsed into strings or fail to parse.
- How hono turns a thrown error that is not an HTTPException into an HTTP response. Also the `cause` field of rethrown errors.
- Store.GetUserByEmail, Store.CreateUser: a database error is not modelled; both queries always return. In the code such an error would be thrown inside the handler's `try` and rebuilt by the catch block, as a hash or signing failure is.
- Crypto.Oracles: `hash` is a function, so hashing one password twice gives the same result, whereas bcrypt salts each hash. Each handler hashes at most once, so no handler's behaviour depends on this.
- The handler that `next()` runs, and any error it throws. This is outside the guard's `try`.
- `src/db/schema.ts:6` maps `email` to the column named `password`. The model keeps email and password as separate fields instead of reproducing that mistake.
- Concurrency. Two simultaneous registrations could both pass the lookup, since the table has no unique constraint. The model runs requests one at a time.
- SQLite's behaviour once the largest id reaches the 64-bit maximum. Integers here are unbounded.
- The class parser reads only what the schemas use: no escapes and no leading `^`.
- `signIn`, `signUp` and `signOut` are imported at `src/routes/auth.ts:4` but are not defined in `src/controller/user.ts`. The route table at `src/routes/auth.ts:38-40` is left out with them.
- The `/` and `/protected` text responses in `src/index.ts`.
- `client/`. It is SvelteKit pages, cookies, redirects and a DOM tilt animation; none of it is server logic.
- `Bun.password.verify` rejecting its promise. The model treats the awaited result as a boolean.

## Findings

The guard and the handlers keep the catch block as written, because the status they throw with decides nothing else in their runs; the intended catch block is defined beside it and proved to give the 401.

| source | as written | input that shows it | evidently intended | confidence | as-written member | corrected member |
|---|---|---|---|---|---|---|
| src/controller/user.ts:20 | `Bun.password.verify(...)` is not awaited, so `isMatch` is a pending Promise, which is always truthy | a stored email with any wrong password: 200 and a token (`Controller.UnawaitedVerifyAcceptsWrongPassword`) | await the check and answer 400 `Email or Password is incorrect` on a mismatch, the same as for an unknown email (`Controller.LoginIndistinguishable`) | not executed; follows from JavaScript truthiness of a Promise | `Controller.LoginAsWritten` | `Controller.Login` |
| src/middleware/auth.ts:27-31 | the catch block rebuilds every error as `new HTTPException(e.statusCode, …)`; an HTTPException has no `statusCode`, so the constructor's default 500 replaces the 401 thrown at lines 11 and 19 | a request with no Authorization header: 500 `Unauthorized access` (`Middleware.RejectionStatus`) | let an HTTPException through unchanged, so the refusal is a 401 (`JsRuntime.KeepingHttpDiffers`) | not executed; follows from the default parameter of hono's HTTPException constructor | `Middleware.Rejection` | `Middleware.IntendedRejection` |
