# PDF search back end: cache, authentication and page text, in Dafny

This project models the parts of the Express back end that carry real logic.
Each part is modelled as pure functions over immutable state, and the properties
the code promises are proved about that model:

- **The versioned response cache** (`back/src/cache.js`). A global counter
  `pdfs:cacheVersion` lives in Redis. It starts at `"1"` and only a bump (INCR)
  changes it.
  - Keys have the form `pdfs:v<version>:<route>[?<sorted query>]`.
  - The read middleware answers a GET from the store (`X-Cache: HIT`) or hands
    the request on.
  - The write path stores a body under the current key and sends it
    (`X-Cache: MISS`).
  - Redis is a map from keys to strings plus an "online" flag. INCR follows
    Redis: canonical signed 64-bit decimals only, and overflow is an error.
- **The request validators** (`back/src/validators/auth.js`). They check the
  email pattern `^\S+@\S+\.\S+$`, the password length and the name, in that
  order, on request fields taken as JavaScript values.
- **The bearer-token middleware** (`back/src/middleware/auth.js`). It strips
  the `Bearer ` prefix and gives one of three outcomes. The JWT verifier is a
  function parameter.
- **The users collection and the auth routes** (`back/src/models/User.js`,
  `back/src/routes/auth.js`).
  - The Mongoose schema's unique, lower-cased, trimmed email is kept as an
    invariant of the collection.
  - `/register` and `/login` are functions from a collection and a request
    body to a reply and the collection afterwards.
  - bcrypt and jsonwebtoken are symbolic: a digest records what was hashed and
    at which cost, and a token records its subject and lifetime.
- **Page text assembly** (`back/src/utils/pdfUtils.js`). The page loop of
  `extractPagesText` is a method with loop invariants. Its input is the decoded
  document: each page's item strings, in order.

Library behaviour the code relies on is a parameter, with the laws the proofs
need stated as predicates:

- `localeCompare` is taken as a strict total order.
- URLSearchParams encoding is taken as injective and never emitting `&` or `=`.
- `JSON.parse(JSON.stringify(b))` is taken to give back `b`.

Modules: `Wrappers`, `Text`, `Decimal`, `Js` (JavaScript values, truthiness,
`String(v)`, `trim`, ASCII lower-casing, UTF-16 length), `Redis`, `CacheKey`,
`Cache`, `Validators`, `AuthMiddleware`, `UserModel`, `AuthRoutes`, `PdfUtils`.

The rest of the back end (ingestion, search, aggregation) is not part of this
model. Three facts about the modelled code are easy to miss:

- `back/src/cache.js` defines no cache-clearing operation. The only way to
  retire cached entries is a version bump.
- Keys under distinct versions are guaranteed to differ when the versions hold
  no `:`. The versions the code produces are integers, so they never do.
- A bump fails, rather than increments, when the stored counter is not a
  64-bit integer.

## Model

| member | source | states |
|---|---|---|
| Redis.Get | back/src/cache.js:9 | GET succeeds exactly when Redis is reachable, and returns the stored value exactly when the key is present |
| Redis.Set | back/src/cache.js:10 | SET succeeds exactly when Redis is reachable, and then the key holds the value and no other key changes |
| Redis.SetEx | back/src/cache.js:54 | SETEX succeeds exactly when Redis is reachable and the TTL lies between 1 and the largest number of seconds whose milliseconds fit in 64 bits; then it writes like SET. A TTL outside the 64-bit range is "not an integer", any other refused TTL is "invalid expire time" |
| Redis.Incr | back/src/cache.js:16 | INCR counts an absent key as 0 and stores the printed successor. It fails exactly when Redis is unreachable, the value is not a 64-bit integer, or it is already the maximum |
| Decimal.NatToString | back/src/cache.js:16 | the printed counter is canonical (no leading zero) and denotes the number printed |
| Decimal.CanonicalRoundTrip | back/src/cache.js:16 | printing the value of a canonical digit string gives back that string |
| Decimal.IntToStringParses | back/src/cache.js:16 | a printed integer parses back to the same integer |
| Decimal.ParsedIsPrinted | back/src/cache.js:16 | a string INCR accepts is exactly the printed form of its integer, so no other spelling is accepted |
| Decimal.IntToStringInjective | back/src/cache.js:25 | distinct version numbers print differently |
| Cache.GetCacheVersion | back/src/cache.js:8-12 | an absent or empty version is set to "1" and "1" is returned; a non-empty stored version is returned and nothing is written; fails exactly when Redis is unreachable |
| Cache.GetCacheVersionIdempotent | back/src/cache.js:8-12 | a second version read returns the same version and writes nothing |
| Cache.BumpCacheVersion | back/src/cache.js:15-17 | a successful bump makes the counter exactly one more and changes no other key; the failure cases are exactly INCR's |
| CacheKey.Entries | back/src/cache.js:22 | every parameter keeps its name and its value becomes `String(v)`, in the original order |
| CacheKey.Sort | back/src/cache.js:23 | sorting is a permutation of the entries |
| CacheKey.SortKeepsOrderedInput | back/src/cache.js:23 | like JavaScript's stable sort, an input already in order, ties included, comes out unchanged, so entries whose names collate as equal keep their arrival order |
| CacheKey.InsertSorted | back/src/cache.js:23 | inserting an entry with a new name into a strictly sorted list keeps it strictly sorted |
| CacheKey.SortSorted | back/src/cache.js:23 | entries with distinct names come out strictly sorted by name |
| CacheKey.SortedUnique | back/src/cache.js:23 | two strictly sorted lists with the same elements are equal, so the sorted order does not depend on the input order |
| CacheKey.SerializeEmpty | back/src/cache.js:24-25 | the query string is empty exactly when there are no parameters |
| CacheKey.SerializeInjective | back/src/cache.js:24 | a non-empty query string determines the sorted entries it came from |
| CacheKey.KeyIgnoresParameterOrder | back/src/cache.js:20-26 | two requests with the same route and the same parameters in any order get the same key |
| CacheKey.KeyWithoutQuery | back/src/cache.js:21-25 | the key is exactly `pdfs:v<version>:` plus base URL plus path, with a missing part counted as "", exactly when there are no parameters |
| CacheKey.QuestionMarkMeansQuery | back/src/cache.js:25 | after a route without '?', a '?' appears exactly when a query string follows |
| CacheKey.AssembleKeyTail | back/src/cache.js:25 | a key starts with `pdfs:v`, and the rest is the version, ':', the route and the query suffix |
| CacheKey.SuffixInjective | back/src/cache.js:25 | a route without '?' followed by its query suffix determines the route and the query string |
| CacheKey.AssembleKeyInjective | back/src/cache.js:25 | a key determines its version, route and query string, for versions without ':' and routes without '?' |
| CacheKey.KeyDeterminesVersion | back/src/cache.js:25 | keys built under two different versions never collide, whatever the requests |
| CacheKey.KeyEquality | back/src/cache.js:20-26 | two requests share a key exactly when the version, the route and the set of stringified parameters are equal |
| Cache.MakeCacheKey | back/src/cache.js:28-31 | the key is the request's canonical key under the version `getCacheVersion` returns; fails exactly when Redis is unreachable |
| Cache.CacheRead | back/src/cache.js:34-49 | a non-GET goes to `next()` with the store untouched. A GET is a HIT exactly when a non-empty stored value under its key parses, and then it carries the parsed body, `X-Cache: HIT` and `max-age` = TTL. Every other case, errors included, goes to `next()`. Only the version initialisation can write |
| Cache.CacheWrite | back/src/cache.js:52-58 | the body is sent exactly when Redis is reachable and SETEX accepts the TTL. It is sent with `X-Cache: MISS` and `max-age` = TTL, after the stringified body is stored under the current key |
| Cache.WriteKeepsVersion | back/src/cache.js:52-54 | storing a body under a request's key leaves the version untouched, so the request's key stays the same |
| Cache.ReadStoredHits | back/src/cache.js:38-44 | a GET whose key holds text that parses to a body is answered with that body, marked HIT, and nothing is written |
| Cache.ReadAfterWriteHits | back/src/cache.js:34-58 | after the write path stores a body, the same GET is a HIT returning that body and writing nothing |
| Cache.KeyPrefixShape | back/src/cache.js:25 | every key starts with `pdfs:v` and has a ':' after the version |
| Cache.VersionKeyHasNoVersion | back/src/cache.js:5 | the counter's own key is never mistaken for a versioned cache key |
| Cache.BuiltKeyVersion | back/src/cache.js:25 | a key built under the printed version n carries version n |
| Cache.GetCacheVersionObserves | back/src/cache.js:8-12 | in a coherent store the version read is the printed observed version, and coherence is kept |
| Cache.BumpKeepsCoherent | back/src/cache.js:15-17 | a bump keeps every stored key at or below the counter, and the observed version goes up by one once the counter exists |
| Cache.ReadKeepsCoherent | back/src/cache.js:34-49 | the read middleware keeps the store coherent and the version unchanged |
| Cache.WriteKeepsCoherent | back/src/cache.js:52-58 | the write path writes only under the current version, so coherence is kept |
| Cache.ReadAfterBumpMisses | back/src/cache.js:15-49 | the read right after a successful bump is not answered from the cache |
| Cache.WriteBumpReadMisses | back/src/cache.js:15-58 | write, then bump, then read the same GET: the read misses |
| Cache.ApplyKeepsCoherent | back/src/cache.js:8-58 | any single cache call keeps coherence and never lowers the counter or the observed version |
| Cache.BuiltKeyIsNotVersionKey | back/src/cache.js:5-25 | no key the cache builds is the counter's key |
| Cache.ApplyKeepsServed | back/src/cache.js:8-58 | a call that neither bumps nor writes to a key leaves that key's stored text and the version in place |
| Cache.RunKeepsServed | back/src/cache.js:8-58 | the same over any run of such calls |
| Cache.WrittenBodyServedUntilBump | back/src/cache.js:34-58 | after the write path stores a body, any run of calls without a bump and without another write to that key leaves the same GET a HIT with that body |
| Cache.BumpLeavesNothingUnderCurrent | back/src/cache.js:15-17 | after a bump from a coherent store, every stored entry carries an older version than the counter |
| Cache.ApplyKeepsNothingUnderCurrent | back/src/cache.js:8-49 | version reads, reads and bumps never store an entry under the current version |
| Cache.RunKeepsNothingUnderCurrent | back/src/cache.js:8-49 | the same over any run of calls without a write |
| Cache.NothingUnderCurrentMisses | back/src/cache.js:34-49 | while nothing is stored under the current version, every request goes on to the route |
| Cache.BumpedCacheMissesUntilWrite | back/src/cache.js:15-58 | after a successful bump, any run of calls without a write leaves every request unanswered by the cache: nothing is served until something is written under the new version |
| Cache.DefaultTtlIsAccepted | back/src/cache.js:52-57 | with the default TTL of 86400 seconds, a reachable Redis accepts the write and the body is sent with `max-age=86400` |
| Cache.VersionsOnlyMoveForward | back/src/cache.js:8-58 | over any sequence of reads, writes, version reads and bumps, the counter and the observed version never decrease |
| Js.Trim | back/src/validators/auth.js:9 | the trimmed string is the input with a whitespace prefix and a whitespace suffix removed. It is empty exactly when the input is all whitespace, and otherwise starts and ends with non-whitespace |
| Js.TrimIdempotent | back/src/validators/auth.js:9 | trimming twice is trimming once |
| Js.Utf16Length | back/src/validators/auth.js:6 | a string's JavaScript length lies between its character count and twice that. It equals the character count exactly when no character is above U+FFFF |
| Js.Utf16LengthAppend | back/src/validators/auth.js:6 | the length of a concatenation is the sum of the lengths |
| Js.Utf16LengthPush | back/src/validators/auth.js:6 | one more character adds one unit, or two for a character above U+FFFF |
| Js.ToLower | back/src/models/User.js:5 | lower-casing keeps the length, maps each character by itself, and leaves a lower-case string |
| Validators.FirstFrom | back/src/validators/auth.js:3 | finds the first occurrence of a character at or after a position, or reports there is none |
| Validators.LastBefore | back/src/validators/auth.js:3 | finds the last occurrence of a character before a bound, or reports there is none |
| Validators.EmailMatchesShape | back/src/validators/auth.js:3 | the pattern matches exactly the strings with no whitespace, an '@' after at least one character, and a later '.' with at least one character on each side |
| Validators.OnlyStringsMatch | back/src/validators/auth.js:3 | only a string field can pass the email check, since `String(v)` of a number or boolean holds no '@' |
| Validators.ValidateRegisterAsWritten | back/src/validators/auth.js:1-13 | the checks run email, then password as written (`!p \|\| p.length < 8`), then name. "Email invalide" exactly when the email fails, the password message exactly when the email passes and the password fails, "Nom requis" exactly when only the name fails, and a pass exactly when all three pass. Every rejection is 400 with error equal to message |
| Validators.ValidateRegister | back/src/validators/auth.js:1-13 | checks email, then password, then name, and rejects with the first failing check's message (each case an if-and-only-if). It passes exactly when all three hold, and then the fields are strings, the email has the pattern's shape, the password has at least 8 UTF-16 units and the trimmed name is not empty |
| Validators.ValidateLogin | back/src/validators/auth.js:15-21 | passes exactly when email and password are both truthy, and otherwise rejects with 400 "Email et mot de passe requis", with no format or length check |
| Validators.MissingBodyRejected | back/src/validators/auth.js:2-18 | a request without a body is treated as `{}` and rejected by both validators |
| Validators.RegisterStricterThanLogin | back/src/validators/auth.js:1-21 | every body the corrected register validator passes also passes the login validator, and so does every body the register validator as written passes |
| Validators.CorrectionOnlyNarrows | back/src/validators/auth.js:6 | the corrected password check passes no body that the written one refuses |
| Validators.NumericPasswordPassesAsWritten | back/src/validators/auth.js:6 | with a valid email and name, any non-zero number as the password passes the written check, and the corrected one refuses it with "Mot de passe ≥ 8 caractères" |
| AuthMiddleware.BearerToken | back/src/middleware/auth.js:4-5 | a token exists exactly when the header starts with `Bearer ` (case-sensitive), and it is the rest of the header |
| AuthMiddleware.Authenticate | back/src/middleware/auth.js:3-15 | every refusal is 401; the answer is 401 "Token manquant" exactly when there is no `Bearer ` header with a non-empty token |
| AuthMiddleware.PresentTokenIsVerified | back/src/middleware/auth.js:8-14 | a present token is verified: on success the request goes on with `user.id = payload.sub`, on failure the answer is 401 "Token invalide ou expiré" |
| AuthMiddleware.NoTokenNoVerification | back/src/middleware/auth.js:4-6 | without a usable token the answer is 401 "Token manquant" whatever the verifier, so the verifier is never consulted |
| AuthMiddleware.SchemeIsCaseSensitive | back/src/middleware/auth.js:5 | a `bearer ` (lower-case) header gets 401 "Token manquant" |
| UserModel.NormalizeEmailIsNormalized | back/src/models/User.js:5 | the lowercase and trim setters leave an email lower-case and without surrounding whitespace |
| UserModel.NormalizedIsFixed | back/src/models/User.js:5 | an email is in normal form exactly when the setters leave it unchanged |
| UserModel.NormalizeIdempotent | back/src/models/User.js:5 | applying the setters twice is applying them once |
| UserModel.KeptCharacterNotBlank | back/src/models/User.js:5 | an email holding a character the setters neither strip nor change is not blank after them |
| UserModel.FindByEmail | back/src/routes/auth.js:19 | `findOne({ email })` fails exactly when the store is down. Otherwise it finds a user whose stored email equals the normalised query, or reports that no user has that email |
| UserModel.UniqueEmailFound | back/src/models/User.js:5 | among documents with pairwise distinct emails, the first with a given email is the one document that has it |
| UserModel.FindByEmailUnique | back/src/models/User.js:5 | in a valid collection, `findOne` returns the one user with that email |
| UserModel.Create | back/src/models/User.js:3-10 | create fails when the store is down; otherwise it refuses a blank email and, with code 11000, an email already stored. Otherwise it appends exactly one user with the normalised email, the given digest and name, a fresh id, and both timestamps set to now |
| UserModel.AppendKeepsValid | back/src/models/User.js:5 | appending a user with a fresh id and a new normalised, non-empty email keeps the collection valid |
| UserModel.CreateKeepsValid | back/src/models/User.js:3-10 | a successful create keeps emails unique and normalised and ids unique and fresh |
| AuthRoutes.SignToken | back/src/routes/auth.js:11-13 | the token's subject is the user id and its lifetime is 604800 seconds |
| AuthRoutes.Public | back/src/routes/auth.js:24 | the public user carries exactly id, email, name and createdAt, with no password |
| AuthRoutes.Hash | back/src/routes/auth.js:22 | bcrypt.hash succeeds exactly on a string, and the digest records that string and the cost |
| AuthRoutes.Compare | back/src/routes/auth.js:41 | bcrypt.compare succeeds exactly on a string, and is true exactly when it is the hashed secret |
| AuthRoutes.Enroll | back/src/routes/auth.js:22-32 | after a free lookup: a failure is 409 or 500 and leaves the collection unchanged, and 409 happens exactly when `create` hits the unique index. 201 happens exactly when the password is a string, the store is up and the email is non-blank and free. Then exactly one user is appended, with the normalised email, the bcrypt(12) digest of the password, the name, a fresh id and createdAt = now, and the reply carries its public view and a token for its id |
| AuthRoutes.Register | back/src/routes/auth.js:16-33 | a failure is 409 "Email déjà utilisé" or 500 "Erreur serveur" and leaves the collection unchanged. 409 happens exactly when the email was found at lookup or hit the unique index at create. 201 happens exactly when the email is free at both times, the password is a string and the stores are up, and then the result is the enrolment above |
| AuthRoutes.RegisterValidated | back/src/routes/auth.js:22-31 | for a validated body, a created user's digest is of the given password at cost 12, and a 500 happens only when a store is down |
| AuthRoutes.RegisterKeepsValid | back/src/routes/auth.js:16-33 | register keeps the collection's invariants |
| AuthRoutes.SequentialConflictIsLookup | back/src/routes/auth.js:19-29 | without a concurrent insert, 409 happens exactly when `findOne` finds the email, so the 11000 branch needs a race |
| AuthRoutes.Login | back/src/routes/auth.js:36-47 | the request goes unanswered exactly when the store is down, or the email is taken and the request's password is not a string (bcrypt.compare rejects at routes/auth.js:41). A reply is either 401 "Identifiants invalides" or 200 with the public view of a stored user whose email and password match and a token for its id |
| AuthRoutes.LoginAsStoredUser | back/src/routes/auth.js:38-46 | in a valid collection, the stored email with the hashed password opens a session for that user, with status 200 and a token for its id |
| AuthRoutes.LoginSucceedsIff | back/src/routes/auth.js:36-47 | in a valid collection, login succeeds exactly when a stored user has the normalised email and the given password |
| AuthRoutes.LoginHidesWhichCheckFailed | back/src/routes/auth.js:38-42 | an unknown email and a wrong password get the identical 401 reply |
| AuthRoutes.RegisterThenLogin | back/src/routes/auth.js:16-47 | after a successful register, logging in with the same body returns the same public user and token, with status 200 |
| AuthRoutes.ValidatorsGuardHandlers | back/src/routes/auth.js:16-36 | every body either validator passes has an email the handlers can query with |
| AuthRoutes.ShapedEmailNotBlank | back/src/models/User.js:5 | an email of the validated shape is never blank after the setters, so create never refuses it as blank |
| AuthRoutes.RegisterRouteAsWritten | back/src/routes/auth.js:16 | the written validator's refusals are answered as they are and leave the collection unchanged; every other body is answered by the register handler |
| AuthRoutes.RegisterRoute | back/src/routes/auth.js:16-33 | with the corrected validator, a refusal is exactly a validator rejection and leaves the collection unchanged. Every body that passes gets exactly the register handler's collection and reply. When that reply is 201, exactly one user is appended, and the created user's password is the bcrypt(12) digest of the request's password, which has at least 8 units. A 500 happens only when a store is down |
| AuthRoutes.LoginRoute | back/src/routes/auth.js:36-47 | refusals are exactly the validator's 400. Every body that passes gets exactly the login handler's outcome: unanswered exactly when the handler leaves it unanswered (only when the store is down or the password is not a string), and otherwise the handler's reply, which is 401 "Identifiants invalides" or a 200 |
| AuthRoutes.LoginRouteSucceedsIff | back/src/routes/auth.js:36-47 | in a valid collection, the route opens a session exactly when the body passes the validator, the store is up and a stored user has the normalised email and the given string password |
| AuthRoutes.UnhashablePasswordIsServerError | back/src/routes/auth.js:22-31 | a non-string password with a free email gets 500 "Erreur serveur" and leaves the collection unchanged |
| AuthRoutes.NumericPasswordIsServerError | back/src/routes/auth.js:16-31 | the number 1 as a password gets 500 from the route as written and 400 from the corrected route |
| PdfUtils.Assemble | back/src/utils/pdfUtils.js:12-17 | one entry per page, and entry k has page number k + 1 |
| PdfUtils.AssembleEntry | back/src/utils/pdfUtils.js:12-16 | page k's entry holds page k's own items joined by spaces |
| PdfUtils.AssemblePrefix | back/src/utils/pdfUtils.js:16 | entries are only appended: a prefix of the document yields a prefix of the entries |
| PdfUtils.ExtractPagesText | back/src/utils/pdfUtils.js:5-20 | one entry per page, with page numbers strictly increasing from 1. Each text is that page's items joined by single spaces, and a page without items gets "" |
| PdfUtils.PageTextSplitsBack | back/src/utils/pdfUtils.js:15 | when no item holds a space, splitting a page's text on spaces gives back its items |
| PdfUtils.PageTextLength | back/src/utils/pdfUtils.js:15 | a page's text is as long as its items together plus one space between each two |
| Text.SplitJoin | back/src/utils/pdfUtils.js:15 | splitting on the separator undoes joining with it when no part contains it |
| Text.JoinInjective | back/src/cache.js:24 | joining with a separator that no part contains is injective |

## Left out

- Redis, MongoDB, pdfjs and the file system are not connected to. Each is
  replaced by a value: a map with an online flag, a sequence of documents with
  an online flag, or the decoded pages. A store that fails is modelled as one
  that is unreachable for the whole call.
- Key expiry is not modelled: a key written with SETEX stays until overwritten.
  Freshness comes from the version bump, not from the TTL.
- Concurrency in the cache is not modelled; each call runs on its own. Among
  the auth handlers, only the insert between `findOne` and `create` is modelled,
  through two collection states.
- Cache.Coherent assumes the counter key is never deleted. Nothing in these
  files deletes it, but a flush of Redis would restart the versions at "1".
- `clearCache` and the logout route: neither is defined in these files.
- The upload, search, list and download routes, ingestion, deduplication and
  tag extraction are not part of this model.
- `console.error` in the register handler is not modelled.
- Js.JsValue has no arrays, objects or fractional numbers. A JSON body field
  holding one of these is outside the model.
- Js.ToLower lowers ASCII letters only. Mongoose lowercases with
  `String.prototype.toLowerCase`, which also lowers other letters.
- CacheKey.Stringify models a query value as one string, an array of strings
  or a nested object. Deeper `qs` nesting is not distinguished.
- CacheKey.KeyIgnoresParameterOrder assumes `localeCompare` orders distinct
  names strictly. Two different names that collate as equal, such as "é" and
  "e" followed by a combining acute accent, keep their arrival order
  (CacheKey.SortKeepsOrderedInput), so reordering them in the URL changes the
  key.
- Redis.SetEx: after the range checks, Redis 7 adds the current time to the
  expiry and refuses a sum that overflows 64 bits. The clock is not modelled,
  so a TTL just below the limit is accepted here. The model follows Redis 7;
  earlier versions check the range differently.
- Js.Utf16Length: a lone surrogate, which a JSON body can carry and `length`
  counts as one unit, cannot be represented, because Dafny strings are
  sequences of Unicode scalar values. Passwords holding one are outside the
  model.
- Cache.ReadAfterWriteHits assumes `JSON.parse(JSON.stringify(b))` gives back
  `b` and that the stored text is not empty. Bodies that JSON does not
  reproduce (dates, `undefined` fields) are outside the model.
- AuthRoutes.Hash: bcrypt's salt, its digest text and its 72-byte input limit
  are not modelled. A digest records the hashed string, so two passwords
  sharing their first 72 bytes are told apart here but not by bcrypt.
- AuthRoutes.SignToken: the JWT secret, signature and issue time are not
  modelled, and the subject is the id itself rather than its hex string.
- AuthRoutes.Login: a rejected promise is modelled as "no response". What
  Express then does depends on its version and is not modelled.
- UserModel.Create: the password is required by the schema, but the model
  always has a digest to store, so that check cannot fail here. Timestamps are
  an integer clock passed in, not Date values. `updatedAt` never changes
  because nothing updates a user.

## Findings

| source | as written | input that shows it | evidently intended | confidence | as-written member | corrected member |
|---|---|---|---|---|---|---|
| back/src/validators/auth.js:6 | `!password \|\| password.length < 8` passes any truthy non-string, because its `length` is `undefined` and `undefined < 8` is false | body `{ email: "a@b.c", password: 1, name: "Ben" }`: it passes validation, then `bcrypt.hash(1, 12)` rejects and the route answers 500 "Erreur serveur" | a password must be a string of at least 8 characters, so this body should get 400 "Mot de passe ≥ 8 caractères" | not executed | Validators.ValidateRegisterAsWritten, Validators.NumericPasswordPassesAsWritten, AuthRoutes.RegisterRouteAsWritten, AuthRoutes.NumericPasswordIsServerError | Validators.ValidateRegister, AuthRoutes.RegisterRoute |
