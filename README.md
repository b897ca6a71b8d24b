# Second-Brain backend: a verified model

Second-Brain is a small bookmarking backend. Users sign up and sign in with a
password. They then create, list and delete "content" items: a link with one
of six types, a title and optional tags, owned by the user who created it.
Protected routes sit behind a bearer-token gate. This project models four
parts of it in Dafny and proves the rules they follow:

- **the password policy** (`password.dfy`). `src/utils/validatePassword.ts` is one
  anchored regular expression. `IsValidPassword` follows the pattern piece by
  piece: three lookaheads, then `.{6,}$` over UTF-16 code units. The lemmas
  restate the pattern in plain terms.
- **the authentication gate** (`middleware.ts` → `middleware.dfy`). The
  function `Gate` is the decision `AuthMiddleware` takes. It checks the
  `Bearer ` prefix, takes `split(" ")[1]` as the token, rejects an empty
  token, calls `jwt.verify` and maps the errors. The method `AuthMiddleware`
  carries the decision out on a request object and a response object.
- **the route handlers** (`src/index.ts` → `routes.dfy`). Five handlers are
  methods of one `Backend` object: signup, signin, create content, list
  content and delete content. `Backend` holds the user and content
  collections, and its `Valid()` states the schema's invariants.
- **the schemas** (`src/db.ts` → `schema.dfy`, `store.dfy`). Each schema becomes
  a datatype. Each `New…` function is what `create` does with a candidate
  document: it trims, then checks `required` and `enum`. The in-memory
  queries `findOne`, `find` and `deleteOne` are in `store.dfy`.

The JavaScript string operations the code relies on are in `jsstring.dfy`:
`startsWith`, `split` on one character, `trim`, and `length` in UTF-16 code
units. A small `Option` type for `undefined` is in `wrappers.dfy`.

## Environment as parameters

- `jwt.verify` is a function from the token to `Decoded(claims)` or
  `Thrown(error)`. An error is seen through its prototype chain, and
  `instanceof` means membership in that chain.
- `bcrypt.hash(password, 10)` is a `hash(password, salt)` function of the
  Backend, with the random salt passed in on each signup. `bcrypt.compare`
  and `jwt.sign` (with the secret and the 7-day expiry) are also function
  fields of the Backend.
- `dbFault` says that a handler's first database call throws. That covers a
  lost connection and an id that does not cast to an ObjectId. In signup, a
  failing `create` has the same effect as a failing `findOne` (a 500 and
  nothing stored), so this one failure point covers every database failure
  the handlers can see.
- ObjectIds come from a counter (`nextSerial`), so every new id is fresh.

## Library assumptions

- **jsonwebtoken.** `TokenExpiredError` and `NotBeforeError` extend
  `JsonWebTokenError` (`Middleware.LibraryError`). The catch block tests
  `instanceof JsonWebTokenError` first. So every error the library throws,
  an expired token included, gets 401 "Invalid token". The "Token expired"
  reply is only reached by an error outside that hierarchy
  (`Middleware.LibraryErrorsReportedInvalid`). The gate itself is modelled as
  written: first match on the prototype chain.
- **mongoose.** The `trim` setter of `username` applies both when a user is
  created and in the `findOne({ username })` query filter. A String path
  marked `required` rejects the empty string.

## Behaviour worth knowing

- Signin answers an unknown name ("User not found") differently from a wrong
  password ("Invalid credentials"), so a caller can tell whether a name is
  registered.
- `tags` is an ordered array of Tag references (`seq<ObjectId>`), not a set.
- A `type` outside the enum passes the handler's presence check. The schema
  rejects it at `create`, so the reply is 500, not 400.
- A username of white space only passes the handler's presence check. The
  schema trims it to the empty string and rejects it at `create`, so the
  reply is 500 (`Routes.SignupBlankName`).

## Model

| member | source | states |
|---|---|---|
| PasswordPolicy.IsValidPassword | src/utils/validatePassword.ts:1-3 | the pattern, piece by piece: the three lookaheads tried at the start, then `.{6,}$`; an accepted string holds no line terminator and has at least 6 UTF-16 code units |
| PasswordPolicy.IsValidPasswordCharacterisation | src/utils/validatePassword.ts:2 | the pattern accepts a string iff it holds an ASCII letter, an ASCII digit and one of `@$!%*?&`, has at least 6 UTF-16 code units and holds no line terminator |
| PasswordPolicy.ShortPasswordRejected | src/utils/validatePassword.ts:2 | any string of fewer than 6 code units is rejected, whatever it holds |
| PasswordPolicy.ShortInCharactersRejected | src/utils/validatePassword.ts:2 | any string of fewer than 3 characters is rejected, and so is any string of fewer than 6 characters from the Basic Multilingual Plane |
| PasswordPolicy.LineTerminatorRejected | src/utils/validatePassword.ts:2 | a `\n`, `\r`, U+2028 or U+2029 anywhere rejects the string |
| PasswordPolicy.NeutralCharacterCountsOnlyTowardLength | src/utils/validatePassword.ts:2 | inserting a character that is neither a line terminator nor in one of the three classes changes only the length: acceptance then depends on the rest of the string alone |
| PasswordPolicy.AppendKeepsAccepted | src/utils/validatePassword.ts:2 | appending characters other than line terminators to an accepted password keeps it accepted |
| PasswordPolicy.NoDigitExampleRejected | src/utils/validatePassword.ts:2 | `Abcdef!` (no digit) is rejected |
| PasswordPolicy.ExampleAccepted | src/utils/validatePassword.ts:2 | `Abcde1!` is accepted |
| JsString.Utf16LengthBounds | src/utils/validatePassword.ts:2 | a string's JavaScript length lies between its character count and twice that, and equals the count for BMP-only strings |
| JsString.StartsWith | src/middleware.ts:29 | `startsWith(prefix)` holds when the string is the prefix followed by the rest of the string |
| JsString.CountPositiveIff | src/middleware.ts:36 | a string holds the separator exactly when it has at least one occurrence of it, i.e. when `split` yields a second piece |
| JsString.Split | src/middleware.ts:36 | `split` on one character gives one more piece than there are separators; no piece holds the separator; the pieces joined with the separator give back the string |
| JsString.SplitAtFirst | src/middleware.ts:36 | the first separator closes the first piece, and the rest is split on its own |
| JsString.SplitFirstPiece | src/middleware.ts:36 | the first piece is the longest separator-free prefix of the string |
| JsString.Trim | src/db.ts:35 | `trim()`: the result is no longer than the input, and neither of its ends is white space |
| JsString.TrimIsTrimmedSlice | src/db.ts:35 | `trim` yields a contiguous slice of the input whose ends are not white space, and everything it drops before and after that slice is white space |
| JsString.TrimIdempotent | src/db.ts:35 | trimming twice is the same as trimming once |
| JsString.TrimEmptyIff | src/db.ts:33-35 | `trim` gives the empty string exactly for inputs made only of white space |
| Schema.ParseContentType | src/db.ts:67-71 | the `enum` validator names the content type it accepts |
| Schema.ContentTypeEnum | src/db.ts:67-71 | the enum accepts exactly `article`, `video`, `tweet`, `document`, `image`, `link`, and parsing inverts the stored name |
| Schema.NewUser | src/db.ts:29-45 | a user document is accepted iff its trimmed name and its password are non-empty; the stored one has the trimmed name and is valid |
| Schema.NewTag | src/db.ts:47-59 | a tag document is accepted iff its trimmed title is non-empty, and is stored trimmed |
| Schema.NewContent | src/db.ts:61-91 | a content document is accepted iff link and title are non-empty and the type is one of the six names; the stored record keeps link, title, tags and owner |
| Schema.AddTagKeepsTitlesUnique | src/db.ts:47-59 | a tag built by the schema and stored under a title no stored tag has keeps titles unique |
| Schema.AddShareLinkKeepsHashesUnique | src/db.ts:93-109 | a link built by the schema and stored under a hash no stored link has keeps hashes unique |
| Store.FindUser | src/index.ts:36 | `findOne({ username })` returns a stored user of that name, and returns nothing iff no stored user has that name |
| Store.FindAppended | src/index.ts:36-48 | after a user is appended under a name no stored user had, a lookup by that name finds that user |
| Store.OwnedBy | src/index.ts:157-159 | `find({ userId })` returns exactly the stored records of that owner |
| Store.OwnedByConcat | src/index.ts:157-159 | in the model's insertion-ordered store, the owner filter over two stretches is the first stretch's records followed by the second's (an order MongoDB does not promise) |
| Store.OwnedByAppend | src/index.ts:134-140 | a stored record is listed for its owner and for nobody else; in the model's insertion order it comes last (an order MongoDB does not promise) |
| Store.FirstMatch | src/index.ts:180-183 | the index of the first record matching both `_id` and `userId`, or the length when none matches |
| Store.DeleteOne | src/index.ts:180-183 | `deleteOne` adds nothing, and either leaves the store as it was or removes exactly one record |
| Store.DeleteOneSkipsPrefix | src/index.ts:180-183 | records ahead of any match pass through `deleteOne` unchanged and in order |
| Store.DeleteOneRemovesFirstMatch | src/index.ts:180-183 | `deleteOne` removes exactly the first record matching both `_id` and `userId`, and changes nothing when none matches |
| Store.DeleteOneRemovesAtMostOne | src/index.ts:180-183 | `deleteOne` removes exactly one record when some record matches and none otherwise |
| Store.DeleteOneKeepsOthers | src/index.ts:180-183 | the records of every other owner are untouched by a delete |
| Store.DeleteOneLeavesNoMatch | src/index.ts:180-183 | with distinct ids, no record matching the filter remains, no record is added, and ids stay distinct |
| Middleware.Gate | src/middleware.ts:24-65 | the middleware's decision: a request goes on only with claims that verify decoded from a non-empty token behind `Bearer `; every rejection is a 401 or the generic 500 |
| Middleware.BearerToken | src/middleware.ts:36 | `split(" ")[1]` is defined exactly when the header holds a space, and then holds no space itself |
| Middleware.ErrorReply | src/middleware.ts:51-64 | the catch block answers 401 exactly for an instance of `JsonWebTokenError` or `TokenExpiredError`, and the generic 500 otherwise |
| Middleware.NoTokenIff | src/middleware.ts:29-33 | the reply is 401 "No token provided" iff the header is absent or does not start with the case-sensitive `Bearer ` (a direct reading of `Gate`'s first branch) |
| Middleware.TokenAfterScheme | src/middleware.ts:36 | the token is what follows `Bearer ` up to the next space or the end |
| Middleware.ExtraSegmentsIgnored | src/middleware.ts:36 | in `Bearer abc def` the token is `abc`: later pieces are ignored |
| Middleware.NeedLoginIff | src/middleware.ts:36-42 | after `Bearer `, the reply is 401 "Need to login first" iff nothing or a space follows the prefix (`Bearer `, `Bearer  abc`) |
| Middleware.WordIsVerified | src/middleware.ts:36-50 | for `Bearer ` followed by one non-empty word, that word goes to verify: the request proceeds with its claims, or the error's reply is sent |
| Middleware.ProceedIff | src/middleware.ts:45-50 | the request proceeds with given claims iff the header has the prefix, the token is non-empty and verify decoded exactly those claims (a direct reading of `Gate`; the header facts that matter are in `TokenAfterScheme`, `NeedLoginIff` and `WordIsVerified`) |
| Middleware.ErrorReplyFirstMatch | src/middleware.ts:51-64 | an error that is an instance of `JsonWebTokenError` gets 401 "Invalid token"; failing that, one of `TokenExpiredError` gets 401 "Token expired"; any other gets 500 (a direct reading of `ErrorReply`; its consequence under the library's classes is `LibraryErrorsReportedInvalid`) |
| Middleware.LibraryErrorsReportedInvalid | src/middleware.ts:52-61 | every error jsonwebtoken throws, the expiry error included, gets "Invalid token"; "Token expired" is sent only for errors outside the library's hierarchy |
| Middleware.AuthMiddleware | src/middleware.ts:19-66 | each request either calls `next` once with `userId` and `username` set to the decoded claims and no reply sent, or gets exactly the gate's one reply with no `next` and the request untouched |
| Routes.Backend.Signup | src/index.ts:21-70 | checks in order: missing field (400), weak password (400, before the name is looked up), fault (500), taken name (409), and a 500 when the schema refuses the document at `create` (a name of white space only). A 201 adds exactly one user, with the trimmed name and `hash(password)`, and returns its id and name. Every other reply leaves the store unchanged and the schema invariants hold |
| Routes.Backend.CreateUser | src/index.ts:45-68 | `User.create` followed by `jwt.sign`: a document the schema rejects gives 500 with nothing stored; otherwise exactly one user with a fresh id, the trimmed name and the hash is appended, and the 201 reply carries the signed token and that user's id and name |
| Routes.Backend.Signin | src/index.ts:72-120 | changes nothing. Missing field: 400. Unknown name: 401 "User not found". Failed compare: 401 "Invalid credentials". Otherwise 200 with the stored user's id and name |
| Routes.Backend.CreateContent | src/index.ts:122-152 | a missing link, type or title gives 400. A fault or a type outside the enum gives 500. Otherwise exactly one record is stored, owned by the caller, with tags defaulting to `[]`. Nothing is stored on any error |
| Routes.Backend.ListContent | src/index.ts:154-175 | returns exactly the records whose owner is the caller (in the model's insertion order), with the caller's id and name, and changes nothing |
| Routes.Backend.DeleteContent | src/index.ts:177-194 | the reply is always 200, "Content deleted" (or "Error deleting the content" on a fault). At most one record is removed, and only one carrying the id and owned by the caller. Other owners' records and the users are untouched |
| Routes.SignupThenSignin | src/index.ts:21-113 | after a successful signup, signing in with the same credentials is a 200 for the same user id and trimmed name |
| Routes.Falsy | src/index.ts:25 | JavaScript's `!field` for a request-body field: absent or the empty string (a definition; the handlers' 400 clauses state its use) |
| Routes.AddUserKeepsValid | src/db.ts:29-45 | appending a valid user under a fresh id and a name no stored user has keeps every schema invariant: valid documents, unique names, distinct ids |
| Routes.AddContentKeepsValid | src/db.ts:61-91 | appending a valid content record under a fresh id keeps every schema invariant |
| Routes.SignupBlankName | src/index.ts:25-68 | a name of white space only with a valid password passes the handler's checks, is refused by the schema at `create`, and gets 500 with nothing stored |
| Routes.SignupTwice | src/index.ts:36-41 | after a successful signup, a second signup under the same name with a valid password is a 409 |
| Routes.CreateThenList | src/index.ts:122-168 | a record created by one user comes back in that user's list with its link, type, title and tags, and never in another user's list |

## Left out

- `src/dbConnect.ts` is not part of this model. It reads the environment and opens the database connection (I/O).
- The express wiring: body parsers, `dotenv`, `app.listen`, the `JWT_SECRET` fallback and `console` logging (I/O).
- The two share-link routes (`src/index.ts:196-198`) have empty bodies and never reply. There is no behaviour to model.
- Cryptography: bcrypt's salting and cost, JWT signing and the expiry clock. They are abstract functions, and the clock's effect appears only as which error `verify` throws.
- Routes.Backend.Signup: says that the stored password is `hash(password, salt)`. That this differs from the plain text is a property of bcrypt, not stated here.
- Routes.SignupThenSignin: assumes `compare(password, hash(password, salt))` for the password and salt used. This is bcrypt's guarantee, not the backend's.
- Middleware.AuthMiddleware: a token whose payload lacks `userId` or `username` is not modelled. `verify` always yields both claims.
- A `jwt.sign` that throws after the user is stored (a 500 with the user kept) is not modelled, since `sign` is total.
- Order of query results: the collections are sequences in insertion order, and `find` and `deleteOne` scan them in that order. MongoDB returns an unsorted query in no promised order, so the order facts of `Store.OwnedByConcat`, `Store.OwnedByAppend` and `Routes.Backend.ListContent` hold of the model only; which records are returned or removed does not depend on it.
- Strings are well-formed UTF-16: a Dafny `char` is a Unicode scalar value, so a string holding an unpaired surrogate (which `JSON.parse` can produce from `"\ud800"`, and which the unflagged pattern's `.` matches as one code unit) is not modelled.
- Request-body fields are either absent or strings (`tags`: absent or an array of ObjectIds). Numbers, objects and other JSON values are not modelled.
- A delete request without `contentId` is not modelled: mongoose's treatment of an `undefined` `_id` in a filter is not captured, and `contentId` is a present ObjectId.
- The Tag and Link collections: no route reads or writes them. Only their document rules (`NewTag`, `NewShareLink`) and the uniqueness those rules keep (`AddTagKeepsTitlesUnique`, `AddShareLinkKeepsHashesUnique`) are modelled.
- Referential integrity of `Content.userId` and `tags` is not checked, as in the source. Timestamps and `populate` are left out.
- Concurrency: each handler runs atomically. The race between `findOne` and `create` in signup is not modelled.
- The content routes take the claims `AuthMiddleware` attached. Chaining the middleware and a handler in one method is not modelled.
