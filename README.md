# Book-search server: authentication gate and saved-books store

A Dafny model of the server side of the book-search application: how
`authenticateToken` finds a token on an incoming request and turns it into a
verified identity claim (`req.user`), how `signToken` issues tokens, and how
the GraphQL resolvers use that claim to gate access to the `User` collection
and to update a user's `savedBooks` list with MongoDB's `$addToSet` and
`$pull`.

Files and modules:

- `wrappers.dfy` (`Wrappers`): `Option` for `undefined`/`null`, `Result` for a
  value or a thrown error.
- `js_string.dfy` (`JsString`): JavaScript truthiness of a string, `a || b`,
  `s.split(' ').pop()` and `s.trim()`.
- `errors.dfy` (`Errors`): the errors the server throws.
- `auth.dfy` (`Auth`): `server/src/utils/auth.ts`. The request is a class
  whose `user` field `AuthenticateToken` sets in place; token selection and
  `signToken` are functions. The `jsonwebtoken` library is a pair of
  functions `Jwt(sign, verify)`. `Lawful(jwt)` states what the server relies
  on: a token verified with the secret that signed it gives back its payload
  until it expires, and nothing afterwards. `verify` gives a payload only for
  a token signed with that secret that has not expired. A signed token is a
  non-empty base64url-and-dots string. Lemmas that need these facts take
  `Lawful(jwt)` as a precondition.
- `jwt_witness.dfy` (`JwtWitness`): a concrete, non-cryptographic `Jwt`
  meeting `Lawful`. Its tokens spell out payload, secret, issue time and
  lifetime in a prefix-free code. It shows that the hypothesis can be met.
- `saved_books.dfy` (`SavedBooks`): `$addToSet` and `$pull` on the
  `savedBooks` array.
- `resolvers.dfy` (`Resolvers`): `server/src/schemas/resolvers.ts`. The
  collection is a class `UserStore` holding a map from `_id` to document and
  the collection's natural order. `me`, `user` and `login` are functions
  reading it. `createUser`, `saveBook` and `deleteBook` are methods changing
  it. A resolver's `context` is the `Option<Claim>` that `authenticateToken`
  left in `req.user`.

What the code does, as modelled:

- The token is taken from `req.body.token || req.query.token ||
  req.headers.authorization`. A body or query token therefore wins over an
  `Authorization` header. The header does not take precedence.
- Whenever an `Authorization` header is present, the chosen token (wherever
  it came from) is cut to its last space-separated segment and trimmed.
- `createUser` and `login` call `signToken(user)` with the document as the only argument (resolvers.ts:51 and :63). The model gives both readings: `Login` and `CreateUser` sign the document's `username`, `email` and `_id`; `LoginAsWritten` and `SignTokenWithDocument` sign what the call as written builds. See Findings.

## Model

| member | source | states |
|---|---|---|
| `JsString.Or` | server/src/utils/auth.ts:7 | JavaScript's `a \|\| b` on optional strings is truthy iff either operand is; it is `a` when `a` is truthy and `b` otherwise |
| `JsString.LastSegment` | server/src/utils/auth.ts:10 | `split(' ').pop()` yields a suffix of the input that has no space and that is either the whole input or preceded by a space |
| `JsString.Trim` | server/src/utils/auth.ts:10 | `trim()` yields a slice of the input that neither starts nor ends with whitespace, and everything cut off on either side is whitespace |
| `JsString.TrimmedAtComposes` | server/src/utils/auth.ts:10 | dropping leading and then trailing whitespace leaves a slice of the input with only whitespace cut off on either side |
| `JsString.LastSegmentAfterSpace` | server/src/utils/auth.ts:10 | whatever precedes the last space, `split(' ').pop()` of `prefix + ' ' + s` is `s` when `s` has no space |
| `JsString.TrimUnchanged` | server/src/utils/auth.ts:10 | trimming a string whose two ends are not whitespace returns it unchanged |
| `Auth.TokenFrom` | server/src/utils/auth.ts:7 | the token is found iff one of body, query, header is a non-empty string; the body token wins, then the query token, then the header |
| `Auth.ExtractToken` | server/src/utils/auth.ts:7-11 | with an `Authorization` header present, the token used is the chosen token cut to its last space-separated segment and trimmed, so it has no space and neither starts nor ends with whitespace; without one, it is the chosen token unchanged |
| `Auth.BearerHeaderYieldsToken` | server/src/utils/auth.ts:9-11 | when no body or query token is sent, a header `<scheme> <token>` with a compact token yields exactly `<token>` |
| `Auth.BearerHeaderYieldsIt` | server/src/utils/auth.ts:9-11 | when no body or query token is sent, a `Bearer <token>` header with a compact token yields exactly `<token>` |
| `Auth.BodyTokenBeatsHeader` | server/src/utils/auth.ts:7-11 | with both a body token and a header, the body token is used, and a compact one passes the header's cut unchanged |
| `Auth.TrailingSpaceIsAnonymous` | server/src/utils/auth.ts:9-15 | when no body or query token is sent, a header ending in a space yields the empty token, and the request gets no claim whatever the secret and the JWT library |
| `Auth.RequestClaim` | server/src/utils/auth.ts:13-29 | a claim is produced only when a non-empty token was found and the secret is a non-empty string |
| `Auth.ClaimOnlyFromIssuedToken` | server/src/utils/auth.ts:17-24 | under the JWT laws, an attached claim comes from a token signed for that claim with the server's secret that has not expired |
| `Auth.AuthenticateToken` | server/src/utils/auth.ts:6-30 | returns the same request; only `req.user` may change, it becomes exactly the verified claim, and it is left as it was when no token, no secret or no valid signature is found; it never fails |
| `Auth.SignToken` | server/src/utils/auth.ts:32-40 | fails with the missing-secret error exactly when the secret is undefined or empty; otherwise signs `{username, email, _id}` with a lifetime of 7200 seconds |
| `Auth.SignData` | server/src/utils/auth.ts:34-40 | whatever the payload, signing fails with the missing-secret error exactly when the secret is undefined or empty, and otherwise signs `{ data: payload }` for 7200 seconds |
| `Auth.SignedDataAuthenticates` | server/src/utils/auth.ts:7-40 | round trip for any payload: a signed token sent as `Bearer <token>` before two hours pass makes `authenticateToken` attach exactly that payload |
| `Auth.SignedTokenAuthenticates` | server/src/utils/auth.ts:23-40 | round trip: a token from `signToken`, sent as `Bearer <token>` before two hours pass, makes `authenticateToken` attach exactly `{username, email, _id}` |
| `Auth.ExpiredTokenIsAnonymous` | server/src/utils/auth.ts:23-40 | the same token sent two hours or more after issue leaves the request anonymous |
| `JwtWitness.LawfulIsConsistent` | server/src/utils/auth.ts:23-40 | the laws assumed of `jwt.sign` and `jwt.verify` can all hold at once: a concrete `Jwt` meets them |
| `Auth.AuthenticationError` | server/src/utils/auth.ts:43-48 | an `AuthenticationError` is a GraphQL error with the given message and extension code `UNAUTHENTICATED` |
| `SavedBooks.AddToSet` | server/src/schemas/resolvers.ts:71 | `$addToSet` keeps the existing array as a prefix and contains the entry afterwards; it grows by one only when the entry was absent |
| `SavedBooks.Pull` | server/src/schemas/resolvers.ts:85 | `$pull` leaves exactly the elements with a different `bookId`, each as often as before |
| `SavedBooks.PullDistributes` | server/src/schemas/resolvers.ts:85 | `$pull` of a concatenation is the concatenation of the pulls, so what stays keeps its order |
| `SavedBooks.PullAbsentIsNoOp` | server/src/schemas/resolvers.ts:85 | pulling a `bookId` that is not in the array returns the array unchanged |
| `SavedBooks.AddToSetIdempotent` | server/src/schemas/resolvers.ts:71 | adding the same entry twice equals adding it once |
| `SavedBooks.SaveThenDeleteRestores` | server/src/schemas/resolvers.ts:71-85 | adding a `bookId` that was not saved and then pulling it restores the original array |
| `SavedBooks.SaveDeleteSaveLeavesOne` | server/src/schemas/resolvers.ts:71-85 | add, pull, add again leaves exactly one entry for that `bookId` |
| `SavedBooks.UpdatesKeepSet` | server/src/schemas/resolvers.ts:71-85 | an array without duplicates keeps that property under both updates |
| `Resolvers.FindById` | server/src/schemas/resolvers.ts:39 | `findOne({ _id })` finds a document iff one is stored under that `_id`, and then it is that document |
| `Resolvers.FindByEmail` | server/src/schemas/resolvers.ts:55 | `findOne({ email })` finds a document iff some document has that email; the one found has that email and is the first such document in natural order |
| `Resolvers.SaveBookIn` | server/src/schemas/resolvers.ts:68-71 | the update touches only the document keyed by the given id, only its `savedBooks`, which becomes the `$addToSet` of `{bookId}` (every entry kept, `{bookId}` present); a missing id changes nothing |
| `Resolvers.DeleteBookIn` | server/src/schemas/resolvers.ts:83-85 | the update touches only the document keyed by the given id, only its `savedBooks`, which becomes the `$pull` of `bookId` (exactly the entries with another `bookId`); a missing id changes nothing |
| `Resolvers.SaveBookIdempotent` | server/src/schemas/resolvers.ts:68-71 | saving a book twice leaves the whole collection as saving it once |
| `Resolvers.DeleteAbsentIsNoOp` | server/src/schemas/resolvers.ts:83-85 | deleting a book the caller has not saved leaves the whole collection unchanged |
| `Resolvers.SaveThenDeleteRestoresStore` | server/src/schemas/resolvers.ts:66-90 | saving a book the caller had not saved and then deleting it restores the whole collection |
| `Resolvers.UserStore.FindUser` | server/src/schemas/resolvers.ts:38-40 | `user(userId)` returns the document whose `_id` is `userId`, or null when there is none, without looking at the context |
| `Resolvers.UserStore.Me` | server/src/schemas/resolvers.ts:41-46 | without a claim `me` throws `Not authenticated`; with one it returns the document keyed by the claim's `_id`, or null when there is none |
| `Resolvers.UserStore.CheckCredentials` | server/src/schemas/resolvers.ts:55-62 | the credentials pass iff the document `findOne({ email })` returns exists and its password matches, and then that document is returned; otherwise the error is `Invalid credentials` |
| `Resolvers.UserStore.Login` | server/src/schemas/resolvers.ts:54-65 | `login` succeeds iff the credential check passes and the secret is set; it then returns the document whose password was checked and a token signed for its username, email and `_id`; it fails with `Invalid credentials` when the check fails and with the missing-secret error otherwise |
| `Resolvers.LoginFailuresAlike` | server/src/schemas/resolvers.ts:54-62 | an unknown email and a wrong password give the same `Invalid credentials` authentication error |
| `Resolvers.LoginThenMe` | server/src/schemas/resolvers.ts:41-65 | with `signToken` called as `signToken(user.username, user.email, user._id)` (the correction in Findings), under the JWT laws the token `login` returns, sent back as a bearer header before it expires, authenticates the caller as that user, and `me` then returns that user's document |
| `Resolvers.SignTokenWithDocument` | server/src/schemas/resolvers.ts:63 | `signToken(user)` as written signs `{ username: <document>, email: undefined, _id: undefined }`, and fails, with the missing-secret error, exactly when the secret is missing |
| `Resolvers.DocumentTokenCarriesNoId` | server/src/schemas/resolvers.ts:51-63 | under the JWT laws, the token `signToken(user)` issues authenticates to a `req.user` with the document under `username` and no `_id` |
| `Resolvers.UserStore.LoginAsWritten` | server/src/schemas/resolvers.ts:54-65 | `login` as written succeeds under the same conditions as `Login`, and its token is signed for the document bound to `username` with no `email` or `_id`; it fails with `Invalid credentials` when the credential check fails and with the missing-secret error otherwise |
| `Resolvers.LoginAsWrittenLosesId` | server/src/schemas/resolvers.ts:41-65 | under the JWT laws, the token `login` as written returns gives a `context.user` whose `_id` is undefined, so `me`'s filter does not name the caller's `_id` |
| `Resolvers.UserStore.CreateUser` | server/src/schemas/resolvers.ts:49-53 | a document the schema refuses changes nothing; otherwise the new document with an empty `savedBooks` is stored under a fresh `_id` and appended to the natural order, and the call fails with the missing-secret error after storing it when no secret is set |
| `Resolvers.UserStore.SaveBook` | server/src/schemas/resolvers.ts:66-80 | without a claim it throws `Not authenticated` and changes nothing; otherwise the collection becomes the `$addToSet` on the claim's own document and the updated document (or null) is returned; the store invariant is kept, including that no document saves a `bookId` twice |
| `Resolvers.UserStore.DeleteBook` | server/src/schemas/resolvers.ts:81-90 | without a claim it throws `Not authenticated` and changes nothing; otherwise the collection becomes the `$pull` on the claim's own document and the updated document (or null) is returned; the store invariant is kept |

## Left out

- The signing and verification of JSON Web Tokens are not modelled. `Jwt` is any pair of functions. The properties the server depends on are the hypothesis `Lawful`. The witness in `JwtWitness` is not a model of `jsonwebtoken`: its tokens are not signed, so they can be forged.
- The clock is the parameter `now`, in whole seconds (`jsonwebtoken` takes `iat` as the floor of milliseconds over 1000). `process.env.JWT_SECRET_KEY` is the parameter `secret`.
- The `console.log('Invalid token')` in the catch block is not modelled.
- Request body and query fields are modelled as strings or absent. Non-string JavaScript values there are not modelled.
- A token that verifies but carries no `data` key would set `req.user` to `undefined`. `Lawful` rules this out, because only `signToken` signs with the secret.
- Resolvers.UserStore.Login: resolvers.ts:63 calls `signToken(user)` with the document as its only argument. This does not match `signToken(username, email, _id)` at auth.ts:32. The model passes the document's `username`, `email` and `_id`.
- Resolvers.UserStore.CreateUser: resolvers.ts:51 has the same one-argument call and is modelled the same way.
- Resolvers.LoginThenMe: the round trip holds only with the `signToken` call corrected. As written, the token from `login` carries the document under `username` and no `_id` (`Resolvers.LoginAsWrittenLosesId`). `me`, `saveBook` and `deleteBook` then filter on `{ _id: undefined }`. What Mongoose makes of that filter is not modelled.
- The payload of the one-argument `signToken(user)` call is modelled as the document value itself. The JSON serialization inside `jsonwebtoken` turns the document into a plain object and drops the undefined `email` and `_id`; only the missing `_id` matters here. `JwtWitness` meets the JWT laws for `Claim` payloads only, not for this payload type.
- models/User.js is not part of this model. Its rules are the opaque `Schema` parameter:
  - whether `User.create` accepts a document (uniqueness, email format);
  - what it stores for a password;
  - `isCorrectPassword`.
- Resolvers.UserStore.SaveBook: `runValidators: true` runs the schema's update validators, which are not part of this model. The update is taken as accepted.
- Resolvers.UserStore.FindUser: a `userId` that is not a valid ObjectId makes Mongoose throw a cast error. The model treats ids as plain keys and returns null.
- An embedded `savedBooks` element is modelled as `{ bookId }` alone. Any `_id` that the schema might add to subdocuments, which would change `$addToSet` equality, is not modelled.
- The `bookCount` field of the `User` interface is not modelled.
- `async`/`await`, concurrent requests and storage-level atomicity are not modelled. Each resolver call is one atomic step on the collection.
- The client pages and components, `client/src/utils/queries.ts` and the Express/Apollo wiring in `server/src/server.ts` are not modelled. They are UI, a query literal and I/O plumbing. `server.ts` passes `authenticateToken` as the resolvers' context, and the model reflects this by taking the claim as the context.

## Findings

| source | as written | input that shows it | evidently intended | confidence | as-written member | corrected member |
|---|---|---|---|---|---|---|
| server/src/schemas/resolvers.ts:51-63 | `signToken(user)` passes the document as the only argument of `signToken(username, email, _id)`, so the signed payload has no `_id` | any successful `login` (or `createUser`) with the secret set, then `me` with the returned token before it expires: `context.user._id` is undefined | `signToken(user.username, user.email, user._id)`, so that the token authenticates the caller as that document | high; not executed | `Resolvers.LoginAsWrittenLosesId` | `Resolvers.LoginThenMe` |
