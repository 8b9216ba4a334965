# Pancake server: accounts and orders store

A Dafny model of the in-memory back end in `server.js`. The model keeps the two
collections the server keeps, `users` and `orders`, and the route handlers that
change or read them:

- `/signup` and `/login`;
- `POST /orders` and `PATCH /orders/:id`;
- `GET /admin/orders` and `GET /admin/users`;
- `POST /admin/users/:id/promote`.

The HTTP layer is removed. Each handler is a method on the class `Server.Store`.
It changes `users` and `orders` in place and answers with a `Result`: either the
value the route replies with, or an error kind. `Records.HttpStatus` gives the
HTTP status each error kind is answered with; no handler contract refers to it,
since the methods reply with the error kind and the status follows from it.

Files:

- `wrappers.dfy`: `Option`.
- `text.dfy`: the string work the handlers do. This covers `toLowerCase` (ASCII letters), `trim` (the ECMAScript white-space and line-terminator code points) and the e-mail normalisation `toLowerCase().trim()`. It also covers `split(' ')`, with its inverse `Join`, and the token extraction `authHeader ? authHeader.split(' ')[1] : null`.
- `records.dfy`: the records, error kinds and `find` lookups.
  - The five `users.find` callbacks are the cases of `UserQuery`.
  - The searches are given as specification functions (`FirstMatch`, `FirstOrder`) and as the linear scans that implement them (`FindUser`, `FindOrder`).
  - It also holds the invariant of the user collection and the lemmas about it.
- `store.dfy`: the class `Store<I, T>`. `I` and `T` are the types of an order's opaque `items` and `total`.

The store starts with one seeded account: the master e-mail, its password,
`isAdmin` set and a token. Every method that changes the store requires and
keeps `Valid()`. Valid means:

- the seed is still at index 0 with that e-mail, password and `isAdmin`;
- lower-cased e-mails, ids and tokens are pairwise distinct;
- order ids are distinct.

Two consequences are proved:

- Signup never creates an admin. A signup of the master e-mail always meets the seed in the duplicate test.
- Only the seed can pass the promote check. Being an admin is not enough.

## Model

| member | source | states |
|---|---|---|
| Text.Lower | server.js:40 | the result has the input's length; each upper-case ASCII letter becomes the same letter in lower case and every other character is kept, so the result has no upper-case letter and a string without one is returned unchanged |
| Text.LowerChar | server.js:40 | an upper-case ASCII letter becomes the same letter in lower case; any other character is kept |
| Text.SkipSpace | server.js:40 | finds the first character at or after a position that is not white space; everything skipped is white space |
| Text.SkipSpaceBack | server.js:40 | finds where a range ends once its trailing white space is removed; everything removed is white space and the character kept last is not |
| Text.Trim | server.js:40 | the input is the result surrounded by white space on both sides, and the result neither starts nor ends with white space |
| Text.Normalise | server.js:40 | `toLowerCase().trim()` on an e-mail; it has no `ensures` of its own, and its properties are proved in `NormalisedIsNormal` and `NormaliseIdempotent` |
| Text.NormalisedIsNormal | server.js:40 | the normalised e-mail has no upper-case letter, lower-casing it again changes nothing, and it has no white space at either end |
| Text.TrimOfTrimmed | server.js:40 | trimming a string with no white space at either end returns it unchanged |
| Text.NormaliseIdempotent | server.js:62 | normalising an already normalised e-mail changes nothing |
| Text.BlankNormalisesToEmpty | server.js:37-40 | a white-space-only e-mail normalises to the empty string, although it passes the emptiness test made before normalising |
| Text.SpaceFrom | server.js:101 | finds the next space at or after a position, or the end when there is none; no space is skipped |
| Text.SplitFrom | server.js:101 | `split(' ')` of the text from a position on: always at least one piece; the pieces are characterised by `SplitFromPieces` and `JoinSplitFrom` |
| Text.Split | server.js:132 | `split(' ')` of a whole header: always at least one piece, so `[0]` exists; that `[1]` exists exactly when the header has a space, and what the pieces are, is proved by `SplitFromPieces` and `JoinSplit` |
| Text.SplitFromPieces | server.js:101 | no piece of a split contains a space, and there is a single piece exactly when the split text has no space |
| Text.JoinSplit | server.js:101 | joining the pieces of a split with single spaces gives back the input |
| Text.JoinSplitFrom | server.js:101 | joining the pieces of the rest of a string with single spaces gives that rest back |
| Text.SpaceFromAt | server.js:101 | the next space is found at a position exactly when it is a space (or the end) and no space comes before it |
| Text.BearerToken | server.js:101 | a token is found only in a present header that contains a space, and the token itself contains no space |
| Text.BearerTokenNeedsSpace | server.js:132 | a header without a space yields no token |
| Text.BearerTokenAnyScheme | server.js:132 | for any first word (the scheme is not checked), the token is the text after the first space up to the next space |
| Records.HttpStatus | server.js:38-142 | every error kind is a client error: 400 exactly for invalid input and an existing user, 401 exactly for bad credentials, 403 exactly for a refused admin or master-admin check, 404 exactly for a missing order or user |
| Records.WithoutPassword | server.js:55 | the `{ password, ...rest }` reply: every field but the password; it has no `ensures`, the result type has no password field |
| Records.Matches | server.js:42-137 | the five `users.find` callbacks, one case of `UserQuery` each: lower-cased e-mail (line 42), exact credentials (line 65), an admin's token (line 102), the master e-mail's token (line 134) and the id (line 137); it has no `ensures`, it is the predicate `FirstMatch` is specified by |
| Records.FirstMatch | server.js:42 | the index `users.find` selects: the first user matching the query, or none exactly when no user matches |
| Records.FirstOrder | server.js:108 | the index `orders.find` selects: the first order with the id, or none exactly when no order has it |
| Records.FindUser | server.js:65 | the linear scan returns the first matching user, as specified by `FirstMatch` |
| Records.FindOrder | server.js:108 | the linear scan returns the first order with the id, as specified by `FirstOrder` |
| Records.SetToken | server.js:69 | `user.token = t`: the user at the index gets the new token, its other fields and every other user are unchanged |
| Records.Promote | server.js:139 | `user.isAdmin = true`: the user at the index becomes admin, its other fields and every other user are unchanged |
| Records.SetStatus | server.js:111 | `order.status = s`: the order at the index gets the new status, its other fields and every other order are unchanged |
| Records.AdminEmailIsLower | server.js:14 | the master e-mail has no upper-case letter, so lower-casing keeps it |
| Records.AdminEmailIsNormal | server.js:14 | normalising the master e-mail gives it back unchanged |
| Records.AdminEmailAlwaysTaken | server.js:42-44 | while the seed is in place, the duplicate test of signup finds the seed for the master e-mail |
| Records.OnlySeedHasAdminEmail | server.js:19-27 | in every reachable state the only user with the master e-mail is the seed |
| Records.OnlySeedCanPromote | server.js:134-135 | the promote check finds the seed when the token is the seed's current token, and otherwise finds nobody |
| Records.SeedCanLogIn | server.js:65 | the seeded account can always log in with the configured e-mail and password |
| Records.CredentialsFound | server.js:65-67 | login's search finds a user exactly when some user has exactly the given e-mail and password |
| Records.CredentialsOwnerUnique | server.js:65 | at most one user matches a given e-mail and password, so the first match is the only one |
| Records.AppendKeepsInvariant | server.js:46-54 | appending an account with a fresh id, a fresh token and an unused normalised e-mail keeps the invariant |
| Records.SetTokenKeepsInvariant | server.js:69 | rotating a token to an unused value keeps the invariant |
| Records.RotatedTokenRevoked | server.js:69 | after a rotation no user holds the previous token, so it no longer authenticates |
| Records.PromoteKeepsInvariant | server.js:139 | promoting keeps the invariant, and so keeps the seed admin |
| Records.PromoteIdempotent | server.js:137-140 | promoting twice equals promoting once; promoting an admin changes nothing |
| Server.Store.constructor | server.js:19-28 | the store starts with the seeded master admin account and no orders, and satisfies the invariant |
| Server.Store.Signup | server.js:36-57 | empty e-mail or password gives InvalidInput and a duplicate lower-cased e-mail gives AlreadyExists, both with users unchanged; otherwise exactly one user is appended (normalised e-mail, `isAdmin` iff it is the master e-mail, the fresh token) and returned without its password; a successful signup never returns an admin; orders are unchanged |
| Server.Store.Login | server.js:60-72 | succeeds iff the search finds a user with exactly the normalised e-mail and the password; then only that first user's token changes, to the fresh one, and the user is returned without password; otherwise InvalidCredentials and nothing changes |
| Server.Store.CreateOrder | server.js:77-92 | appends exactly one order with the given fields and status "pending"; earlier orders and users are unchanged |
| Server.Store.SetOrderStatus | server.js:95-113 | Unauthorized unless the header's token belongs to a user with `isAdmin`; NotFound for an unknown id; otherwise only the status of the first order with that id becomes the requested value; users are never changed |
| Server.Store.ListOrders | server.js:118-120 | returns all orders in creation order |
| Server.Store.ListUsers | server.js:123-126 | returns every user in order, each without its password |
| Server.Store.PromoteUser | server.js:129-143 | Forbidden unless the header's token belongs to the user with the master e-mail, which is the seed's current token (being an admin is not enough); NotFound for an unknown id; otherwise only that user's `isAdmin` becomes true; orders are never changed |

## Left out

- Express setup, CORS, body parsing, routing, JSON replies and `app.listen` with its console logging (server.js:1-11, 145-150). Only the outcome of each route is modelled: the reply value or the error kind and its status code.
- `crypto.randomUUID`, `crypto.randomBytes` and `generateToken`. The fresh ids and tokens are method parameters. Each method requires them to differ from the existing ones, which version-4 UUIDs (122 random bits) and 160-bit random tokens do with overwhelming probability.
- `new Date()`. An order's `createdAt` is a parameter.
- `toLowerCase` beyond ASCII. `Text.Lower` lower-cases only `A`–`Z`. JavaScript also lower-cases other scripts. The properties used here only need the result to be a fixed point of lowering.
- Body fields that are missing or not strings. Every input is a string here. In the source, a missing `email` at login throws in `toLowerCase`. A missing `status` at `PATCH /orders/:id` stores `undefined`.
- The contents of `items` and `total`. They are opaque type parameters and are never inspected.
- Rewards, file persistence and the first-signup-is-admin policy. They belong to other versions of the application and do not appear in server.js. This model follows server.js: the master admin is fixed by its e-mail.
- Separate `authenticate` and `authorize` operations. server.js does not have them. Each gated handler runs its own `users.find` with the token and the rank test inline, and the model does the same.
