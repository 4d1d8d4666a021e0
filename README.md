# Users API: verified model of the in-memory user store

The Users API (`server.js`) is an Express service around one module-level
table, `users`, of `{id, name, password}` records. It starts with two seed
records. Four handlers work on it:

- `GET /users` returns the table as it is.
- `POST /users` appends a record whose id is the current length plus one.
  It stores the body's `name` and `password` exactly as sent, with no
  validation.
- `PUT /users/:id` finds the first record with that id. It overwrites `name`
  and then `password`, but only with a truthy value. If no record has that
  id, it answers 404.
- `DELETE /users/:id` replaces the table by the records whose id differs.
  It always answers success.

The model is the module `Server` (`server.dfy`), plus a one-datatype helper
module `Wrappers` (`wrappers.dfy`):

- A `User` is a datatype. `name` and `password` are `Option<string>`:
  `None` is a field missing from the body, and `Some("")` is an empty string.
- The path id after `parseInt` is a `PathId`, either `Num(n)` or `NaN`.
  `NaN` matches no record, as `===` with `NaN` is always false.
- The table is the class `UserStore`. Its field `users: seq<User>` is
  reassigned by the methods `Create`, `Update` and `Delete`. `List` and `Find`
  only read it.
- Each mutating method is tied to a specification function of the old table:
  `AfterCreate`, `ApplyUpdate` (built on `IndexOfFirst`) and `WithoutId`.
  The properties the source promises are proved about those functions, as
  their contracts and as lemmas.
- `Replay` applies a run of requests one after another, the way the
  single-threaded event loop handles them. It is used to state what happens
  to ids over time.

Two behaviours of the code are worth stating on their own:

- Ids are not kept distinct. `CreateAfterDeleteCollides` and
  `SeedCollisionScenario` show two stored records with the same id, and
  `DenseWithoutDeletes` shows that ids stay distinct while no delete has
  happened.
- The API documentation comment for `DELETE /users/{id}` lists a 404
  response (`server.js:202-203`). The handler never sends one, so `Delete` has no failure outcome.

## Model

| member | source | states |
|---|---|---|
| Server.UserStore.constructor | server.js:38-49 | the table starts as exactly two records, id 1 "João"/"JJ1804C" then id 2 "Clair"/"CC0710L"; ids are positive |
| Server.UserStore.List | server.js:75-77 | returns the whole table, in store order, unchanged |
| Server.UserStore.Create | server.js:113-121 | appends exactly one record at the end. Its id is the old length plus one. Name and password are stored as supplied, absent or empty included. Earlier records are unchanged, and the returned record is the stored one |
| Server.UserStore.Find | server.js:171 | the linear scan returns the index of the first record whose id equals the path id, or none when no record has it |
| Server.IndexOfFirst | server.js:171 | a returned index holds a matching record and no earlier record matches; none is returned exactly when no record matches |
| Server.UserStore.Update | server.js:169-178 | the outcome and the new table are those of `ApplyUpdate` on the old table (not-found leaves the table as it was) |
| Server.ApplyUpdate | server.js:169-178 | reports not-found exactly when no record has the id, and then leaves the table unchanged. Length and every id are kept. Only the first matching record may change. Its name becomes the supplied name when that is truthy and otherwise stays as it was; the password follows the same rule on its own. The reported record is the stored one |
| Server.UserStore.Delete | server.js:205-209 | the new table is `WithoutId` of the old one; there is no failure outcome |
| Server.WithoutId | server.js:207 | no remaining record has the id; a record remains exactly when it was there and does not have the id; the table never grows |
| Server.WithoutIdAppend | server.js:207 | deleting from a concatenation is deleting from each part, so remaining records keep their relative order |
| Server.WithoutIdUnchangedIff | server.js:207-208 | a delete leaves the table unchanged exactly when no record had the id (a `NaN` id included) |
| Server.WithoutIdKeepsUnique | server.js:207 | a delete never makes two records share an id |
| Server.DeleteOneOf | server.js:207 | when only one record has the id, deleting it removes that record and nothing else |
| Server.DenseDeleteInner | server.js:207 | on a table numbered 1..n, deleting an id d in 1..n-1 removes only its record, so the table shrinks by one and still ends with the record of id n |
| Server.CreateKeepsUniqueIff | server.js:115 | on a table with distinct ids, a create keeps them distinct exactly when no record already has id length plus one |
| Server.DenseWithoutDeletes | server.js:115 | from a table numbered 1..n, any run of creates and updates without a delete keeps the ids 1..m in order, hence distinct |
| Server.CreateAfterDeleteCollides | server.js:115 | on a table numbered 1..n, deleting an id d in 1..n-1 and then creating gives the new record id n, which the previous last record still has; the ids are no longer distinct |
| Server.SeedCollisionScenario | server.js:113-209 | from the seed, the store's own methods run create Ana, delete 1, create Bo; the table is then Clair (2), Ana (3), Bo (3), and the ids are no longer distinct |

## Left out

- Express routing, middleware, status codes and JSON response envelopes (`server.js:4-6`, `30-32`, `120`, `173`, `177`, `208`). Each handler's outcome is a return value instead: the created record, `NotFound`/`Updated(user)`, or nothing for delete.
- The `GET /` welcome text (`server.js:30-32`). It does not touch the store.
- Swagger/OpenAPI generation and `/api-docs` (`server.js:10-28` and the documentation comments). It is descriptive only, built by foreign libraries.
- `app.listen` and the startup log (`server.js:34-36`). This is process and network I/O.
- JSON body parsing and `parseInt` (`server.js:6`, `170`, `206`). The id arrives already parsed as `Num(n)` or `NaN`, and body fields arrive as optional strings.
- Full JavaScript truthiness and non-string body values (`null`, numbers, booleans, objects). Inputs are optional strings, and only `None` and `""` are falsy.
- Server.UserStore.Update: the record returned by `find` is an object that the handler mutates in place. The model treats records as values: it updates the sequence at that index and returns a copy. No aliasing is observable, because the response is written before any other handler runs.
- Concurrency. Each handler runs to completion on the single-threaded event loop, so the model runs one operation at a time.
- JavaScript's number range. Ids are unbounded integers, and a table large enough to reach 2^53 is not modelled.
