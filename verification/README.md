# Movie catalog REST service — verified model

This project models the core of a small Express service (`app.js`) that serves a
movie catalog held in an in-memory array:

- the **origin policy** handed to the CORS middleware: a fixed allowlist of four
  origins, plus requests whose Origin header is absent or empty;
- the **catalog store** and the five route handlers that read and change it:
  listing (optionally filtered by genre, ignoring case), lookup by exact id,
  creation under a freshly generated id (appended at the end), deletion of the
  first record with the id (`splice`), and partial update (a shallow
  `{ ...record, ...payload }` merge written back at the found index).

Files:

- `wrappers.dfy` — `Option`, standing for a JavaScript value that may be `undefined`.
- `cors.dfy` — module `Cors`: the allowlist and the origin decision.
- `movies.dfy` — module `Movies`: the record, the validated full and partial
  payloads, and the two object spreads (`NewRecord`, `Merge`).
- `catalog.dfy` — module `Catalog`: the pure queries over the array (the genre
  filter with ASCII lower-casing, `findIndex`, `find`, `splice`) and the lemmas
  that characterise them.
- `store.dfy` — module `Store`: class `MovieStore`, whose `movies` field the
  handler methods reassign, and the `Outcome` each handler reports (200/201 with a
  body, 404 with a message, 400 with the validator's issues).

Three behaviours of the code worth noting:

- an **empty** Origin header is let through as well as an absent one (`!origin`
  is true for `""`);
- the deletion handler's not-found message is `"Movie not Found"`, the other two
  handlers' is `"Movie not found"`;
- uniqueness of ids is not enforced by the code: a validated payload that carried
  an `id` would override the generated one (creation) or the stored one (update),
  because the payload is spread last. The model therefore lets payloads carry an
  optional id and proves uniqueness is kept whenever they carry none.

## Model

| member | source | states |
|---|---|---|
| `Cors.CheckOrigin` | app.js:15-32 | an origin is allowed iff it is absent, empty, or exactly one of the four allowlisted strings; every refusal carries "Not allowed by CORS" |
| `Cors.NoExtensionOfAllowedOrigin` | app.js:16-23 | matching is exact: an allowlisted origin extended by any non-empty suffix (path, port digits, longer host) is refused |
| `Cors.NoProperPrefixOfAllowedOrigin` | app.js:16-23 | matching is exact the other way too: no non-empty proper prefix of an allowlisted origin is accepted |
| `Cors.IsFalsy` | app.js:27 | `!origin` holds exactly for an absent header or the empty string; any other value is a non-empty string |
| `Movies.NewRecord` | app.js:77-81 | the created record carries all seven validated fields of the payload; its id is the supplied one when the payload has no id, and the payload's id otherwise |
| `Movies.WithoutId` | app.js:77-81 | the inverse of the creation spread that `NewRecord`'s contract and `RecordRoundTrip` rely on: a record's fields as a payload with no id (a specification projection, not code of the handler) |
| `Movies.RecordRoundTrip` | app.js:77-81 | splitting a record into id and fields and rebuilding it with `NewRecord` gives the record back |
| `Movies.Merge` | app.js:117-120 | the merged record keeps the stored id when the payload carries none |
| `Movies.MergeFieldwise` | app.js:117-120 | for each of the eight fields: present in the payload gives the payload's value, absent keeps the stored value |
| `Movies.MergeNoChange` | app.js:117-120 | the empty payload (a valid no-op update) leaves the record unchanged |
| `Movies.MergeIdempotent` | app.js:117-120 | applying the same payload twice equals applying it once |
| `Movies.MergeCombine` | app.js:117-122 | two successive updates equal one update with the payloads spread one after the other |
| `Catalog.LowerChar` | app.js:49 | upper-case ASCII letters map to their lower-case letter, every other character is kept, and no upper-case letter is produced |
| `Catalog.Lower` | app.js:49 | lower-casing keeps the length and maps each character by `LowerChar` |
| `Catalog.LowerIdempotent` | app.js:49 | lower-casing an already lower-cased string changes nothing |
| `Catalog.HasGenre` | app.js:49 | the filter callback: a record is kept iff one of its genres lower-cases to the lower-cased query |
| `Catalog.AnyGenre` | app.js:49 | `some` is true iff some genre of the record lower-cases to the lower-cased query |
| `Catalog.FilterByGenre` | app.js:48-50 | every returned record matches the genre, every matching record is returned, and nothing is returned more often than it occurs in the catalog |
| `Catalog.FilterIsSubsequence` | app.js:48-50 | the filtered records keep their catalog order |
| `Catalog.FilterMultiplicity` | app.js:48-50 | each matching record occurs in the result exactly as often as in the catalog, each non-matching record not at all |
| `Catalog.FilterIsExact` | app.js:48-50 | any order-preserving selection with those multiplicities IS the filter result: the listing is exactly the matching records in catalog order |
| `Catalog.NoMatchYieldsEmpty` | app.js:48-51 | a genre carried by no record yields the empty listing, not an error |
| `Catalog.FilterIgnoresCase` | app.js:49 | filtering by a genre and by its lower-cased form give the same records |
| `Catalog.FilterAppend` | app.js:48-50 | after appending a record, the listing of a genre is the old listing plus the new record at the end exactly when it matches |
| `Catalog.Listing` | app.js:46-53 | no genre or an empty one returns the whole catalog unchanged; otherwise an order-preserving selection holding exactly the matching records |
| `Catalog.FindIndex` | app.js:91 | the index found holds the id and no earlier record does; not-found means no record holds the id |
| `Catalog.Find` | app.js:59 | not-found iff no record has the id; otherwise the result is the record at the first index with exactly that id |
| `Catalog.RemoveAt` | app.js:97 | splicing one record out shortens the catalog by one, keeps the records before it in place and shifts the later ones down by one, in order |
| `Catalog.AppendFresh` | app.js:77-83 | appending a record under an unused id keeps ids unique and makes the id find that record, at the last index |
| `Catalog.RemoveFound` | app.js:91-97 | with unique ids, after removing the record found for an id no record has that id (a second deletion is not-found), and ids stay unique |
| `Catalog.ReplaceFound` | app.js:111-122 | replacing the found record by a merge without an id keeps the id at the same index, finds the merged record, and keeps ids unique |
| `Store.MovieStore.constructor` | app.js:3 | the catalog starts as the seed records |
| `Store.MovieStore.ListMovies` | app.js:44-54 | the response is the `Listing` of the current catalog for the query; the catalog is not changed |
| `Store.MovieStore.GetMovie` | app.js:57-64 | 200 with the first record whose id is exactly the requested one iff such a record exists; otherwise 404 "Movie not found"; never 400 |
| `Store.MovieStore.CreateMovie` | app.js:67-87 | invalid payload: 400 with its issues, catalog unchanged; valid: 201 with the new record, appended at the end with all prior records in place; without a payload id the record has the fresh id, is found by it, and ids stay unique |
| `Store.MovieStore.DeleteMovie` | app.js:89-100 | id absent: 404 "Movie not Found", catalog unchanged; otherwise the first matching record is spliced out; with unique ids the id is then absent, so a second deletion is 404 |
| `Store.MovieStore.PatchMovie` | app.js:103-127 | invalid payload: 400 even if the id is absent; id absent: 404; both leave the catalog unchanged; otherwise only the found entry is replaced by the merge, length and other entries unchanged; without a payload id the id is kept and ids stay unique |

## Left out

- Express wiring, routing, JSON serialisation of responses, `app.disable`, the
  root greeting route and `app.listen` with its port default: HTTP and process
  plumbing. Handlers report an `Outcome` value instead of writing a response.
- The CORS middleware itself and its callback protocol: only the allow/deny
  decision is modelled; what the middleware does with a refusal is not.
- The request validators `validateMovie` and `validatePartialMovie`:
  `schemas/movies.js` is not part of this model. Their results are inputs of type
  `Validation`, carrying either the validated fields or a list of issues.
- Re-parsing the validator's error message as JSON: the issues are passed through
  as a value.
- `crypto.randomUUID()`: the new id is a parameter of `CreateMovie`, required to be
  unused by the current catalog (the code assumes, but never checks, that it is).
- Loading the seed data from `movies.json`: the seed is the constructor's parameter.
- `Catalog.Lower`: does not model Unicode `toLowerCase`, only ASCII letters, because
  locale and Unicode case mapping tables are outside the model.
- A genre query given more than once (`?genre=a&genre=b`, parsed into an array)
  or in bracket form (`?genre[a]=b`, parsed into an object): `toLowerCase` throws
  on it as soon as the filter reaches a record with at least one genre (on an empty
  catalog, or one whose genre lists are all empty, the handler answers `[]`); and a
  record whose `genre` is missing makes the filter throw. These exceptions are not
  modelled; the query is a single optional string.
- Movie fields are typed (`rating` as a real number, `year` and `duration` as
  integers); extra keys in stored objects and JavaScript number semantics are not
  modelled, since the handlers only copy these values.
