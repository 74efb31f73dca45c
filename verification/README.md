# Product CRUD API — a Dafny model of the product side

This project models the product half of a small Go REST API that offers
authenticated create / read / update / delete and a paged listing of
products. Four things are modelled:

- **the product entity**: a product has an identifier, a name, a description
  and a price. The constructor validates it and reports one of three errors:
  name required, price required, or invalid price;
- **the product repository**: the products table is a sequence of rows in
  insertion order. It supports create, find-by-id, paged find-all (offset
  `(page-1)*limit`), update, delete and count;
- **the query arithmetic of the listing handler**: normalising the `page`
  and `limit` query parameters and computing the number of pages;
- **the four product handlers and the listing handler**. Each is a pure
  function. It takes the store and the already-decoded request, and returns
  the HTTP status, the response body and the store after the request.

Modules, one per component:

| file | module | models |
|---|---|---|
| `wrappers.dfy` | `Wrappers` | `Option` and `Result`, standing in for Go's `(value, error)` returns |
| `product.dfy` | `ProductEntity` | the product entity, its constructor and `Validate` |
| `paging.dfy` | `Paging` | OFFSET/LIMIT windows over a sequence, and facts about consecutive pages |
| `product_db.dfy` | `ProductDb` | the product repository over `Db(rows, failing)` |
| `product_db_lemmas.dfy` | `ProductDbLemmas` | the repository round trips, the key invariant, counting and paging |
| `product_handlers.dfy` | `ProductHandlers` | the handlers, the query normalisation, `TotalPages` and the update merge |
| `product_handlers_lemmas.dfy` | `ProductHandlersLemmas` | the page arithmetic, the merge, and request sequences through the handlers |

How the outside world enters the model:

- A failure of the backing store is a parameter. `Db.failing` is the set of
  repository calls that the database fails.
- A JSON body that did not decode is `None`.
- A query parameter that is absent or does not parse as an integer is
  `None`. This is what `strconv.Atoi` reports as an error.
- The freshly generated UUID is the parameter `newId`.
- A price is a Dafny `real`.

`internal/entity/product.go` and `internal/infra/database/product_db.go`
are not part of this model. The behaviour of the entity and the repository
is taken from what their tests assert. Where the
tests are silent, the model makes these choices:

- `Validate` checks the name first, then a zero price, then a negative
  price, in the order of the tests.
- Update and Delete look the identifier up first and fail with "record not
  found" when it is absent.
- Create fails when the primary key is already taken.
- A failed count reports zero along with its error.
- A non-positive offset skips nothing, and a negative limit takes every
  remaining row. This is how the ORM treats such values.
- `sort = "desc"` lists the rows newest first. Any other value lists them in
  creation order.

## Model

| member | source | states |
|---|---|---|
| ProductEntity.Validate | internal/entity/product_test.go:25-49 | no error exactly when the name is non-empty and the price is positive; otherwise "name required" for an empty name, "price required" for a zero price, "invalid price" for a negative price |
| ProductEntity.NewProduct | internal/entity/product_test.go:9-46 | succeeds exactly when the name is non-empty and the price is positive, whatever the description (an empty one included); on success the product has the new id and exactly the given name, description and price, and `Validate` accepts it; each of the three errors arises in exactly its case, and no product is returned |
| ProductDb.Create | internal/infra/database/product_db_test.go:14-30 | succeeds exactly when the store is up and the id is unused; the product becomes the newest row and every older row stays in place; the unique-key invariant is kept |
| ProductDb.FindById | internal/infra/database/product_db_test.go:60-78 | found exactly when the store is up and some row has the requested id, and then the result is a stored row with that id; "record not found" exactly when the store is up and no row has that id |
| ProductDb.FindAll | internal/infra/database/product_db_test.go:32-58 | fails exactly when the store fails; never more than `limit` items; for a positive page and limit, the page holds min(limit, rows left after the offset) items and item i is the sorted row at offset (page-1)*limit + i; a negative limit returns every sorted row after the offset, so for page >= 1 all of them |
| ProductDb.Arranged | internal/infra/webserver/handlers/product_handlers.go:215-234 | the sort value is passed through to the query; "desc" gives the rows in reverse insertion order, index by index, and any other value gives the rows in insertion order |
| ProductDb.Update | internal/infra/database/product_db_test.go:80-100 | succeeds exactly when the id is stored and the store is up; the rows with that id are overwritten and every other row is kept; the unique-key invariant is kept |
| ProductDb.Delete | internal/infra/database/product_db_test.go:102-118 | succeeds exactly when the id is stored and the store is up; afterwards the store holds exactly the old products whose id differs |
| ProductDb.Count | internal/infra/database/product_db_test.go:120-141 | fails exactly when the store fails; otherwise it is the number of stored products |
| ProductDb.WithoutKeepsUnique | internal/infra/database/product_db_test.go:102-118 | removing the rows of one id keeps the primary-key invariant |
| ProductDbLemmas.LookupFindsTheRow | internal/infra/database/product_db_test.go:60-78 | with unique ids, looking up the id of any stored row returns that very row |
| ProductDbLemmas.CreateThenFind | internal/infra/database/product_db_test.go:60-78 | Create followed by FindByID with the same id returns the product equal in id, name, description and price |
| ProductDbLemmas.UpdateThenFind | internal/infra/database/product_db_test.go:80-100 | after Update a lookup of the id sees the new version, e.g. the new name |
| ProductDbLemmas.UpdateKeepsOthers | internal/infra/database/product_db_test.go:80-100 | Update changes nothing a lookup of any other id sees, and keeps the number of rows |
| ProductDbLemmas.DeleteThenFind | internal/infra/database/product_db_test.go:102-118 | after Delete(id) a lookup of that id fails with "record not found" |
| ProductDbLemmas.WithoutRemovesOne | internal/infra/database/product_db_test.go:102-118 | with unique ids, removing the id of row i leaves exactly the rows before and after i, in order |
| ProductDbLemmas.RemovalKeepsUnique | internal/infra/database/product_db_test.go:102-118 | dropping one row of a store with unique ids leaves the ids unique |
| ProductDbLemmas.DeleteRemovesExactlyOne | internal/infra/database/product_db_test.go:102-118 | with unique ids a successful Delete removes exactly one product, keeps the rest in order and keeps the ids unique |
| ProductDbLemmas.CreateAllAppends | internal/infra/database/product_db_test.go:35-41 | inserting products with distinct, unused ids one by one appends them in insertion order |
| ProductDbLemmas.CountAfterInserts | internal/infra/database/product_db_test.go:120-141 | the count of a fresh store equals the number of products inserted |
| ProductDbLemmas.ReverseIsPermutation | internal/infra/webserver/handlers/product_handlers.go:215-234 | listing newest first only reorders the rows |
| ProductDbLemmas.ArrangedIsPermutation | internal/infra/webserver/handlers/product_handlers.go:215-234 | whatever the sort parameter, the listing's order is a permutation of the stored rows |
| ProductDbLemmas.FindAllAscending | internal/infra/database/product_db_test.go:32-58 | in ascending order, page p of size l is exactly the stored rows from (p-1)*l to p*l, cut at the end, in insertion order |
| ProductDbLemmas.TwentyThreeInPagesOfTen | internal/infra/database/product_db_test.go:42-57 | with 23 items and limit 10, pages 1 and 2 hold items 1-10 and 11-20 and page 3 holds exactly items 21-23 |
| ProductDbLemmas.NonPositivePageIsFirstPage | internal/infra/webserver/handlers/product_handlers.go:217-234 | a page number of 0 or less, which the handler lets through when it is negative, reads the same items as page 1 |
| Paging.PageIsSlice | internal/infra/database/product_db_test.go:32-58 | page p of size l is the slice from (p-1)*l to p*l of the rows, cut at the end |
| Paging.PagesArePrefix | internal/infra/database/product_db_test.go:42-57 | pages 1..k of size l together are exactly the first k*l rows: consecutive pages neither overlap nor leave a gap |
| Paging.PageEmptyIff | internal/infra/database/product_db_test.go:42-57 | a page is empty exactly when its offset is at or past the last row |
| Paging.CeilingManyPages | internal/infra/webserver/handlers/product_handlers.go:234-246 | when n pages are just enough for the rows, pages 1..n together are all the rows, each is non-empty, and page n+1 is empty |
| ProductHandlers.NormalizePage | internal/infra/webserver/handlers/product_handlers.go:217-228 | the page is never 0; an absent or unparseable page and a parsed 0 become 1; any other parsed integer, negatives included, passes through |
| ProductHandlers.NormalizeLimit | internal/infra/webserver/handlers/product_handlers.go:221-232 | the limit is never 0; an absent or unparseable limit becomes 10 but a parsed 0 becomes 1; any other parsed integer, negatives included, passes through |
| ProductHandlers.TotalPages | internal/infra/webserver/handlers/product_handlers.go:244-246 | for a positive limit and a non-negative count, the result n is the least number of limit-sized pages that hold the count: (n-1)*limit < count <= n*limit |
| ProductHandlers.CeilingBracket | internal/infra/webserver/handlers/product_handlers.go:244-246 | the real ceiling of count/limit, for a positive limit, is bracketed by multiples of the limit: (n-1)*limit < count <= n*limit |
| ProductHandlersLemmas.NormalizeIsIdempotent | internal/infra/webserver/handlers/product_handlers.go:217-232 | feeding a normalised page or limit back through normalisation changes nothing |
| ProductHandlers.ScaleBracket | internal/infra/webserver/handlers/product_handlers.go:244-246 | a number within one of count/limit, rounded up, is bracketed by multiples of the limit: (n-1)*limit < count <= n*limit |
| ProductHandlersLemmas.TotalPagesIsCeiling | internal/infra/webserver/handlers/product_handlers.go:244-246 | for a positive limit, TotalPages is ceil(count/limit): (n-1)*limit < count <= n*limit; it is 0 exactly when count is 0, and at least 1 otherwise |
| ProductHandlersLemmas.TotalPagesNegativeLimit | internal/infra/webserver/handlers/product_handlers.go:221-246 | a negative limit, which normalisation lets through, gives a page count of 0 or less |
| ProductHandlers.Merge | internal/infra/webserver/handlers/product_handlers.go:136-146 | the merge never changes the id, and a valid product stays valid |
| ProductHandlersLemmas.MergeIsConservative | internal/infra/webserver/handlers/product_handlers.go:136-146 | name and description change only when a non-empty value is supplied, the price only when the new value is at least 1.0, and then each takes exactly the supplied value |
| ProductHandlersLemmas.MergeOfBlankIsIdentity | internal/infra/webserver/handlers/product_handlers.go:136-146 | an update with blank name and description and a price below 1.0, such as `{price: 0}`, leaves the product unchanged |
| ProductHandlersLemmas.MergeIsIdempotent | internal/infra/webserver/handlers/product_handlers.go:136-146 | applying the same update twice equals applying it once |
| ProductHandlers.CreateProduct | internal/infra/webserver/handlers/product_handlers.go:36-63 | 400 exactly when the body did not decode or the constructor rejects it; 500 exactly when a valid product cannot be inserted; otherwise 201, and exactly one product with the new id and the given fields is appended; on 400 or 500 the store is unchanged; the store invariant (unique ids, valid products) is kept |
| ProductHandlers.GetProduct | internal/infra/webserver/handlers/product_handlers.go:79-95 | 400 exactly for an empty id; 404 exactly when the lookup fails (unknown id or a failing store); 200 returns a stored product with that id; the store never changes |
| ProductHandlers.UpdateProduct | internal/infra/webserver/handlers/product_handlers.go:112-157 | 400 exactly for an empty id, or for a stored id whose body did not decode; 404 exactly when the lookup fails, whatever the body, since the lookup comes before decoding; 500 exactly when the write fails; 200 exactly for a stored id, a decoded body and a working store; only 200 changes the store, overwriting the row of that id with the merged product and leaving every other row as it was; the store invariant is kept |
| ProductHandlers.DeleteProduct | internal/infra/webserver/handlers/product_handlers.go:172-196 | 400 exactly for an empty id; 404 exactly when the lookup fails, with the store unchanged; 500 exactly when the removal fails; on 200 the store is the old rows without those of that id, the others kept in insertion order; the store invariant is kept |
| ProductHandlers.FetchProducts | internal/infra/webserver/handlers/product_handlers.go:212-257 | 500 exactly when FindAll fails, and a failing count does not change the status; on 200 the items are the repository page for the normalised page and limit, ItemsAmount is their number, and TotalPages is computed from the count, or from 0 when counting failed; the store never changes |
| ProductHandlersLemmas.FetchedPagesCoverStore | internal/infra/webserver/handlers/product_handlers.go:212-257 | for a positive limit and a working store, walking GET /products from page 1 to the TotalPages the handler reports lists every product exactly once in listing order, each of those pages is non-empty, and the next page is empty |
| ProductHandlersLemmas.FetchHoldsAtMostLimit | internal/infra/webserver/handlers/product_handlers.go:234-252 | for a positive limit a listing holds at most `limit` products, and ItemsAmount is its length |
| ProductHandlersLemmas.CreateThenGet | internal/infra/webserver/handlers/product_handlers.go:36-95 | after a 201 from POST, GET of the new id returns 200 with the product holding exactly the posted fields |
| ProductHandlersLemmas.UpdateThenGet | internal/infra/webserver/handlers/product_handlers.go:79-157 | after a 200 from PUT, GET of the id returns 200 with the previously stored product merged with the update body |
| ProductHandlersLemmas.DeleteThenGet | internal/infra/webserver/handlers/product_handlers.go:79-196 | after a 200 from DELETE, GET of the id returns 404 |

## Left out

- HTTP and JSON plumbing is left out: URL parameters, decoding request bodies, encoding responses, headers and response writing. A request arrives already decoded, with `None` for a body that failed to decode. The response is a status and a `Body`. Error messages are represented by the kind of error, not by its text.
- `strconv.Atoi` is left out. A query parameter arrives already parsed as `Option<int>`, and out-of-range input is `None`, as Atoi reports it.
- Float arithmetic is left out. Prices are exact reals. `TotalPages` is the exact ceiling of count/limit, with no float64 rounding and no overflow in the conversion back to `int`. Go `int` is unbounded in the model.
- ProductHandlers.NormalizePage and ProductHandlers.NormalizeLimit take the parsed value, so the 64-bit range check of `strconv.Atoi` is not modelled.
- UUID generation and parsing (`pkg/entity/id.go`) are left out. An identifier is an opaque non-empty string, and the newly generated one is a parameter. UUIDs are only statistically unique, so an id that is already stored is not excluded by a precondition. It makes the insert fail with a duplicate key, and the handler answers 500.
- The entity's identifier checks are left out: an empty id and an unparseable id. A modelled identifier is never empty, and every modelled id is treated as well formed.
- Sort order evidence is limited. The sources only show `"asc"`, which is insertion order. `"desc"` is modelled as newest first, the documented meaning of that value. Any other value is modelled as insertion order.
- Repository failures other than a missing row or a duplicate key are not modelled one by one: connection errors, driver errors and constraint errors. They are the calls named in `Db.failing`. Transactions and concurrent requests are not modelled, because each request is one step on the store.
- User registration and login (`user_handlers.go`) are left out. They are wrappers over bcrypt hashing and JWT signing. On a wrong password the login handler first writes status 400 (user_handlers.go:97) and then builds its error message from an error value that is nil at that point (user_handlers.go:98), which panics. The status is already written, so the 500 that the recovery middleware tries to write comes too late: the client gets 400 with an empty body.
- Configuration loading, server wiring, schema migration, the auth middleware (the 401 on a missing token) and the test database helper are left out. They are I/O and bootstrap.
