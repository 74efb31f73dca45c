/** The product HTTP handlers as pure functions: each takes the store and the
    already-decoded request, and yields the status, the response body and the
    store after the request. */
module ProductHandlers {
  import opened Wrappers
  import opened ProductEntity
  import opened ProductDb

  const StatusOK: int := 200
  const StatusCreated: int := 201
  const StatusBadRequest: int := 400
  const StatusNotFound: int := 404
  const StatusInternalServerError: int := 500

  /** Request body of POST /products. */
  datatype CreateProductInput = CreateProductInput(name: string, description: string, price: real)

  /** Request body of PUT /products/{id}: the fields that may change. */
  datatype UpdateProductInput = UpdateProductInput(name: string, description: string, price: real)

  /** Response body of GET /products. */
  datatype FetchProductsOutput = FetchProductsOutput(products: seq<Product>, itemsAmount: int, totalPages: int)

  /** What an error body's message reports. */
  datatype Failure = DecodeFailed | Rejected(reason: ProductError) | StoreFailed(cause: DbError)

  datatype Body =
    | NoBody
    | ErrorBody(failure: Failure)
    | ProductBody(product: Product)
    | ListingBody(listing: FetchProductsOutput)

  /** The response a handler writes, and the store after the request. */
  datatype Handled = Handled(status: int, body: Body, db: Db)

  /** Every stored product is well formed. */
  predicate AllValid(rows: seq<Product>) {
    forall i :: 0 <= i < |rows| ==> Valid(rows[i])
  }

  /** What the store keeps between requests: distinct keys, valid products. */
  predicate Invariant(db: Db) {
    UniqueIds(db.rows) && AllValid(db.rows)
  }

  // ---------------------------------------------------------------------
  // Query parameters of GET /products

  /** The `page` query parameter after parsing (`None` when it is absent or
      not an integer): a missing page and page 0 both become page 1. */
  function NormalizePage(parsed: Option<int>): (page: int)
    ensures page != 0
    ensures parsed.Some? && parsed.value != 0 ==> page == parsed.value
    ensures parsed.None? || parsed == Some(0) ==> page == 1
  {
    match parsed
    case None => 1
    case Some(n) => if n == 0 then 1 else n
  }

  /** The `limit` query parameter after parsing: a missing limit becomes 10,
      but a literal 0 becomes 1. */
  function NormalizeLimit(parsed: Option<int>): (limit: int)
    ensures limit != 0
    ensures parsed.Some? && parsed.value != 0 ==> limit == parsed.value
    ensures parsed.None? ==> limit == 10
    ensures parsed == Some(0) ==> limit == 1
  {
    var n := match parsed case None => 10 case Some(n) => n;
    if n == 0 then 1 else n
  }

  /** The number of pages, ceil(count / limit), computed over the reals.
      For a positive limit it is the least n with count <= n * limit. */
  function TotalPages(count: int, limit: int): (n: int)
    requires limit != 0
    ensures limit > 0 && count >= 0 ==> (n - 1) * limit < count <= n * limit
  {
    var n := -((-(count as real) / (limit as real)).Floor);
    assert limit > 0 && count >= 0 ==> (n - 1) * limit < count <= n * limit by {
      if limit > 0 && count >= 0 {
        CeilingBracket(count, limit, n);
      }
    }
    n
  }

  /** The real ceiling of count / limit lies between the integer multiples
      of the limit that bracket the count. */
  lemma CeilingBracket(count: nat, limit: int, n: int)
    requires limit > 0
    requires n == -((-(count as real) / (limit as real)).Floor)
    ensures (n - 1) * limit < count <= n * limit
  {
    var x := (count as real) / (limit as real);
    assert -(count as real) / (limit as real) == -x;
    assert (n - 1) as real < x <= n as real;
    ScaleBracket(n, count, limit);
  }

  /** Multiplying the bracket (n-1) < count/limit <= n by the positive limit. */
  lemma ScaleBracket(n: int, count: nat, limit: int)
    requires limit > 0
    requires var x := (count as real) / (limit as real); (n - 1) as real < x <= n as real
    ensures (n - 1) * limit < count <= n * limit
  {
  }

  // ---------------------------------------------------------------------
  // The partial-update merge

  /** Applies an update body to a stored product: name and description only
      when the supplied value is non-empty, the price only when it is at
      least 1.0; the identifier never changes. */
  function Merge(p: Product, input: UpdateProductInput): (q: Product)
    ensures q.id == p.id
    ensures Valid(p) ==> Valid(q)
  {
    p.(name := if input.name != "" then input.name else p.name,
       description := if input.description != "" then input.description else p.description,
       price := if input.price >= 1.0 then input.price else p.price)
  }

  // ---------------------------------------------------------------------
  // Handlers

  /** POST /products. */
  function CreateProduct(db: Db, body: Option<CreateProductInput>, newId: ID): (h: Handled)
    ensures h.status in {StatusCreated, StatusBadRequest, StatusInternalServerError}
    ensures h.status != StatusCreated ==> h.db == db && h.body.ErrorBody?
    ensures h.status == StatusBadRequest <==> body.None? || body.value.name == "" || body.value.price <= 0.0
    ensures h.status == StatusInternalServerError <==>
              body.Some? && body.value.name != "" && body.value.price > 0.0
              && (CreateCall in db.failing || HasId(db.rows, newId))
    ensures h.status == StatusCreated ==>
              h.body == NoBody && h.db.failing == db.failing
              && h.db.rows == db.rows + [Product(newId, body.value.name, body.value.description, body.value.price)]
    ensures Invariant(db) ==> Invariant(h.db)
  {
    match body
    case None => Handled(StatusBadRequest, ErrorBody(DecodeFailed), db)
    case Some(input) =>
      match NewProduct(input.name, input.description, input.price, newId)
      case Err(e) => Handled(StatusBadRequest, ErrorBody(Rejected(e)), db)
      case Ok(p) =>
        match Create(db, p)
        case Err(e) => Handled(StatusInternalServerError, ErrorBody(StoreFailed(e)), db)
        case Ok(db') =>
          assert db'.rows == db.rows + [p];
          Handled(StatusCreated, NoBody, db')
  }

  /** GET /products/{id}. */
  function GetProduct(db: Db, id: string): (h: Handled)
    ensures h.status in {StatusOK, StatusBadRequest, StatusNotFound}
    ensures h.db == db
    ensures h.status == StatusBadRequest <==> id == ""
    ensures h.status == StatusNotFound <==> id != "" && (FindByIdCall in db.failing || !HasId(db.rows, id))
    ensures h.status == StatusOK ==> h.body.ProductBody? && h.body.product.id == id && h.body.product in db.rows
  {
    if id == "" then Handled(StatusBadRequest, NoBody, db)
    else match FindById(db, id)
      case Err(e) => Handled(StatusNotFound, ErrorBody(StoreFailed(e)), db)
      case Ok(p) => Handled(StatusOK, ProductBody(p), db)
  }

  /** PUT /products/{id}: the product is looked up before the body is read. */
  function UpdateProduct(db: Db, id: string, body: Option<UpdateProductInput>): (h: Handled)
    ensures h.status in {StatusOK, StatusBadRequest, StatusNotFound, StatusInternalServerError}
    ensures h.status != StatusOK ==> h.db == db
    ensures h.status == StatusBadRequest <==>
              id == "" || (FindByIdCall !in db.failing && HasId(db.rows, id) && body.None?)
    ensures h.status == StatusNotFound <==> id != "" && (FindByIdCall in db.failing || !HasId(db.rows, id))
    ensures h.status == StatusOK <==>
              id != "" && FindByIdCall !in db.failing && UpdateCall !in db.failing && HasId(db.rows, id) && body.Some?
    ensures h.status == StatusInternalServerError <==>
              id != "" && FindByIdCall !in db.failing && HasId(db.rows, id) && body.Some? && UpdateCall in db.failing
    ensures h.status == StatusOK ==>
              body.Some? && HasId(db.rows, id) && h.db.failing == db.failing && |h.db.rows| == |db.rows|
              && forall i :: 0 <= i < |db.rows| ==>
                   h.db.rows[i] == (if db.rows[i].id == id then Merge(Lookup(db.rows, id).value, body.value) else db.rows[i])
    ensures Invariant(db) ==> Invariant(h.db)
  {
    if id == "" then Handled(StatusBadRequest, NoBody, db)
    else match FindById(db, id)
      case Err(e) => Handled(StatusNotFound, ErrorBody(StoreFailed(e)), db)
      case Ok(p) =>
        match body
        case None => Handled(StatusBadRequest, ErrorBody(DecodeFailed), db)
        case Some(input) =>
          var merged := Merge(p, input);
          match Update(db, merged)
          case Err(e) => Handled(StatusInternalServerError, ErrorBody(StoreFailed(e)), db)
          case Ok(db') => Handled(StatusOK, NoBody, db')
  }

  /** DELETE /products/{id}: the product is looked up before it is removed. */
  function DeleteProduct(db: Db, id: string): (h: Handled)
    ensures h.status in {StatusOK, StatusBadRequest, StatusNotFound, StatusInternalServerError}
    ensures h.status != StatusOK ==> h.db == db
    ensures h.status == StatusBadRequest <==> id == ""
    ensures h.status == StatusNotFound <==> id != "" && (FindByIdCall in db.failing || !HasId(db.rows, id))
    ensures h.status == StatusInternalServerError <==>
              id != "" && FindByIdCall !in db.failing && HasId(db.rows, id) && DeleteCall in db.failing
    ensures h.status == StatusOK ==>
              h.db.failing == db.failing && h.db.rows == Without(db.rows, id)
              && !HasId(h.db.rows, id)
              && forall p :: p in h.db.rows <==> p in db.rows && p.id != id
    ensures Invariant(db) ==> Invariant(h.db)
  {
    if id == "" then Handled(StatusBadRequest, NoBody, db)
    else match FindById(db, id)
      case Err(e) => Handled(StatusNotFound, ErrorBody(StoreFailed(e)), db)
      case Ok(_) =>
        match Delete(db, id)
        case Err(e) => Handled(StatusInternalServerError, ErrorBody(StoreFailed(e)), db)
        case Ok(db') =>
          WithoutKeepsUnique(db.rows, id);
          Handled(StatusOK, NoBody, db')
  }

  /** GET /products?page=&limit=&sort=: one page of products, how many it
      holds, and how many pages there are. A failed count is not reported;
      the page count is then computed from zero. */
  function FetchProducts(db: Db, page: Option<int>, limit: Option<int>, sort: string): (h: Handled)
    ensures h.db == db
    ensures h.status in {StatusOK, StatusInternalServerError}
    ensures h.status == StatusInternalServerError <==> FindAllCall in db.failing
    ensures h.status == StatusInternalServerError ==> h.body.ErrorBody?
    ensures h.status == StatusOK ==>
              h.body.ListingBody?
              && h.body.listing.itemsAmount == |h.body.listing.products|
              && FindAll(db, NormalizePage(page), NormalizeLimit(limit), sort) == Ok(h.body.listing.products)
              && h.body.listing.totalPages
                 == TotalPages(if CountCall in db.failing then 0 else |db.rows|, NormalizeLimit(limit))
  {
    var pageInt := NormalizePage(page);
    var limitInt := NormalizeLimit(limit);
    match FindAll(db, pageInt, limitInt, sort)
    case Err(e) => Handled(StatusInternalServerError, ErrorBody(StoreFailed(e)), db)
    case Ok(products) =>
      var count := match Count(db) case Ok(n) => n case Err(_) => 0;
      Handled(StatusOK, ListingBody(FetchProductsOutput(products, |products|, TotalPages(count, limitInt))), db)
  }
}
