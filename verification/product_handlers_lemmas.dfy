/** Properties of the product handlers: the page arithmetic of the listing,
    the update merge, and request sequences seen through the handlers. */
module ProductHandlersLemmas {
  import opened Wrappers
  import opened ProductEntity
  import opened ProductDb
  import opened ProductHandlers
  import Paging

  /** For a positive limit the page count is the ceiling of count / limit:
      the smallest number of limit-sized pages that hold every product. */
  lemma TotalPagesIsCeiling(count: nat, limit: int)
    requires limit > 0
    ensures (TotalPages(count, limit) - 1) * limit < count <= TotalPages(count, limit) * limit
    ensures TotalPages(count, limit) == 0 <==> count == 0
    ensures count > 0 ==> TotalPages(count, limit) >= 1
  {
    var n := TotalPages(count, limit);
    if n <= 0 {
      assert n * limit <= 0;
    } else {
      assert (n - 1) * limit >= 0;
    }
  }

  /** A negative limit passes through normalisation and yields a page count
      that is never positive. */
  lemma TotalPagesNegativeLimit(count: nat, limit: int)
    requires limit < 0
    ensures TotalPages(count, limit) <= 0
  {
  }

  /** Normalising an already normalised page or limit changes nothing. */
  lemma NormalizeIsIdempotent(parsed: Option<int>)
    ensures NormalizePage(Some(NormalizePage(parsed))) == NormalizePage(parsed)
    ensures NormalizeLimit(Some(NormalizeLimit(parsed))) == NormalizeLimit(parsed)
  {
  }

  /** The merge changes a field only when the update supplies a value that
      passes its threshold, and then takes exactly that value. */
  lemma MergeIsConservative(p: Product, input: UpdateProductInput)
    ensures Merge(p, input).name != p.name ==> input.name != ""
    ensures input.name != "" ==> Merge(p, input).name == input.name
    ensures Merge(p, input).description != p.description ==> input.description != ""
    ensures input.description != "" ==> Merge(p, input).description == input.description
    ensures Merge(p, input).price != p.price ==> input.price >= 1.0
    ensures input.price >= 1.0 ==> Merge(p, input).price == input.price
  {
  }

  /** An update body with only blank fields and a price below 1.0 (a price of
      0 included) leaves the product as it was. */
  lemma MergeOfBlankIsIdentity(p: Product, input: UpdateProductInput)
    requires input.name == "" && input.description == "" && input.price < 1.0
    ensures Merge(p, input) == p
  {
  }

  /** Applying the same update twice is the same as applying it once. */
  lemma MergeIsIdempotent(p: Product, input: UpdateProductInput)
    ensures Merge(Merge(p, input), input) == Merge(p, input)
  {
  }

  /** Walking the listing from page 1 to the TotalPages the handler
      reports returns every product once, in the listing's order; every one
      of those pages is non-empty and the page after the last is empty. */
  lemma FetchedPagesCoverStore(db: Db, limit: Option<int>, sort: string)
    requires FindAllCall !in db.failing && CountCall !in db.failing
    requires NormalizeLimit(limit) > 0
    ensures var n := FetchProducts(db, Some(1), limit, sort).body.listing.totalPages;
            && n >= 0
            && Paging.Pages(Arranged(db.rows, sort), NormalizeLimit(limit), n) == Arranged(db.rows, sort)
            && (forall k :: 1 <= k <= n ==> FetchProducts(db, Some(k), limit, sort).body.listing.products != [])
            && FetchProducts(db, Some(n + 1), limit, sort).body.listing.products == []
  {
    var l := NormalizeLimit(limit);
    var n := TotalPages(|db.rows|, l);
    TotalPagesIsCeiling(|db.rows|, l);
    Paging.CeilingManyPages(Arranged(db.rows, sort), l, n);
  }

  /** A listing holds at most `limit` products and reports how many. */
  lemma FetchHoldsAtMostLimit(db: Db, page: Option<int>, limit: Option<int>, sort: string)
    requires NormalizeLimit(limit) > 0
    requires FetchProducts(db, page, limit, sort).status == StatusOK
    ensures var out := FetchProducts(db, page, limit, sort).body.listing;
            out.itemsAmount == |out.products| <= NormalizeLimit(limit)
  {
  }

  /** A created product can be read back through GET /products/{id}. */
  lemma CreateThenGet(db: Db, input: CreateProductInput, newId: ID)
    requires CreateProduct(db, Some(input), newId).status == StatusCreated
    requires FindByIdCall !in db.failing
    ensures var h := GetProduct(CreateProduct(db, Some(input), newId).db, newId);
            h.status == StatusOK
            && h.body.product == Product(newId, input.name, input.description, input.price)
  {
  }

  /** A successful PUT is visible to a later GET, which returns the stored
      product merged with the update body. */
  lemma UpdateThenGet(db: Db, id: string, input: UpdateProductInput)
    requires UpdateProduct(db, id, Some(input)).status == StatusOK
    ensures var h := GetProduct(UpdateProduct(db, id, Some(input)).db, id);
            h.status == StatusOK
            && h.body.product == Merge(Lookup(db.rows, id).value, input)
  {
  }

  /** After a successful DELETE, GET of the same id is 404. */
  lemma DeleteThenGet(db: Db, id: string)
    requires DeleteProduct(db, id).status == StatusOK
    ensures GetProduct(DeleteProduct(db, id).db, id).status == StatusNotFound
  {
  }
}
