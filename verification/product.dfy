/** The product entity: a value with an identifier, a name, a description and a
    price, built through a constructor that validates it. */
module ProductEntity {
  import opened Wrappers

  /** A product identifier in its canonical string form. A generated
      identifier is never empty. */
  type ID = s: string | |s| > 0 witness "0"

  datatype Product = Product(id: ID, name: string, description: string, price: real)

  /** The three validation errors of the entity. */
  datatype ProductError = NameIsRequired | PriceIsRequired | InvalidPrice

  /** A well-formed product has a name and a strictly positive price; the
      description may be empty. */
  predicate Valid(p: Product) {
    p.name != "" && p.price > 0.0
  }

  /** Re-runs the entity checks on the current field values: the name first,
      then a zero price, then a negative price. `None` means no error. */
  function Validate(p: Product): (r: Option<ProductError>)
    ensures r.None? <==> Valid(p)
    ensures r == Some(NameIsRequired) <==> p.name == ""
    ensures r == Some(PriceIsRequired) <==> p.name != "" && p.price == 0.0
    ensures r == Some(InvalidPrice) <==> p.name != "" && p.price < 0.0
  {
    if p.name == "" then Some(NameIsRequired)
    else if p.price == 0.0 then Some(PriceIsRequired)
    else if p.price < 0.0 then Some(InvalidPrice)
    else None
  }

  /** Builds a product under the freshly generated identifier `newId` and
      validates it; on an error no product is returned. */
  function NewProduct(name: string, description: string, price: real, newId: ID): (r: Result<Product, ProductError>)
    ensures r.Ok? <==> name != "" && price > 0.0
    ensures r.Ok? ==> r.value.id == newId && r.value.name == name
                      && r.value.description == description && r.value.price == price
    ensures r.Ok? ==> Validate(r.value).None?
    ensures r == Err(NameIsRequired) <==> name == ""
    ensures r == Err(PriceIsRequired) <==> name != "" && price == 0.0
    ensures r == Err(InvalidPrice) <==> name != "" && price < 0.0
  {
    var p := Product(newId, name, description, price);
    match Validate(p)
    case Some(e) => Err(e)
    case None => Ok(p)
  }
}
