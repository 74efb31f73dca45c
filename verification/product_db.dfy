/** The product repository: the products table as a sequence of rows in
    insertion order, with create, find-by-id, paged find-all, update, delete
    and count. */
module ProductDb {
  import opened Wrappers
  import opened ProductEntity
  import Paging

  /** The repository calls; the backing store may fail any of them. */
  datatype Call = CreateCall | FindByIdCall | FindAllCall | UpdateCall | DeleteCall | CountCall

  datatype DbError = RecordNotFound | DuplicateKey | Unavailable

  /** The products table in insertion order, together with the calls the
      backing store fails (a lost connection, a driver error). */
  datatype Db = Db(rows: seq<Product>, failing: set<Call>)

  /** Some row carries identifier `id`. */
  predicate HasId(rows: seq<Product>, id: string) {
    exists i :: 0 <= i < |rows| && rows[i].id == id
  }

  /** The primary-key invariant: no two rows share an identifier. */
  predicate UniqueIds(rows: seq<Product>) {
    forall i, j :: 0 <= i < j < |rows| ==> rows[i].id != rows[j].id
  }

  /** Inserts `p` as the newest row; a row with the same primary key makes
      the insert fail. */
  function Create(db: Db, p: Product): (r: Result<Db, DbError>)
    ensures r.Ok? <==> CreateCall !in db.failing && !HasId(db.rows, p.id)
    ensures r.Ok? ==> r.value.failing == db.failing && |r.value.rows| == |db.rows| + 1
                      && r.value.rows[..|db.rows|] == db.rows && r.value.rows[|db.rows|] == p
    ensures r.Ok? && UniqueIds(db.rows) ==> UniqueIds(r.value.rows)
  {
    if CreateCall in db.failing then Err(Unavailable)
    else if HasId(db.rows, p.id) then Err(DuplicateKey)
    else Ok(db.(rows := db.rows + [p]))
  }

  /** The first row, in insertion order, with identifier `id`. */
  function Lookup(rows: seq<Product>, id: string): (r: Option<Product>)
    ensures r.Some? <==> HasId(rows, id)
    ensures r.Some? ==> r.value in rows && r.value.id == id
  {
    if rows == [] then None
    else if rows[0].id == id then Some(rows[0])
    else
      var r := Lookup(rows[1..], id);
      assert HasId(rows, id) ==> HasId(rows[1..], id) by {
        if HasId(rows, id) {
          var i :| 0 <= i < |rows| && rows[i].id == id;
          assert rows[1..][i - 1].id == id;
        }
      }
      r
  }

  /** Looks a product up by its identifier string. */
  function FindById(db: Db, id: string): (r: Result<Product, DbError>)
    ensures r.Ok? <==> FindByIdCall !in db.failing && HasId(db.rows, id)
    ensures r.Ok? ==> r.value in db.rows && r.value.id == id
    ensures r == Err(RecordNotFound) <==> FindByIdCall !in db.failing && !HasId(db.rows, id)
    ensures r.Err? ==> r.error != DuplicateKey
  {
    if FindByIdCall in db.failing then Err(Unavailable)
    else match Lookup(db.rows, id)
      case None => Err(RecordNotFound)
      case Some(p) => Ok(p)
  }

  /** The rows in the order a query sorts them: creation order, or the
      reverse of it for "desc". */
  function Arranged(rows: seq<Product>, sort: string): (r: seq<Product>)
    ensures sort != "desc" ==> r == rows
    ensures |r| == |rows|
    ensures sort == "desc" ==> forall i :: 0 <= i < |rows| ==> r[i] == rows[|rows| - 1 - i]
  {
    if sort == "desc" then Paging.Reverse(rows) else rows
  }

  /** One page of products: from offset (page-1)*limit of the sorted rows,
      at most `limit` of them. */
  function FindAll(db: Db, page: int, limit: int, sort: string): (r: Result<seq<Product>, DbError>)
    ensures r.Err? <==> FindAllCall in db.failing
    ensures r.Ok? && limit >= 0 ==> |r.value| <= limit
    ensures r.Ok? && page >= 1 && limit > 0 ==>
              |r.value| == Paging.Min(limit, |db.rows| - Paging.Min((page - 1) * limit, |db.rows|))
    ensures r.Ok? && limit < 0 ==>
              r.value == Arranged(db.rows, sort)[Paging.Skipped((page - 1) * limit, |db.rows|)..]
    ensures r.Ok? && page >= 1 && limit < 0 ==> r.value == Arranged(db.rows, sort)
    ensures r.Ok? && page >= 1 && limit > 0 ==>
              forall i :: 0 <= i < |r.value| ==>
                (page - 1) * limit + i < |db.rows|
                && r.value[i] == Arranged(db.rows, sort)[(page - 1) * limit + i]
  {
    if FindAllCall in db.failing then Err(Unavailable)
    else
      assert page >= 1 && limit < 0 ==> (page - 1) * limit <= 0 by {
        if page >= 1 && limit < 0 {
          assert (page - 1) * (-limit) >= 0;
        }
      }
      Ok(Paging.Page(Arranged(db.rows, sort), page, limit))
  }

  /** The rows with every row of `p.id` overwritten by `p`. */
  function Overwrite(rows: seq<Product>, p: Product): (r: seq<Product>)
    ensures |r| == |rows|
    ensures forall i :: 0 <= i < |rows| ==> r[i] == (if rows[i].id == p.id then p else rows[i])
  {
    seq(|rows|, i requires 0 <= i < |rows| => if rows[i].id == p.id then p else rows[i])
  }

  /** Overwrites the stored product whose identifier is `p.id`; an unknown
      identifier is an error. */
  function Update(db: Db, p: Product): (r: Result<Db, DbError>)
    ensures r.Ok? <==> FindByIdCall !in db.failing && UpdateCall !in db.failing && HasId(db.rows, p.id)
    ensures r.Ok? ==> r.value.failing == db.failing && r.value.rows == Overwrite(db.rows, p)
    ensures r.Ok? && UniqueIds(db.rows) ==> UniqueIds(r.value.rows)
  {
    match FindById(db, p.id)
    case Err(e) => Err(e)
    case Ok(_) => if UpdateCall in db.failing then Err(Unavailable) else Ok(db.(rows := Overwrite(db.rows, p)))
  }

  /** The rows without those of identifier `id`, the others kept in order. */
  function Without(rows: seq<Product>, id: string): (r: seq<Product>)
    ensures !HasId(r, id)
    ensures forall p :: p in r <==> p in rows && p.id != id
    ensures |r| <= |rows|
  {
    if rows == [] then []
    else if rows[0].id == id then Without(rows[1..], id)
    else [rows[0]] + Without(rows[1..], id)
  }

  /** Removing rows keeps the primary-key invariant. */
  lemma {:induction false} WithoutKeepsUnique(rows: seq<Product>, id: string)
    ensures UniqueIds(rows) ==> UniqueIds(Without(rows, id))
  {
    if rows != [] && UniqueIds(rows) {
      var tail := rows[1..];
      assert UniqueIds(tail);
      WithoutKeepsUnique(tail, id);
      if rows[0].id != id {
        var w := Without(tail, id);
        forall k | 0 <= k < |w|
          ensures w[k].id != rows[0].id
        {
          assert w[k] in tail;
        }
        assert Without(rows, id) == [rows[0]] + w;
      }
    }
  }

  /** Physically removes the product with identifier `id`; an unknown
      identifier is an error. */
  function Delete(db: Db, id: string): (r: Result<Db, DbError>)
    ensures r.Ok? <==> FindByIdCall !in db.failing && DeleteCall !in db.failing && HasId(db.rows, id)
    ensures r.Ok? ==> r.value.failing == db.failing && r.value.rows == Without(db.rows, id)
  {
    match FindById(db, id)
    case Err(e) => Err(e)
    case Ok(_) => if DeleteCall in db.failing then Err(Unavailable) else Ok(db.(rows := Without(db.rows, id)))
  }

  /** The number of stored products. */
  function Count(db: Db): (r: Result<nat, DbError>)
    ensures r.Err? <==> CountCall in db.failing
    ensures r.Ok? ==> r.value == |db.rows|
  {
    if CountCall in db.failing then Err(Unavailable) else Ok(|db.rows|)
  }
}
