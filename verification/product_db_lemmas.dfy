/** Properties of the product repository that relate several calls: the
    round trips the repository tests exercise, the primary-key invariant,
    counting and pagination. */
module ProductDbLemmas {
  import opened Wrappers
  import opened ProductEntity
  import opened ProductDb
  import Paging

  /** With unique identifiers, looking up the identifier of row `i` finds
      exactly that row. */
  lemma LookupFindsTheRow(rows: seq<Product>, i: int)
    requires UniqueIds(rows) && 0 <= i < |rows|
    ensures Lookup(rows, rows[i].id) == Some(rows[i])
  {
  }

  /** Create then FindByID with the same identifier returns the product
      that was stored, equal in id, name, description and price. */
  lemma CreateThenFind(db: Db, p: Product)
    requires CreateCall !in db.failing && FindByIdCall !in db.failing
    requires !HasId(db.rows, p.id)
    ensures Create(db, p).Ok?
    ensures FindById(Create(db, p).value, p.id) == Ok(p)
  {
  }

  /** After Update, looking the identifier up sees the new version. */
  lemma UpdateThenFind(db: Db, p: Product)
    requires FindByIdCall !in db.failing && UpdateCall !in db.failing
    requires HasId(db.rows, p.id)
    ensures Update(db, p).Ok?
    ensures FindById(Update(db, p).value, p.id) == Ok(p)
  {
  }

  /** Update keeps every other product and the number of products. */
  lemma UpdateKeepsOthers(db: Db, p: Product, id: string)
    requires Update(db, p).Ok? && id != p.id
    ensures |Update(db, p).value.rows| == |db.rows|
    ensures Lookup(Update(db, p).value.rows, id) == Lookup(db.rows, id)
  {
    LookupOverwriteOther(db.rows, p, id);
  }

  /** Overwriting the rows of one identifier is invisible to lookups of
      any other identifier. */
  lemma {:induction false} LookupOverwriteOther(rows: seq<Product>, p: Product, id: string)
    requires id != p.id
    ensures Lookup(Overwrite(rows, p), id) == Lookup(rows, id)
  {
    if rows != [] {
      assert Overwrite(rows, p)[1..] == Overwrite(rows[1..], p);
      LookupOverwriteOther(rows[1..], p, id);
    }
  }

  /** After Delete(id), looking that id up fails with "record not found". */
  lemma DeleteThenFind(db: Db, id: string)
    requires Delete(db, id).Ok?
    requires FindByIdCall !in db.failing
    ensures FindById(Delete(db, id).value, id) == Err(RecordNotFound)
  {
  }

  /** With unique identifiers, Delete removes exactly the one product it
      found and keeps the others in insertion order. */
  lemma {:induction false} WithoutRemovesOne(rows: seq<Product>, i: int)
    requires UniqueIds(rows) && 0 <= i < |rows|
    ensures Without(rows, rows[i].id) == rows[..i] + rows[i + 1..]
  {
    var id := rows[i].id;
    var tail := rows[1..];
    if i == 0 {
      HeadIdNotInTail(rows);
      WithoutAbsent(tail, id);
    } else {
      assert UniqueIds(tail);
      assert tail[i - 1] == rows[i];
      WithoutRemovesOne(tail, i - 1);
      assert rows[..i] == [rows[0]] + tail[..i - 1];
      assert rows[i + 1..] == tail[i..];
    }
  }

  /** With unique identifiers, the first row's identifier does not occur
      again. */
  lemma HeadIdNotInTail(rows: seq<Product>)
    requires UniqueIds(rows) && rows != []
    ensures !HasId(rows[1..], rows[0].id)
  {
  }

  /** Removing an identifier no row carries changes nothing. */
  lemma {:induction false} WithoutAbsent(rows: seq<Product>, id: string)
    requires !HasId(rows, id)
    ensures Without(rows, id) == rows
  {
    if rows != [] {
      WithoutAbsent(rows[1..], id);
      assert rows == [rows[0]] + rows[1..];
    }
  }

  /** Removing one row keeps the remaining identifiers distinct. */
  lemma RemovalKeepsUnique(rows: seq<Product>, i: int)
    requires UniqueIds(rows) && 0 <= i < |rows|
    ensures UniqueIds(rows[..i] + rows[i + 1..])
  {
  }

  /** With unique identifiers, a successful Delete removes exactly the one
      product it found, keeps the others in order, and keeps the invariant. */
  lemma DeleteRemovesExactlyOne(db: Db, id: string)
    requires UniqueIds(db.rows)
    requires Delete(db, id).Ok?
    ensures |Delete(db, id).value.rows| == |db.rows| - 1
    ensures exists i :: 0 <= i < |db.rows| && db.rows[i].id == id
                        && Delete(db, id).value.rows == db.rows[..i] + db.rows[i + 1..]
    ensures UniqueIds(Delete(db, id).value.rows)
  {
    var i :| 0 <= i < |db.rows| && db.rows[i].id == id;
    WithoutRemovesOne(db.rows, i);
    RemovalKeepsUnique(db.rows, i);
  }

  /** Inserting the products of `ps` one by one, stopping at the first error. */
  function CreateAll(db: Db, ps: seq<Product>): Result<Db, DbError>
    decreases |ps|
  {
    if ps == [] then Ok(db)
    else match Create(db, ps[0])
      case Err(e) => Err(e)
      case Ok(db1) => CreateAll(db1, ps[1..])
  }

  /** Inserting products with distinct, unused identifiers appends them in
      the order they were inserted. */
  lemma {:induction false} CreateAllAppends(db: Db, ps: seq<Product>)
    requires CreateCall !in db.failing
    requires UniqueIds(db.rows + ps)
    ensures CreateAll(db, ps) == Ok(db.(rows := db.rows + ps))
    decreases |ps|
  {
    if ps != [] {
      var all := db.rows + ps;
      assert !HasId(db.rows, ps[0].id) by {
        forall k | 0 <= k < |db.rows|
          ensures db.rows[k].id != ps[0].id
        {
          assert all[k] == db.rows[k] && all[|db.rows|] == ps[0];
        }
      }
      var db1 := db.(rows := db.rows + [ps[0]]);
      assert Create(db, ps[0]) == Ok(db1);
      assert db1.rows + ps[1..] == all;
      CreateAllAppends(db1, ps[1..]);
      assert UniqueIds(db1.rows + ps[1..]);
      assert CreateAll(db, ps) == CreateAll(db1, ps[1..]);
      assert db1.(rows := db1.rows + ps[1..]) == db.(rows := db.rows + ps);
    } else {
      assert db.rows + ps == db.rows;
    }
  }

  /** GetProductsCount on a fresh store equals the number of products
      inserted. */
  lemma CountAfterInserts(failing: set<Call>, ps: seq<Product>)
    requires CreateCall !in failing && CountCall !in failing
    requires UniqueIds(ps)
    ensures CreateAll(Db([], failing), ps).Ok?
    ensures Count(CreateAll(Db([], failing), ps).value) == Ok(|ps|)
  {
    assert [] + ps == ps;
    CreateAllAppends(Db([], failing), ps);
  }

  /** Sorting by direction only rearranges the rows. */
  lemma {:induction false} ReverseIsPermutation(rows: seq<Product>)
    ensures multiset(Paging.Reverse(rows)) == multiset(rows)
  {
    if rows != [] {
      ReverseIsPermutation(rows[1..]);
      assert rows == [rows[0]] + rows[1..];
    }
  }

  lemma ArrangedIsPermutation(rows: seq<Product>, sort: string)
    ensures multiset(Arranged(rows, sort)) == multiset(rows)
  {
    ReverseIsPermutation(rows);
  }

  /** In ascending order, FindAll(page, limit) returns the stored items from
      offset (page-1)*limit in insertion order, at most `limit` of them. */
  lemma FindAllAscending(db: Db, page: int, limit: int)
    requires FindAllCall !in db.failing
    requires page >= 1 && limit > 0
    ensures (page - 1) * limit >= 0
    ensures FindAll(db, page, limit, "asc")
            == Ok(db.rows[Paging.Min((page - 1) * limit, |db.rows|)..Paging.Min(page * limit, |db.rows|)])
  {
    Paging.PageIsSlice(db.rows, page, limit);
  }

  /** Twenty-three products in pages of ten: pages 1 and 2 hold ten items
      each, page 3 holds the last three. */
  lemma TwentyThreeInPagesOfTen(db: Db)
    requires FindAllCall !in db.failing && |db.rows| == 23
    ensures FindAll(db, 1, 10, "asc") == Ok(db.rows[..10])
    ensures FindAll(db, 2, 10, "asc") == Ok(db.rows[10..20])
    ensures FindAll(db, 3, 10, "asc") == Ok(db.rows[20..23])
    ensures |db.rows[20..23]| == 3
  {
    FindAllAscending(db, 1, 10);
    FindAllAscending(db, 2, 10);
    FindAllAscending(db, 3, 10);
  }

  /** A page number below 1 passes through the handler unchanged; its
      negative offset skips nothing, so it reads the first page. */
  lemma NonPositivePageIsFirstPage(db: Db, page: int, limit: int, sort: string)
    requires page <= 0 && limit > 0
    ensures FindAll(db, page, limit, sort) == FindAll(db, 1, limit, sort)
  {
  }
}
