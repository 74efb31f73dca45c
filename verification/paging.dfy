/** Offset pagination over a sequence of rows, the way the products query
    applies OFFSET and LIMIT, and the arrangement of rows by sort direction. */
module Paging {

  function Min(a: int, b: int): int {
    if a <= b then a else b
  }

  /** The rows in the opposite order. */
  function Reverse<T>(s: seq<T>): (r: seq<T>)
    ensures |r| == |s|
    ensures forall i :: 0 <= i < |s| ==> r[i] == s[|s| - 1 - i]
  {
    if s == [] then [] else Reverse(s[1..]) + [s[0]]
  }

  /** How many rows an offset skips: a non-positive offset skips none, an
      offset past the end skips all of them. */
  function Skipped(offset: int, n: nat): (k: nat)
    ensures k <= n
    ensures 0 <= offset <= n ==> k == offset
    ensures offset >= 0 ==> k == Min(offset, n)
  {
    if offset <= 0 then 0 else Min(offset, n)
  }

  /** The rows an OFFSET/LIMIT query returns: skip `offset` rows, then take at
      most `limit` of them; a negative limit takes all that remain. */
  function Window<T>(s: seq<T>, offset: int, limit: int): (w: seq<T>)
    ensures limit >= 0 ==> |w| == Min(limit, |s| - Skipped(offset, |s|))
    ensures limit < 0 ==> |w| == |s| - Skipped(offset, |s|)
    ensures forall i :: 0 <= i < |w| ==> Skipped(offset, |s|) + i < |s| && w[i] == s[Skipped(offset, |s|) + i]
  {
    var rest := s[Skipped(offset, |s|)..];
    if limit < 0 || limit >= |rest| then rest else rest[..limit]
  }

  /** The window of page `page` (counted from 1) when pages hold `limit` rows. */
  function Page<T>(s: seq<T>, page: int, limit: int): seq<T> {
    Window(s, (page - 1) * limit, limit)
  }

  /** Pages 1 through `k`, concatenated in page order. */
  function Pages<T>(s: seq<T>, limit: int, k: nat): seq<T> {
    if k == 0 then [] else Pages(s, limit, k - 1) + Page(s, k, limit)
  }

  /** With a positive page size, page `page` holds exactly the rows at
      positions (page-1)*limit up to page*limit, cut off at the end. */
  lemma PageIsSlice<T>(s: seq<T>, page: int, limit: int)
    requires page >= 1 && limit > 0
    ensures (page - 1) * limit >= 0
    ensures Page(s, page, limit) == s[Min((page - 1) * limit, |s|)..Min(page * limit, |s|)]
  {
  }

  /** The first `k` pages together are the first k*limit rows: consecutive
      pages neither overlap nor leave gaps. */
  lemma {:induction false} PagesArePrefix<T>(s: seq<T>, limit: int, k: nat)
    requires limit > 0
    ensures Pages(s, limit, k) == s[..Min(k * limit, |s|)]
  {
    if k > 0 {
      PagesArePrefix(s, limit, k - 1);
      PageIsSlice(s, k, limit);
      JoinSlices(s, Min((k - 1) * limit, |s|), Min(k * limit, |s|));
    }
  }

  /** A prefix followed by the slice after it is the longer prefix. */
  lemma JoinSlices<T>(s: seq<T>, a: int, b: int)
    requires 0 <= a <= b <= |s|
    ensures s[..a] + s[a..b] == s[..b]
  {
  }

  /** A page is empty exactly when its offset is at or past the last row. */
  lemma PageEmptyIff<T>(s: seq<T>, page: int, limit: int)
    requires page >= 1 && limit > 0
    ensures Page(s, page, limit) == [] <==> (page - 1) * limit >= |s|
  {
  }

  /** Page offsets grow with the page number. */
  lemma OffsetIsMonotone(k: int, n: int, limit: int)
    requires k <= n && limit > 0
    ensures (k - 1) * limit <= (n - 1) * limit
  {
  }

  /** When `n` pages of size `limit` are just enough for the rows, pages 1
      to n together are all the rows, each of them is non-empty, and page
      n+1 is empty. */
  lemma CeilingManyPages<T>(s: seq<T>, limit: int, n: nat)
    requires limit > 0
    requires (n - 1) * limit < |s| <= n * limit
    ensures Pages(s, limit, n) == s
    ensures forall k :: 1 <= k <= n ==> Page(s, k, limit) != []
    ensures Page(s, n + 1, limit) == []
  {
    PagesArePrefix(s, limit, n);
    assert s[..Min(n * limit, |s|)] == s;
    forall k | 1 <= k <= n
      ensures Page(s, k, limit) != []
    {
      OffsetIsMonotone(k, n, limit);
      PageEmptyIff(s, k, limit);
    }
    assert (n + 1 - 1) * limit == n * limit;
    PageEmptyIff(s, n + 1, limit);
  }
}
