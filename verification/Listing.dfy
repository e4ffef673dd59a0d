/** The survey list: filters, ordering, clamped offset paging in machine integers. */
module Listing {
  import opened Base
  import opened Search

  const DEFAULT_PAGE_SIZE := 10
  const MAX_PAGE_SIZE := 100
  const SEARCH_LIMIT := 10
  const MAX_INT32: int := 0x7FFF_FFFF
  const MAX_INT64: int := 0x7FFF_FFFF_FFFF_FFFF

  /** A row of the survey table: proxy key, creation time and the listed columns. */
  datatype Row = Row(id: nat, createdAt: int, owner: string, typ: string, title: string, status: string)

  /** None means the condition does not apply. The keyword is the trimmed one, not yet escaped. */
  datatype Filter = Filter(owner: Option<string>, keyword: Option<string>, status: Option<string>, typ: Option<string>)

  // ---------- the two queries ----------

  predicate Matches(fold: char -> char, r: Row, f: Filter) {
    && (f.owner.Some? ==> r.owner == f.owner.value)
    && (f.keyword.Some? ==> ILike(fold, r.title, ContainsPattern(f.keyword.value)))
    && (f.status.Some? ==> r.status == f.status.value)
    && (f.typ.Some? ==> r.typ == f.typ.value)
  }

  function Select(fold: char -> char, rows: seq<Row>, f: Filter): seq<Row> {
    if rows == [] then []
    else
      var n := |rows| - 1;
      Select(fold, rows[..n], f) + if Matches(fold, rows[n], f) then [rows[n]] else []
  }

  /** ORDER BY created_at DESC, id DESC. */
  predicate Precedes(a: Row, b: Row) {
    a.createdAt > b.createdAt || (a.createdAt == b.createdAt && a.id > b.id)
  }

  predicate Ordered(rows: seq<Row>) {
    forall i, j :: 0 <= i < j < |rows| ==> !Precedes(rows[j], rows[i])
  }

  function InsertRow(r: Row, rows: seq<Row>): seq<Row> {
    if rows == [] || Precedes(r, rows[0]) then [r] + rows else [rows[0]] + InsertRow(r, rows[1..])
  }

  function Order(rows: seq<Row>): seq<Row> {
    if rows == [] then [] else InsertRow(rows[0], Order(rows[1..]))
  }

  function Window(rows: seq<Row>, limit: nat, offset: nat): seq<Row> {
    if offset >= |rows| then []
    else if offset + limit >= |rows| then rows[offset..]
    else rows[offset..offset + limit]
  }

  lemma {:induction false} InsertKeepsRows(r: Row, rows: seq<Row>)
    ensures multiset(InsertRow(r, rows)) == multiset(rows) + multiset{r}
    ensures forall x :: x in InsertRow(r, rows) ==> x == r || x in rows
  {
    if rows != [] && !Precedes(r, rows[0]) {
      InsertKeepsRows(r, rows[1..]);
      assert rows == [rows[0]] + rows[1..];
    }
  }

  lemma {:induction false} InsertOrders(r: Row, rows: seq<Row>)
    requires Ordered(rows)
    ensures Ordered(InsertRow(r, rows))
  {
    if rows == [] || Precedes(r, rows[0]) {
      forall i | 0 <= i < |rows| ensures !Precedes(rows[i], r) {
        assert i > 0 ==> !Precedes(rows[i], rows[0]);
      }
    } else {
      InsertOrders(r, rows[1..]);
      InsertKeepsRows(r, rows[1..]);
      forall x | x in InsertRow(r, rows[1..]) ensures !Precedes(x, rows[0]) {
        assert x == r || x in rows[1..];
      }
    }
  }

  /** The ordered list holds the same rows, latest first, proxy key breaking ties. */
  lemma {:induction false} OrderCorrect(rows: seq<Row>)
    ensures Ordered(Order(rows)) && multiset(Order(rows)) == multiset(rows)
  {
    if rows != [] {
      OrderCorrect(rows[1..]);
      InsertOrders(rows[0], Order(rows[1..]));
      InsertKeepsRows(rows[0], Order(rows[1..]));
      assert rows == [rows[0]] + rows[1..];
    }
  }

  /** Newer rows come first, and of two rows created together the one with the greater key. */
  lemma NewestFirst(rows: seq<Row>, i: nat, j: nat)
    requires i < j < |Order(rows)|
    ensures var a, b := Order(rows)[i], Order(rows)[j];
            a.createdAt > b.createdAt || (a.createdAt == b.createdAt && a.id >= b.id)
  {
    OrderCorrect(rows);
  }

  predicate DistinctIds(rows: seq<Row>) {
    forall i, j :: 0 <= i < j < |rows| ==> rows[i].id != rows[j].id
  }

  /** Nothing in an ordered list precedes its head. */
  lemma HeadIsFirst(rows: seq<Row>, r: Row)
    requires Ordered(rows) && r in rows
    ensures !Precedes(r, rows[0])
  {
  }

  /** With distinct proxy keys there is only one such list, so the database has no choice. */
  lemma {:induction false} OrderUnique(xs: seq<Row>, ys: seq<Row>)
    requires Ordered(xs) && Ordered(ys) && multiset(xs) == multiset(ys) && DistinctIds(xs)
    ensures xs == ys
  {
    assert |multiset(xs)| == |xs| && |multiset(ys)| == |ys|;
    if xs != [] {
      SameHead(xs, ys);
      TailRows(xs);
      TailRows(ys);
      OrderUnique(xs[1..], ys[1..]);
    }
  }

  lemma {:induction false} TailRows(rows: seq<Row>)
    requires rows != []
    ensures multiset(rows[1..]) == multiset(rows) - multiset{rows[0]} && rows == [rows[0]] + rows[1..]
  {
    assert rows == [rows[0]] + rows[1..];
  }

  lemma SameHead(xs: seq<Row>, ys: seq<Row>)
    requires Ordered(xs) && Ordered(ys) && multiset(xs) == multiset(ys) && DistinctIds(xs) && xs != [] && ys != []
    ensures xs[0] == ys[0]
  {
    assert ys[0] in multiset(xs) && xs[0] in multiset(ys);
    HeadIsFirst(xs, ys[0]);
    HeadIsFirst(ys, xs[0]);
    SameIdSameRow(xs, ys[0]);
  }

  lemma SameIdSameRow(rows: seq<Row>, r: Row)
    requires DistinctIds(rows) && r in rows && r.id == rows[0].id
    ensures r == rows[0]
  {
  }

  // ---------- paging arithmetic ----------

  /** Two's-complement wrap-around to 64 and 32 bits. */
  function Wrap64(x: int): int {
    var m := x % 0x1_0000_0000_0000_0000;
    if m > MAX_INT64 then m - 0x1_0000_0000_0000_0000 else m
  }

  function Wrap32(x: int): int {
    var m := x % 0x1_0000_0000;
    if m > MAX_INT32 then m - 0x1_0000_0000 else m
  }

  function PageSize(requested: int): int {
    if requested <= 0 then DEFAULT_PAGE_SIZE else if requested > MAX_PAGE_SIZE then MAX_PAGE_SIZE else requested
  }

  /** Rows before a page, as the exact product. */
  function RowsBefore(requested: int, page: int): int {
    (if page < 1 then 0 else page - 1) * PageSize(requested)
  }

  function Offset(requested: int, page: int): int {
    var product := Wrap64(RowsBefore(requested, page));
    Wrap32(if product > MAX_INT32 then MAX_INT32 else product)
  }

  function Clamped(x: int): int {
    if x > MAX_INT32 then MAX_INT32 else x
  }

  method PageWindow(limit: int, page: int) returns (lim: int, off: int)
    ensures lim == PageSize(limit) && 1 <= lim <= 100
    ensures off == Offset(limit, page)
  {
    var size := limit;
    if size <= 0 {
      size := DEFAULT_PAGE_SIZE;
    }
    if size > MAX_PAGE_SIZE {
      size := MAX_PAGE_SIZE;
    }
    var p := page;
    if p < 1 {
      p := 1;
    }
    var offset := Wrap64((p - 1) * size);
    if offset > MAX_INT32 {
      offset := MAX_INT32;
    }
    lim, off := size, Wrap32(offset);
  }

  /** The offset is the clamped number of rows before the page exactly when that number fits 64
      bits, or its residue happens to be cut to the clamp; it is negative exactly when both its
      64-bit and its 32-bit residue have the sign bit set. */
  lemma OffsetExactly(limit: int, page: int)
    requires page <= MAX_INT64
    ensures RowsBefore(limit, page) >= 0
    ensures RowsBefore(limit, page) <= MAX_INT64 ==> Offset(limit, page) == Clamped(RowsBefore(limit, page))
    ensures Offset(limit, page) == Clamped(RowsBefore(limit, page)) <==>
            RowsBefore(limit, page) <= MAX_INT64 ||
            MAX_INT32 <= RowsBefore(limit, page) % 0x1_0000_0000_0000_0000 <= MAX_INT64 ||
            RowsBefore(limit, page) % 0x1_0000_0000 == MAX_INT32
    ensures Offset(limit, page) < 0 <==>
            RowsBefore(limit, page) % 0x1_0000_0000_0000_0000 > MAX_INT64 &&
            RowsBefore(limit, page) % 0x1_0000_0000 > MAX_INT32
  {
    var before := if page < 1 then 0 else page - 1;
    ProductNonNegative(before, PageSize(limit));
    ResidueOfResidue(RowsBefore(limit, page));
  }

  /** The low 32 bits are the same before and after the cut to 64 bits. */
  lemma ResidueOfResidue(x: int)
    ensures Wrap64(x) % 0x1_0000_0000 == x % 0x1_0000_0000
  {
    var k := if x % 0x1_0000_0000_0000_0000 > MAX_INT64 then 1 else 0;
    assert Wrap64(x) == x - (x / 0x1_0000_0000_0000_0000 + k) * 0x1_0000_0000_0000_0000;
  }

  lemma ProductNonNegative(a: int, b: int)
    requires a >= 0 && b >= 0
    ensures a * b >= 0
  {
  }

  /** A page far out whose product wraps comes back as the first page, or is refused. */
  lemma WrappedPageIsFirst()
    ensures Offset(2, 0x4000_0000_4000_0001) == -0x8000_0000
    ensures Offset(100, 0x4000_0000_0000_0001) == 0 != Clamped(RowsBefore(100, 0x4000_0000_0000_0001))
  {
  }

  // ---------- a whole request ----------

  /** One list request: a search locks the first ten rows, otherwise the requested page. The total
      comes from its own query. A wrapped product can make the offset negative, which the database
      refuses. */
  method List(rows: seq<Row>, fold: char -> char, f: Filter, limit: int, page: int) returns (ok: bool, items: seq<Row>, total: nat)
    ensures ok <==> f.keyword.Some? || Offset(limit, page) >= 0
    ensures ok ==> total == |Select(fold, rows, f)|
    ensures ok && f.keyword.Some? ==> items == Window(Order(Select(fold, rows, f)), SEARCH_LIMIT, 0)
    ensures ok && f.keyword.None? ==> items == Window(Order(Select(fold, rows, f)), PageSize(limit), Offset(limit, page))
    ensures f.keyword.Some? ==> items <= Order(Select(fold, rows, f)) && |items| == if total < 10 then total else 10
    ensures f.keyword.None? && RowsBefore(limit, page) <= MAX_INT64 ==>
              ok && items == Page(Order(Select(fold, rows, f)), limit, page)
  {
    var lim, off := SEARCH_LIMIT, 0;
    if f.keyword.None? {
      lim, off := PageWindow(limit, page);
      if RowsBefore(limit, page) <= MAX_INT64 {
        OffsetInRange(limit, page);
      }
    }
    if off < 0 {
      return false, [], 0;
    }
    var selected := Select(fold, rows, f);
    OrderKeepsLength(selected);
    return true, Window(Order(selected), lim, off), |selected|;
  }

  lemma {:induction false} OrderKeepsLength(rows: seq<Row>)
    ensures |Order(rows)| == |rows|
  {
    OrderCorrect(rows);
    assert |multiset(Order(rows))| == |Order(rows)| && |multiset(rows)| == |rows|;
  }

  lemma OffsetInRange(limit: int, page: int)
    requires RowsBefore(limit, page) <= MAX_INT64
    ensures Offset(limit, page) == Clamped(RowsBefore(limit, page)) >= 0
  {
    ProductNonNegative(if page < 1 then 0 else page - 1, PageSize(limit));
  }

  function Page(rows: seq<Row>, limit: int, page: int): seq<Row>
    requires RowsBefore(limit, page) <= MAX_INT64
  {
    OffsetInRange(limit, page);
    Window(rows, PageSize(limit), Offset(limit, page))
  }

  /** Ten rows to a page unless the request says otherwise, and never more than a hundred; page p
      starts after p - 1 full pages, and a page below 1 is the first. */
  lemma PageHolds(rows: seq<Row>, limit: int, page: int)
    requires |rows| <= MAX_INT32 && RowsBefore(limit, page) <= MAX_INT64
    ensures var size := if limit <= 0 then 10 else if limit <= 100 then limit else 100;
            var start := if page < 1 then 0 else (page - 1) * size;
            var items := Page(rows, limit, page);
            && 0 <= start && |items| == (if start + size <= |rows| then size else if start <= |rows| then |rows| - start else 0)
            && forall i :: 0 <= i < |items| ==> items[i] == rows[start + i]
  {
    OffsetInRange(limit, page);
    ProductNonNegative(if page < 1 then 0 else page - 1, PageSize(limit));
  }

  /** Pages 1 to n, one after the other. */
  function Pages(rows: seq<Row>, limit: int, n: nat): seq<Row>
    requires n * PageSize(limit) <= MAX_INT64
  {
    if n == 0 then [] else (PageFits(limit, n); Pages(rows, limit, n - 1) + Page(rows, limit, n))
  }

  lemma PageFits(limit: int, n: nat)
    requires n > 0 && n * PageSize(limit) <= MAX_INT64
    ensures RowsBefore(limit, n) == (n - 1) * PageSize(limit) == n * PageSize(limit) - PageSize(limit)
    ensures RowsBefore(limit, n) <= MAX_INT64 && (n - 1) * PageSize(limit) <= MAX_INT64
  {
  }

  lemma {:induction false} PagesAreAPrefix(rows: seq<Row>, limit: int, n: nat)
    requires |rows| <= MAX_INT32 && n * PageSize(limit) <= MAX_INT64
    requires n > 0 ==> (n - 1) * PageSize(limit) <= |rows|
    ensures Pages(rows, limit, n) == if n * PageSize(limit) <= |rows| then rows[..n * PageSize(limit)] else rows
  {
    if n > 0 {
      var size := PageSize(limit);
      PageFits(limit, n);
      if n > 1 {
        PageFits(limit, n - 1);
      }
      PagesAreAPrefix(rows, limit, n - 1);
      OffsetInRange(limit, n);
      NextWindow(rows, size, (n - 1) * size, n * size);
    }
  }

  lemma NextWindow(rows: seq<Row>, size: nat, off: nat, end: nat)
    requires off <= |rows| && end == off + size && size > 0
    ensures rows[..off] + Window(rows, size, off) == if end <= |rows| then rows[..end] else rows
  {
  }

  function PageCount(total: nat, limit: int): nat {
    (total + PageSize(limit) - 1) / PageSize(limit)
  }

  lemma PageCountBounds(total: nat, limit: int)
    ensures var n, size := PageCount(total, limit), PageSize(limit);
            (n > 0 ==> (n - 1) * size < total) && total <= n * size < total + size
  {
  }

  /** Pages 1 to ceil(total/size) concatenate to the ordered, filtered list: every matching row
      once, in order, and no other row. */
  lemma PagesPartition(rows: seq<Row>, fold: char -> char, f: Filter, limit: int)
    requires |Select(fold, rows, f)| <= MAX_INT32
    ensures var list := Order(Select(fold, rows, f));
            var n := PageCount(|list|, limit);
            && n * PageSize(limit) <= MAX_INT64
            && Pages(list, limit, n) == list
            && Ordered(list) && multiset(list) == multiset(Select(fold, rows, f))
  {
    var selected := Select(fold, rows, f);
    var list := Order(selected);
    OrderCorrect(selected);
    assert |multiset(list)| == |list| && |multiset(selected)| == |selected|;
    var n := PageCount(|list|, limit);
    PageCountBounds(|list|, limit);
    PagesAreAPrefix(list, limit, n);
    if n * PageSize(limit) <= |list| {
      assert list[..|list|] == list;
    }
  }

  /** Pages past the last one are empty; the offset never falls back into the list. */
  lemma PagesPastTheEnd(rows: seq<Row>, limit: int, page: int)
    requires |rows| <= MAX_INT32 && RowsBefore(limit, page) <= MAX_INT64 && page > PageCount(|rows|, limit)
    ensures Page(rows, limit, page) == []
  {
    PageCountBounds(|rows|, limit);
    OffsetInRange(limit, page);
    LaterPagesStartLater(PageCount(|rows|, limit), page - 1, PageSize(limit));
  }

  lemma LaterPagesStartLater(n: nat, m: int, size: nat)
    requires n <= m
    ensures n * size <= m * size
  {
  }

  /** The conditions of a request, one by one. */
  ghost predicate Wanted(fold: char -> char, r: Row, f: Filter) {
    && (f.owner == None || f.owner == Some(r.owner))
    && (f.status == None || f.status == Some(r.status))
    && (f.typ == None || f.typ == Some(r.typ))
    && (f.keyword == None || Contains(Fold(fold, r.title), Fold(fold, f.keyword.value)))
  }

  lemma WantedMatches(fold: char -> char, r: Row, f: Filter)
    requires KeepsMeta(fold)
    ensures Wanted(fold, r, f) <==> Matches(fold, r, f)
  {
    if f.keyword.Some? {
      LiteralSearch(fold, r.title, f.keyword.value);
    }
  }

  /** A list selects, before it orders and cuts, each row as often as it is there if it is of the
      wanted owner, status and type and its folded title contains the folded keyword; no other. */
  lemma {:induction false} SearchSelectsLiterally(fold: char -> char, rows: seq<Row>, f: Filter, r: Row)
    requires KeepsMeta(fold)
    ensures multiset(Select(fold, rows, f))[r] == if Wanted(fold, r, f) then multiset(rows)[r] else 0
  {
    if rows != [] {
      var n := |rows| - 1;
      var init, last := rows[..n], rows[n];
      SearchSelectsLiterally(fold, init, f, r);
      WantedMatches(fold, last, f);
      assert rows == init + [last];
      assert multiset(rows) == multiset(init) + multiset{last};
    }
  }
}
