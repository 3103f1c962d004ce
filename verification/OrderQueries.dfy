/**
 * The paginated queries, as SQL evaluates them: join, DISTINCT, ORDER BY id DESC, OFFSET/LIMIT.
 * Tables are given in whatever order storage yields their rows.
 */
module OrderQueries {
  import opened Common
  import opened Orders

  datatype Row = Row(id: int, order: Order)

  /** Primary key of the orders table. */
  ghost predicate PrimaryKey(rows: seq<Row>) {
    forall i, j :: 0 <= i < j < |rows| ==> rows[i].id != rows[j].id
  }

  function Matches(row: Row, lines: seq<OrderLine>, productId: int): (r: seq<Row>)
    ensures forall x :: x in r ==> x == row
    ensures r != [] <==> HasProduct(lines, row.id, productId)
  {
    if lines == [] then []
    else
      (if lines[0].orderId == row.id && lines[0].productId == productId then [row] else [])
      + Matches(row, lines[1..], productId)
  }

  ghost predicate HasProduct(lines: seq<OrderLine>, orderId: int, productId: int) {
    exists l :: l in lines && l.orderId == orderId && l.productId == productId
  }

  /** One row per order and matching line, so an order with two such lines appears twice. */
  function Join(rows: seq<Row>, lines: seq<OrderLine>, productId: int): (r: seq<Row>)
    ensures forall x :: x in r <==> x in rows && HasProduct(lines, x.id, productId)
  {
    if rows == [] then []
    else
      var first := Matches(rows[0], lines, productId);
      assert first != [] ==> first[0] in first;
      first + Join(rows[1..], lines, productId)
  }

  function Distinct(rows: seq<Row>): (r: seq<Row>)
    ensures forall x :: x in r <==> x in rows
    ensures NoDuplicates(r)
  {
    if rows == [] then []
    else
      var rest := Distinct(rows[1..]);
      if rows[0] in rest then rest else [rows[0]] + rest
  }

  ghost predicate Descending(rows: seq<Row>) {
    forall i, j :: 0 <= i < j < |rows| ==> rows[i].id > rows[j].id
  }

  function Insert(row: Row, sorted: seq<Row>): (r: seq<Row>)
    ensures forall x :: x in r <==> x == row || x in sorted
    ensures |r| == |sorted| + 1
  {
    if sorted == [] || row.id >= sorted[0].id then [row] + sorted
    else [sorted[0]] + Insert(row, sorted[1..])
  }

  function OrderByIdDesc(rows: seq<Row>): (r: seq<Row>)
    ensures forall x :: x in r <==> x in rows
    ensures |r| == |rows|
  {
    if rows == [] then [] else Insert(rows[0], OrderByIdDesc(rows[1..]))
  }

  lemma DescendingCons(row: Row, rest: seq<Row>)
    requires Descending(rest) && forall x :: x in rest ==> row.id > x.id
    ensures Descending([row] + rest)
  {
    assert forall j :: 0 <= j < |rest| ==> rest[j] in rest;
  }

  lemma {:induction false} InsertDescending(row: Row, sorted: seq<Row>)
    requires Descending(sorted) && forall x :: x in sorted ==> x.id != row.id
    ensures Descending(Insert(row, sorted))
  {
    if sorted == [] || row.id >= sorted[0].id {
      if sorted != [] {
        assert sorted[0] in sorted;
        assert forall x :: x in sorted ==> sorted[0].id >= x.id;
      }
      DescendingCons(row, sorted);
    } else {
      InsertDescending(row, sorted[1..]);
      assert forall j :: 1 <= j < |sorted| ==> sorted[0].id > sorted[j].id;
      DescendingCons(sorted[0], Insert(row, sorted[1..]));
    }
  }

  lemma {:induction false} SortedDescending(rows: seq<Row>)
    requires PrimaryKey(rows)
    ensures Descending(OrderByIdDesc(rows))
  {
    if rows != [] {
      SortedDescending(rows[1..]);
      assert forall j :: 1 <= j < |rows| ==> rows[0].id != rows[j].id;
      InsertDescending(rows[0], OrderByIdDesc(rows[1..]));
    }
  }

  function Page(rows: seq<Row>, page: nat, size: nat): seq<Row> {
    if page * size >= |rows| then [] else rows[page * size..][..Min(size, |rows| - page * size)]
  }

  function Ids(rows: seq<Row>): set<int> {
    set x | x in rows :: x.id
  }

  function ListPaginated(rows: seq<Row>, page: nat, size: nat): (seq<Row>, nat) {
    (Page(OrderByIdDesc(rows), page, size), |rows|)
  }

  function ListByProductId(rows: seq<Row>, lines: seq<OrderLine>, productId: int, page: nat, size: nat)
    : (seq<Row>, nat)
  {
    var joined := Join(rows, lines, productId);
    (Page(OrderByIdDesc(Distinct(joined)), page, size), |Ids(joined)|)
  }

  // ---------------------------------------------------------------- what the pages are pages of

  /** The orders with some line for the product, newest first: a specification with no join in it. */
  ghost predicate Listing(rows: seq<Row>, lines: seq<OrderLine>, productId: int, all: seq<Row>) {
    && Descending(all)
    && forall x :: x in all <==> x in rows && HasProduct(lines, x.id, productId)
  }

  /** There is one such listing. */
  lemma {:induction false} ListingIsUnique(a: seq<Row>, b: seq<Row>)
    requires Descending(a) && Descending(b) && forall x :: x in a <==> x in b
    ensures a == b
  {
    if a != [] { assert a[0] in b; }
    if b != [] { assert b[0] in a; }
    if a != [] {
      assert a[0] == b[0];
      forall x ensures x in a[1..] <==> x in b[1..] {
        assert x in a[1..] <==> x in a && x != a[0];
        assert x in b[1..] <==> x in b && x != b[0];
      }
      ListingIsUnique(a[1..], b[1..]);
    }
  }

  function WholeListing(rows: seq<Row>, lines: seq<OrderLine>, productId: int): seq<Row> {
    OrderByIdDesc(Distinct(Join(rows, lines, productId)))
  }

  lemma {:induction false} IdsOfDescending(rows: seq<Row>)
    requires Descending(rows)
    ensures |Ids(rows)| == |rows|
  {
    if rows != [] {
      IdsOfDescending(rows[1..]);
      assert Ids(rows) == {rows[0].id} + Ids(rows[1..]);
    }
  }

  lemma SameIdSameRow(rows: seq<Row>, x: Row, y: Row)
    requires PrimaryKey(rows) && x in rows && y in rows && x.id == y.id
    ensures x == y
  {
    var i :| 0 <= i < |rows| && rows[i] == x;
    var j :| 0 <= j < |rows| && rows[j] == y;
    assert i < j || i == j || j < i;
  }

  /** The query's whole result is the listing, whatever order the tables are stored in, and total is its size. */
  lemma QueryIsListing(rows: seq<Row>, lines: seq<OrderLine>, productId: int, all: seq<Row>, page: nat, size: nat)
    requires PrimaryKey(rows) && Listing(rows, lines, productId, all)
    ensures ListByProductId(rows, lines, productId, page, size) == (Page(all, page, size), |all|)
  {
    WholeIsListing(rows, lines, productId);
    ListingIsUnique(WholeListing(rows, lines, productId), all);
    IdsOfDescending(all);
    assert Ids(Join(rows, lines, productId)) == Ids(all);
  }

  // ---------------------------------------------------------------- pages cover the listing

  function Pages(rows: seq<Row>, count: nat, size: nat): seq<Row> {
    if count == 0 then [] else Pages(rows, count - 1, size) + Page(rows, count - 1, size)
  }

  function PageCount(total: nat, size: nat): nat
    requires size > 0
  {
    (total + size - 1) / size
  }

  lemma TimesIsMonotone(a: int, b: int, size: nat)
    requires a <= b
    ensures a * size <= b * size
  {
  }

  lemma OnePageMore(rows: seq<Row>, start: nat, size: nat)
    ensures rows[..Min(start, |rows|)] + (if start >= |rows| then [] else rows[start..][..Min(size, |rows| - start)])
            == rows[..Min(start + size, |rows|)]
  {
  }

  lemma {:induction false} FirstPages(rows: seq<Row>, count: nat, size: nat)
    requires size > 0
    ensures Pages(rows, count, size) == rows[..Min(count * size, |rows|)]
  {
    if count > 0 {
      FirstPages(rows, count - 1, size);
      TimesIsMonotone(0, count - 1, size);
      assert count * size == (count - 1) * size + size;
      OnePageMore(rows, (count - 1) * size, size);
    }
  }

  lemma PageCountCovers(total: nat, size: nat)
    requires size > 0
    ensures PageCount(total, size) * size >= total
    ensures PageCount(total, size) > 0 ==> (PageCount(total, size) - 1) * size < total
  {
    var q := PageCount(total, size);
    assert q * size + (total + size - 1) % size == total + size - 1;
    assert (q - 1) * size == q * size - size;
  }

  lemma PageCountTight(total: nat, size: nat, page: nat)
    requires size > 0
    ensures page >= PageCount(total, size) <==> page * size >= total
  {
    PageCountCovers(total, size);
    var q := PageCount(total, size);
    if page >= q {
      TimesIsMonotone(q, page, size);
    } else {
      TimesIsMonotone(page, q - 1, size);
    }
  }

  /** Pages 0 to ceil(n / size) - 1 in a row are all n rows; exactly the later pages are empty. */
  lemma PagesCover(all: seq<Row>, size: nat, page: nat)
    requires size > 0
    ensures Pages(all, PageCount(|all|, size), size) == all
    ensures Page(all, page, size) == [] <==> page >= PageCount(|all|, size)
    ensures |Page(all, page, size)| <= size
  {
    PageCountCovers(|all|, size);
    PageCountTight(|all|, size, page);
    FirstPages(all, PageCount(|all|, size), size);
  }

  lemma WholeIsListing(rows: seq<Row>, lines: seq<OrderLine>, productId: int)
    requires PrimaryKey(rows)
    ensures Listing(rows, lines, productId, WholeListing(rows, lines, productId))
  {
    var distinct := Distinct(Join(rows, lines, productId));
    forall i, j | 0 <= i < j < |distinct| ensures distinct[i].id != distinct[j].id {
      assert distinct[i] in distinct && distinct[j] in distinct;
      if distinct[i].id == distinct[j].id {
        SameIdSameRow(rows, distinct[i], distinct[j]);
      }
    }
    SortedDescending(distinct);
  }

  /**
   * The product's orders page through without loss or repetition: the pages in a row are the one
   * listing, `total` is its length, and a page is empty exactly from page ceil(total / size) on.
   */
  lemma PagesAreTheListing(rows: seq<Row>, lines: seq<OrderLine>, productId: int, all: seq<Row>, size: nat, page: nat)
    requires PrimaryKey(rows) && Listing(rows, lines, productId, all) && size > 0
    ensures var (items, total) := ListByProductId(rows, lines, productId, page, size);
            && items == Page(all, page, size) && total == |all|
            && (items == [] <==> page >= PageCount(total, size)) && |items| <= size
    ensures Pages(WholeListing(rows, lines, productId), PageCount(|all|, size), size) == all
  {
    QueryIsListing(rows, lines, productId, all, page, size);
    WholeIsListing(rows, lines, productId);
    ListingIsUnique(WholeListing(rows, lines, productId), all);
    PagesCover(all, size, page);
  }

  /** The plain order list pages through every order once, newest first. */
  lemma PlainPagesAreAllOrders(rows: seq<Row>, size: nat, page: nat)
    requires PrimaryKey(rows) && size > 0
    ensures var all := OrderByIdDesc(rows); var (items, total) := ListPaginated(rows, page, size);
            && Descending(all) && (forall x :: x in all <==> x in rows)
            && Pages(all, PageCount(total, size), size) == all
            && (items == [] <==> page >= PageCount(total, size))
  {
    SortedDescending(rows);
    PagesCover(OrderByIdDesc(rows), size, page);
  }
}
