/** Rows, lifecycles and totals of the order domain. Money is whole cents. */
module Orders {
  import opened Common

  datatype OrderStatus = PENDING | CONFIRMED | SHIPPED | CANCELLED {
    predicate CanTransitionTo(target: OrderStatus) {
      target == this ||
      match this
      case PENDING => target == CONFIRMED || target == CANCELLED
      case CONFIRMED => target == SHIPPED || target == CANCELLED
      case SHIPPED => false
      case CANCELLED => false
    }

    function Rank(): nat {
      match this case PENDING => 0 case CONFIRMED => 1 case SHIPPED => 2 case CANCELLED => 3
    }
  }

  datatype LineStatus = Pending | Shipped | Refunded {
    predicate CanTransitionTo(target: LineStatus) {
      target == this ||
      match this
      case Pending => target == Shipped
      case Shipped => target == Refunded
      case Refunded => false
    }

    function Rank(): nat {
      match this case Pending => 0 case Shipped => 1 case Refunded => 2
    }
  }

  /** The two state machines, move by move. */
  lemma TransitionsExactly(a: OrderStatus, b: OrderStatus, c: LineStatus, d: LineStatus)
    ensures a.CanTransitionTo(b) <==>
              a == b || (a, b) in {(PENDING, CONFIRMED), (PENDING, CANCELLED), (CONFIRMED, SHIPPED),
                                   (CONFIRMED, CANCELLED)}
    ensures c.CanTransitionTo(d) <==> c == d || (c, d) in {(Pending, Shipped), (Shipped, Refunded)}
    ensures a.Rank() < b.Rank() <==>
              || (a == PENDING && b != PENDING) || (a == CONFIRMED && (b == SHIPPED || b == CANCELLED))
              || (a == SHIPPED && b == CANCELLED)
  {
  }

  datatype Product = Product(name: string, unitPrice: int, stock: int)
  datatype Order = Order(customerId: int, status: OrderStatus, totalAmount: int)
  datatype OrderLine = OrderLine(
    id: nat, orderId: int, productId: int, quantity: int, unitPriceAtOrder: int, status: LineStatus)

  function Amount(line: OrderLine): int {
    line.unitPriceAtOrder * line.quantity
  }

  function ComputeTotal(lines: seq<OrderLine>): int {
    if lines == [] then 0 else ComputeTotal(lines[..|lines| - 1]) + Amount(lines[|lines| - 1])
  }

  lemma {:induction false} TotalConcat(a: seq<OrderLine>, b: seq<OrderLine>)
    ensures ComputeTotal(a + b) == ComputeTotal(a) + ComputeTotal(b)
  {
    if b == [] {
      assert a + b == a;
    } else {
      assert (a + b)[..|a + b| - 1] == a + b[..|b| - 1];
      TotalConcat(a, b[..|b| - 1]);
    }
  }

  /** Any one row can be set aside. */
  lemma SetAside(before: seq<OrderLine>, row: OrderLine, after: seq<OrderLine>)
    ensures ComputeTotal(before + [row] + after) == ComputeTotal(before + after) + Amount(row)
    ensures multiset(before + [row] + after) == multiset(before + after) + multiset{row}
  {
    TotalConcat(before + [row], after);
    TotalConcat(before, [row]);
    TotalConcat(before, after);
    assert [row][..0] == [] && ComputeTotal([row]) == Amount(row);
  }

  lemma RowIsSomewhere(rows: seq<OrderLine>, row: OrderLine) returns (before: seq<OrderLine>, after: seq<OrderLine>)
    requires row in rows
    ensures rows == before + [row] + after
  {
    var i :| 0 <= i < |rows| && rows[i] == row;
    before, after := rows[..i], rows[i + 1..];
  }

  /** A query gives its rows in no particular order; the total does not depend on it. */
  lemma {:induction false} TotalIgnoresRowOrder(a: seq<OrderLine>, b: seq<OrderLine>)
    requires multiset(a) == multiset(b)
    ensures ComputeTotal(a) == ComputeTotal(b)
  {
    if a == [] {
      assert |multiset(a)| == |multiset(b)| == |b|;
    } else {
      var init, row := a[..|a| - 1], a[|a| - 1];
      assert multiset(a) == multiset(init) + multiset{row} by {
        assert a == init + [row];
      }
      assert row in b by {
        assert row in multiset(b);
      }
      var before, after := RowIsSomewhere(b, row);
      SetAside(before, row, after);
      assert multiset(init) == multiset(a) - multiset{row} == multiset(before + after);
      TotalIgnoresRowOrder(init, before + after);
    }
  }

  // ---------------------------------------------------------------- the order_line table

  function LinesOf(lines: seq<OrderLine>, orderId: int): (r: seq<OrderLine>)
    ensures forall l :: l in r <==> l in lines && l.orderId == orderId
  {
    if lines == [] then []
    else
      var init, last := LinesOf(lines[..|lines| - 1], orderId), lines[|lines| - 1];
      if last.orderId == orderId then init + [last] else init
  }

  function WithoutOrder(lines: seq<OrderLine>, orderId: int): (r: seq<OrderLine>)
    ensures forall l :: l in r <==> l in lines && l.orderId != orderId
  {
    if lines == [] then []
    else
      var init, last := WithoutOrder(lines[..|lines| - 1], orderId), lines[|lines| - 1];
      if last.orderId == orderId then init else init + [last]
  }

  function WithoutLine(lines: seq<OrderLine>, id: nat): (r: seq<OrderLine>)
    ensures forall l :: l in r <==> l in lines && l.id != id
  {
    if lines == [] then []
    else
      var init, last := WithoutLine(lines[..|lines| - 1], id), lines[|lines| - 1];
      if last.id == id then init else init + [last]
  }

  function Mark(line: OrderLine, id: nat, status: LineStatus): OrderLine {
    if line.id == id then line.(status := status) else line
  }

  function SetLineStatus(lines: seq<OrderLine>, id: nat, status: LineStatus): (r: seq<OrderLine>)
    ensures |r| == |lines| && forall i :: 0 <= i < |lines| ==> r[i] == Mark(lines[i], id, status)
  {
    seq(|lines|, i requires 0 <= i < |lines| => Mark(lines[i], id, status))
  }

  function FindLine(lines: seq<OrderLine>, id: nat): (r: Option<OrderLine>)
    ensures r.Some? ==> r.value in lines && r.value.id == id
    ensures r.None? ==> forall l :: l in lines ==> l.id != id
  {
    if lines == [] then None
    else if lines[|lines| - 1].id == id then Some(lines[|lines| - 1])
    else FindLine(lines[..|lines| - 1], id)
  }

  /** Primary key. */
  ghost predicate UniqueIds(lines: seq<OrderLine>) {
    forall i, j :: 0 <= i < j < |lines| ==> lines[i].id != lines[j].id
  }

  /** The total of one order, summed over the whole table in one pass. */
  ghost function OrderTotal(lines: seq<OrderLine>, orderId: int): int {
    if lines == [] then 0
    else
      var last := lines[|lines| - 1];
      OrderTotal(lines[..|lines| - 1], orderId) + if last.orderId == orderId then Amount(last) else 0
  }

  lemma {:induction false} OrderTotalIsComputeTotal(lines: seq<OrderLine>, orderId: int)
    ensures OrderTotal(lines, orderId) == ComputeTotal(LinesOf(lines, orderId))
  {
    if lines != [] {
      var init, last := lines[..|lines| - 1], lines[|lines| - 1];
      OrderTotalIsComputeTotal(init, orderId);
      var own := LinesOf(init, orderId);
      if last.orderId == orderId {
        assert (own + [last])[..|own|] == own;
      }
    }
  }

  /** The one-pass total is the total of the order's lines, in whatever order a query yields them. */
  lemma TotalOfQueriedRows(lines: seq<OrderLine>, orderId: int, rows: seq<OrderLine>)
    requires multiset(rows) == multiset(LinesOf(lines, orderId))
    ensures ComputeTotal(rows) == OrderTotal(lines, orderId)
  {
    TotalIgnoresRowOrder(rows, LinesOf(lines, orderId));
    OrderTotalIsComputeTotal(lines, orderId);
  }

  lemma TotalOfAppended(lines: seq<OrderLine>, line: OrderLine, orderId: int)
    ensures OrderTotal(lines + [line], orderId)
            == OrderTotal(lines, orderId) + if line.orderId == orderId then Amount(line) else 0
  {
    assert (lines + [line])[..|lines|] == lines;
  }

  lemma {:induction false} WithoutAbsentLine(lines: seq<OrderLine>, id: nat)
    requires forall l :: l in lines ==> l.id != id
    ensures WithoutLine(lines, id) == lines
  {
    if lines != [] {
      WithoutAbsentLine(lines[..|lines| - 1], id);
      assert lines == lines[..|lines| - 1] + [lines[|lines| - 1]];
    }
  }

  lemma {:induction false} WithoutLineUnique(lines: seq<OrderLine>, id: nat)
    requires UniqueIds(lines)
    ensures UniqueIds(WithoutLine(lines, id))
  {
    if lines != [] {
      var init := lines[..|lines| - 1];
      WithoutLineUnique(init, id);
      var r := WithoutLine(init, id);
      assert forall i :: 0 <= i < |r| ==> r[i] in init;
    }
  }

  /** Full recompute after a delete is the old total minus exactly the deleted line. */
  lemma {:induction false} TotalOfRemaining(lines: seq<OrderLine>, line: OrderLine, orderId: int)
    requires UniqueIds(lines) && line in lines
    ensures OrderTotal(WithoutLine(lines, line.id), orderId)
            == OrderTotal(lines, orderId) - if line.orderId == orderId then Amount(line) else 0
  {
    var init, last := lines[..|lines| - 1], lines[|lines| - 1];
    if last.id == line.id {
      assert last == line;
      assert forall i :: 0 <= i < |init| ==> init[i].id != line.id;
      WithoutAbsentLine(init, line.id);
    } else {
      TotalOfRemaining(init, line, orderId);
      TotalOfAppended(WithoutLine(init, line.id), last, orderId);
    }
  }

  lemma {:induction false} TotalOfOtherOrder(lines: seq<OrderLine>, deleted: int, orderId: int)
    requires deleted != orderId
    ensures OrderTotal(WithoutOrder(lines, deleted), orderId) == OrderTotal(lines, orderId)
  {
    if lines != [] {
      var init, last := lines[..|lines| - 1], lines[|lines| - 1];
      TotalOfOtherOrder(init, deleted, orderId);
      TotalOfAppended(WithoutOrder(init, deleted), last, orderId);
    }
  }

  lemma {:induction false} WithoutOrderUnique(lines: seq<OrderLine>, deleted: int)
    requires UniqueIds(lines)
    ensures UniqueIds(WithoutOrder(lines, deleted))
  {
    if lines != [] {
      var init := lines[..|lines| - 1];
      WithoutOrderUnique(init, deleted);
      var r := WithoutOrder(init, deleted);
      assert forall i :: 0 <= i < |r| ==> r[i] in init;
    }
  }

  /** A status change moves no money. */
  lemma {:induction false} TotalOfMarked(lines: seq<OrderLine>, id: nat, status: LineStatus, orderId: int)
    ensures OrderTotal(SetLineStatus(lines, id, status), orderId) == OrderTotal(lines, orderId)
  {
    if lines != [] {
      var init, last := lines[..|lines| - 1], lines[|lines| - 1];
      assert SetLineStatus(lines, id, status) == SetLineStatus(init, id, status) + [Mark(last, id, status)];
      TotalOfMarked(init, id, status, orderId);
      TotalOfAppended(SetLineStatus(init, id, status), Mark(last, id, status), orderId);
    }
  }

  lemma {:induction false} TotalWithoutLines(lines: seq<OrderLine>, orderId: int)
    requires forall l :: l in lines ==> l.orderId != orderId
    ensures OrderTotal(lines, orderId) == 0
  {
    if lines != [] {
      TotalWithoutLines(lines[..|lines| - 1], orderId);
    }
  }

  lemma {:induction false} TotalNonNegative(lines: seq<OrderLine>, orderId: int)
    requires forall l :: l in lines ==> l.unitPriceAtOrder >= 0 && l.quantity > 0
    ensures OrderTotal(lines, orderId) >= 0
  {
    if lines != [] {
      var init, last := lines[..|lines| - 1], lines[|lines| - 1];
      TotalNonNegative(init, orderId);
      assert last in lines && Amount(last) >= 0;
    }
  }

  lemma {:induction false} FindMarked(lines: seq<OrderLine>, id: nat, status: LineStatus, other: nat)
    ensures FindLine(SetLineStatus(lines, id, status), other) ==
            match FindLine(lines, other)
            case Some(l) => Some(Mark(l, id, status))
            case None => None
  {
    if lines != [] {
      var init := lines[..|lines| - 1];
      assert SetLineStatus(lines, id, status)[..|lines| - 1] == SetLineStatus(init, id, status);
      FindMarked(init, id, status, other);
    }
  }
}
