/** What holds over whole runs of the order store: money, price snapshots and both lifecycles. */
module OrderHistory {
  import opened Common
  import opened Orders
  import opened Store

  ghost function After(requests: seq<Request>, k: nat): Db
    requires k <= |requests|
  {
    Run(Empty, requests[..k])
  }

  lemma AfterStep(requests: seq<Request>, k: nat)
    requires k < |requests|
    ensures After(requests, k + 1) == Exec(After(requests, k), requests[k]).0
  {
    assert requests[..k + 1][..k] == requests[..k];
  }

  lemma AfterPrefix(requests: seq<Request>, r: Request, k: nat)
    requires k <= |requests|
    ensures After(requests + [r], k) == After(requests, k)
  {
    assert (requests + [r])[..k] == requests[..k];
  }

  // ---------------------------------------------------------------- money

  /** What a successful request adds to the total of order `o`. */
  function Delta(db: Db, r: Request, o: int): int {
    if r.AddLine? && r.orderId == o && r.productId in db.products
    then Amount(NewLine(db, o, r.productId, r.quantity))
    else if r.DeleteLine? && r.orderId == o && FindLine(db.lines, r.lineId).Some?
    then -Amount(FindLine(db.lines, r.lineId).value)
    else 0
  }

  lemma SettleMoves(db: Db, lines: seq<OrderLine>, o: int, nextLine: nat, x: int, delta: int)
    requires o in db.orders && x in db.orders && Totals(db)
    requires OrderTotal(lines, o) == OrderTotal(db.lines, o) + delta
    ensures Settle(db, lines, o, nextLine).1 == Success ==>
              Settle(db, lines, o, nextLine).0.orders[x].totalAmount
              == db.orders[x].totalAmount + if o == x then delta else 0
  {
  }

  lemma DeltaOfAdd(db: Db, o: int, p: int, quantity: int, x: int)
    requires Totals(db) && x in db.orders
    ensures ExecAddLine(db, o, p, quantity).1 == Success ==>
              ExecAddLine(db, o, p, quantity).0.orders[x].totalAmount
              == db.orders[x].totalAmount + Delta(db, AddLine(o, p, quantity), x)
  {
    if ExecAddLine(db, o, p, quantity).1 != Success { return; }
    var line := NewLine(db, o, p, quantity);
    TotalOfAppended(db.lines, line, o);
    SettleMoves(db, db.lines + [line], o, db.nextLine + 1, x, Amount(line));
  }

  lemma DeltaOfDelete(db: Db, o: int, line: OrderLine, x: int)
    requires Totals(db) && UniqueIds(db.lines) && x in db.orders && o in db.orders
    requires line in db.lines && line.orderId == o
    ensures Settle(db, WithoutLine(db.lines, line.id), o, db.nextLine).1 == Success ==>
              Settle(db, WithoutLine(db.lines, line.id), o, db.nextLine).0.orders[x].totalAmount
              == db.orders[x].totalAmount - if o == x then Amount(line) else 0
  {
    if Settle(db, WithoutLine(db.lines, line.id), o, db.nextLine).1 != Success { return; }
    TotalOfRemaining(db.lines, line, o);
    SettleMoves(db, WithoutLine(db.lines, line.id), o, db.nextLine, x, -Amount(line));
  }

  lemma OthersMoveNothing(db: Db, r: Request, x: int)
    requires !r.AddLine? && !r.DeleteLine?
    requires x in db.orders && x in Exec(db, r).0.orders && x != db.nextOrder
    ensures Exec(db, r).0.orders[x].totalAmount == db.orders[x].totalAmount
  {
  }

  /**
   * The full recompute is the incremental one: a line added is its price times its quantity more, a
   * line deleted its amount less, and no other request (a price change, a refund, a cancellation)
   * moves any order's total.
   */
  lemma TotalMovesByDelta(db: Db, r: Request, x: int)
    requires Sound(db) && Exec(db, r).1 == Success && x in db.orders && x in Exec(db, r).0.orders
    ensures Exec(db, r).0.orders[x].totalAmount == db.orders[x].totalAmount + Delta(db, r, x)
  {
    if r.AddLine? {
      DeltaOfAdd(db, r.orderId, r.productId, r.quantity, x);
    } else if r.DeleteLine? {
      var line := FindLine(db.lines, r.lineId).value;
      assert line in db.lines && line.orderId == r.orderId;
      DeltaOfDelete(db, r.orderId, line, x);
    } else {
      OthersMoveNothing(db, r, x);
    }
  }

  /** A line is accepted exactly when its parents exist and the incremented total still fits its column. */
  lemma AddLineSucceedsExactly(db: Db, o: int, p: int, quantity: int)
    requires Totals(db) && Keys(db)
    ensures ExecAddLine(db, o, p, quantity).1 == Success <==>
              && o in db.orders && p in db.products && 1 <= quantity <= INT4_MAX
              && db.orders[o].totalAmount + db.products[p].unitPrice * quantity < NUMERIC_LIMIT
    ensures ExecAddLine(db, o, p, quantity).1 == NotFound <==> p > 0 && quantity > 0 && o !in db.orders
    ensures ExecAddLine(db, o, p, quantity).1 == Unprocessable <==>
              p <= 0 || quantity <= 0 || (o in db.orders && p !in db.products)
  {
    if o in db.orders && p in db.products {
      TotalOfAppended(db.lines, NewLine(db, o, p, quantity), o);
    }
  }

  /** An accepted line stands at the end, at the product's price of the moment. */
  lemma AddedLineExactly(db: Db, o: int, p: int, quantity: int)
    requires ExecAddLine(db, o, p, quantity).1 == Success
    ensures o in db.orders && p in db.products
    ensures var t := ExecAddLine(db, o, p, quantity).0;
            && t.lines == db.lines + [OrderLine(db.nextLine, o, p, quantity, db.products[p].unitPrice, Pending)]
            && t == db.(lines := t.lines, orders := t.orders, nextLine := db.nextLine + 1)
  {
  }

  lemma SettledAmount(db: Db, lines: seq<OrderLine>, o: int, nextLine: nat, delta: int)
    requires Totals(db) && o in db.orders && OrderTotal(lines, o) == OrderTotal(db.lines, o) + delta
    requires Settle(db, lines, o, nextLine).1 == Success
    ensures Settle(db, lines, o, nextLine).0.orders
            == db.orders[o := db.orders[o].(totalAmount := db.orders[o].totalAmount + delta)]
  {
  }

  /** Its order costs that much more, and is otherwise as it was, like every other order. */
  lemma AddedAmountExactly(db: Db, o: int, p: int, quantity: int)
    requires Totals(db) && ExecAddLine(db, o, p, quantity).1 == Success
    ensures o in db.orders && p in db.products
    ensures ExecAddLine(db, o, p, quantity).0.orders == db.orders[o := db.orders[o].(
              totalAmount := db.orders[o].totalAmount + db.products[p].unitPrice * quantity)]
  {
    var line := NewLine(db, o, p, quantity);
    TotalOfAppended(db.lines, line, o);
    SettledAmount(db, db.lines + [line], o, db.nextLine + 1, Amount(line));
  }

  lemma FoundExactly(lines: seq<OrderLine>, id: nat, o: int)
    requires UniqueIds(lines)
    ensures FindLine(lines, id).Some? && FindLine(lines, id).value.orderId == o <==>
              exists l :: l in lines && l.id == id && l.orderId == o
  {
    forall l | l in lines && l.id == id ensures FindLine(lines, id) == Some(l) {
      FindInUnique(lines, l);
    }
  }

  /** A delete succeeds exactly on a line of that order, and takes that line and no other. */
  lemma DeleteLineSucceedsExactly(db: Db, o: int, id: nat)
    requires Sound(db)
    ensures ExecDeleteLine(db, o, id).1 == Success <==> exists l :: l in db.lines && l.id == id && l.orderId == o
    ensures ExecDeleteLine(db, o, id).1 == Success || ExecDeleteLine(db, o, id).1 == NotFound
    ensures ExecDeleteLine(db, o, id).1 == Success ==>
              var t := ExecDeleteLine(db, o, id).0;
              && t.lines == WithoutLine(db.lines, id) && (forall l :: l in t.lines <==> l in db.lines && l.id != id)
              && t == db.(lines := t.lines, orders := t.orders) && t.orders.Keys == db.orders.Keys
              && forall x :: x in db.orders ==>
                   t.orders[x] == db.orders[x].(totalAmount := t.orders[x].totalAmount)
                   && (x != o ==> t.orders[x] == db.orders[x])
  {
    DeleteLineNeverOverflows(db, o, id);
    FoundExactly(db.lines, id, o);
  }

  /**
   * A status update succeeds exactly on a self-transition, one rank up short of cancelling a shipped
   * order, or a cancellation before shipping; a cancellation by the tool always does. Each sets the
   * target and nothing else.
   */
  lemma StatusRequestsExactly(db: Db, o: int, target: OrderStatus)
    ensures Exec(db, UpdateOrderStatus(o, target)).1 == Success <==>
              o in db.orders &&
              var rank := db.orders[o].status.Rank();
              target.Rank() == rank || (target.Rank() == rank + 1 && rank < 2) || (target == CANCELLED && rank < 2)
    ensures Exec(db, UpdateOrderStatus(o, target)).1 == NotFound <==> o !in db.orders
    ensures Exec(db, UpdateOrderStatus(o, target)).1 in {Success, NotFound, Conflict}
    ensures Exec(db, CancelOrder(o)).1 == if o in db.orders then Success else NotFound
    ensures forall r :: (r == UpdateOrderStatus(o, target) || (r == CancelOrder(o) && target == CANCELLED))
                        && Exec(db, r).1 == Success ==>
              Exec(db, r).0 == db.(orders := db.orders[o := db.orders[o].(status := target)])
  {
  }

  /**
   * A line status update succeeds exactly on a line of that order that stays where it is or moves up one
   * rank; a missing or foreign line is not found, any other move a conflict. Success sets that line's
   * status and nothing else.
   */
  lemma LineStatusRequestsExactly(db: Db, o: int, id: nat, target: LineStatus)
    requires UniqueIds(db.lines)
    ensures var (t, response) := Exec(db, UpdateLineStatus(o, id, target));
            && (response == NotFound <==> forall l :: l in db.lines ==> l.id != id || l.orderId != o)
            && (response == Success <==>
                  exists l :: l in db.lines && l.id == id && l.orderId == o
                              && l.status.Rank() <= target.Rank() <= l.status.Rank() + 1)
            && response in {Success, NotFound, Conflict}
            && (response != Success ==> t == db)
            && (response == Success ==>
                  && t == db.(lines := t.lines) && |t.lines| == |db.lines|
                  && forall i :: 0 <= i < |db.lines| ==>
                       t.lines[i] == if db.lines[i].id == id then db.lines[i].(status := target) else db.lines[i])
  {
    FoundExactly(db.lines, id, o);
    forall l | l in db.lines && l.id == id ensures FindLine(db.lines, id) == Some(l) {
      FindInUnique(db.lines, l);
    }
  }

  /** An order is placed exactly for an existing customer: new, PENDING, and worth nothing yet. */
  lemma PlacedOrderExactly(db: Db, c: int)
    ensures var (t, response) := Exec(db, CreateOrder(c));
            if c in db.customers
            then response == Success
                 && t == db.(orders := db.orders[db.nextOrder := Order(c, PENDING, 0)], nextOrder := db.nextOrder + 1)
            else response == Unprocessable && t == db
  {
  }

  /** A name, price and stock that the columns and the request model take. */
  ghost predicate Storable(p: Product) {
    1 <= |p.name| <= 255 && 0 <= p.unitPrice < 1_000_000_000_000 && p.stock >= 0
  }

  /** A product is created exactly when it is storable and its name is new. */
  lemma CreatedProductExactly(db: Db, p: Product)
    requires Keys(db)
    ensures var (t, response) := Exec(db, CreateProduct(p));
            var taken := exists q :: q in db.products && db.products[q].name == p.name;
            && (response == Unprocessable <==> !Storable(p))
            && (response == Conflict <==> Storable(p) && taken)
            && (response == Success <==> Storable(p) && !taken && p.stock < 0x8000_0000)
            && (response == Success ==>
                  t == db.(products := db.products[db.nextProduct := p], nextProduct := db.nextProduct + 1))
            && (response != Success ==> t == db)
  {
    assert NameTaken(db.products, p.name, 0) <==> exists q :: q in db.products && db.products[q].name == p.name;
  }

  /** An update stores the new price, name and stock exactly when they are storable and the name is no other's. */
  lemma UpdatedProductExactly(db: Db, id: int, p: Product)
    ensures var (t, response) := Exec(db, UpdateProduct(id, p));
            && (response == Unprocessable <==> !Storable(p))
            && (response == NotFound <==> Storable(p) && id !in db.products)
            && (response == Success <==>
                  && Storable(p) && id in db.products && p.stock < 0x8000_0000
                  && forall q :: q in db.products && q != id ==> db.products[q].name != p.name)
            && (response == Success ==> t == db.(products := db.products[id := p]))
            && (response != Success ==> t == db)
  {
  }

  lemma {:induction false} NoneToCascade(lines: seq<OrderLine>, o: int)
    requires forall l :: l in lines ==> l.orderId != o
    ensures WithoutOrder(lines, o) == lines
  {
    if lines != [] {
      NoneToCascade(lines[..|lines| - 1], o);
      assert lines == lines[..|lines| - 1] + [lines[|lines| - 1]];
    }
  }

  /**
   * Cancelling keeps every line, so it does what a cascade would if and only if the order has no line
   * to lose.
   */
  lemma CancelCascadesExactlyWithoutLines(db: Db, o: int)
    requires Exec(db, CancelOrder(o)).1 == Success
    ensures Exec(db, CancelOrder(o)).0.lines == db.lines
    ensures Exec(db, CancelOrder(o)).0.lines == WithoutOrder(db.lines, o) <==>
              forall l :: l in db.lines ==> l.orderId != o
  {
    if forall l :: l in db.lines ==> l.orderId != o {
      NoneToCascade(db.lines, o);
    }
  }

  const SHOP := Db({1}, map[1 := Product("p", 5, 1)], map[1 := Order(1, PENDING, 0)], [], 2, 2, 2, 1)

  lemma ShopIsReachable()
    ensures Run(Empty, [CreateCustomer, CreateProduct(Product("p", 5, 1)), CreateOrder(1)]) == SHOP
  {
    var requests := [CreateCustomer, CreateProduct(Product("p", 5, 1)), CreateOrder(1)];
    assert requests[..2] == [CreateCustomer, CreateProduct(Product("p", 5, 1))];
    assert requests[..2][..1] == [CreateCustomer] && [CreateCustomer][..0] == [];
  }

  /** A cancelled order that still has its line. */
  lemma CancelledOrderKeepsLine()
    ensures var t := Exec(Exec(SHOP, AddLine(1, 1, 2)).0, CancelOrder(1)).0;
            && t.lines == [OrderLine(1, 1, 1, 2, 5, Pending)] && 1 in t.orders && t.orders[1].status == CANCELLED
  {
    TotalOfAppended([], NewLine(SHOP, 1, 1, 2), 1);
    assert [] + [NewLine(SHOP, 1, 1, 2)] == [NewLine(SHOP, 1, 1, 2)];
  }

  /** CASCADE: exactly the order's own lines go with it. */
  lemma DeleteOrderTakesItsLines(db: Db, o: int)
    requires o in db.orders
    ensures var t := Exec(db, DeleteOrder(o)).0;
            && t.orders == db.orders - {o} && t.products == db.products && t.customers == db.customers
            && (forall l :: l in t.lines <==> l in db.lines && l.orderId != o)
            && (forall x :: x in t.orders ==> LinesOf(t.lines, x) == LinesOf(db.lines, x))
  {
    var t := Exec(db, DeleteOrder(o)).0;
    assert t.lines == WithoutOrder(db.lines, o);
    forall x | x in t.orders ensures LinesOf(t.lines, x) == LinesOf(db.lines, x) {
      OtherLinesStay(db.lines, o, x);
    }
  }

  /** RESTRICT: a product goes exactly when no line refers to it, a customer exactly when no order does. */
  lemma ParentsInUseStay(db: Db, p: int, c: int)
    ensures Exec(db, DeleteProduct(p)).1 == Success <==>
              p in db.products && forall l :: l in db.lines ==> l.productId != p
    ensures Exec(db, DeleteCustomer(c)).1 == Success <==>
              c in db.customers && forall x :: x in db.orders ==> db.orders[x].customerId != c
    ensures Exec(db, DeleteProduct(p)).1 == NotFound <==> p !in db.products
    ensures Exec(db, DeleteCustomer(c)).1 == NotFound <==> c !in db.customers
    ensures Exec(db, DeleteProduct(p)).1 == Success ==>
              Exec(db, DeleteProduct(p)).0 == db.(products := db.products - {p})
    ensures Exec(db, DeleteCustomer(c)).1 == Success ==>
              Exec(db, DeleteCustomer(c)).0 == db.(customers := db.customers - {c})
  {
  }

  lemma {:induction false} OtherLinesStay(lines: seq<OrderLine>, o: int, x: int)
    requires x != o
    ensures LinesOf(WithoutOrder(lines, o), x) == LinesOf(lines, x)
  {
    if lines != [] {
      var init, last := lines[..|lines| - 1], lines[|lines| - 1];
      OtherLinesStay(init, o, x);
      if last.orderId != o {
        assert WithoutOrder(lines, o)[..|WithoutOrder(init, o)|] == WithoutOrder(init, o);
      }
    }
  }

  // ---------------------------------------------------------------- price snapshots

  /** Request `k` added the line, at the product's price of that moment: it is there right after. */
  ghost predicate AddedAt(requests: seq<Request>, l: OrderLine, k: nat) {
    && k < |requests|
    && requests[k] == AddLine(l.orderId, l.productId, l.quantity)
    && After(requests, k).nextLine == l.id
    && l.productId in After(requests, k).products
    && After(requests, k).products[l.productId].unitPrice == l.unitPriceAtOrder
    && l.(status := Pending) in After(requests, k + 1).lines
  }

  /** A line after a request is a line from before, perhaps restated, or the line the request adds. */
  lemma LineOrigin(db: Db, r: Request, l: OrderLine)
    requires l in Exec(db, r).0.lines
    ensures (exists l0 :: l0 in db.lines && l == l0.(status := l.status))
            || (r.AddLine? && r.productId in db.products && l == NewLine(db, r.orderId, r.productId, r.quantity))
  {
    if r.UpdateLineStatus? && l !in db.lines {
      MarkedFrom(db.lines, r.lineId, r.lineTarget, l);
    } else if l in db.lines {
      assert l == l.(status := l.status);
    }
  }

  /** A line that is only restated was added where it was, and every later request leaves that so. */
  lemma AddedAtStays(init: seq<Request>, r: Request, l0: OrderLine, l: OrderLine, k: nat)
    requires AddedAt(init, l0, k) && l == l0.(status := l.status)
    ensures AddedAt(init + [r], l, k)
  {
    AfterPrefix(init, r, k);
    AfterPrefix(init, r, k + 1);
    assert l0.(status := Pending) == l.(status := Pending);
  }

  lemma JustAdded(requests: seq<Request>, k: nat)
    requires k < |requests| && requests[k].AddLine? && requests[k].productId in After(requests, k).products
    requires var line := NewLine(After(requests, k), requests[k].orderId, requests[k].productId, requests[k].quantity);
             line in After(requests, k + 1).lines
    ensures var line := NewLine(After(requests, k), requests[k].orderId, requests[k].productId, requests[k].quantity);
            AddedAt(requests, line, k)
  {
  }

  /** Every line of every reachable store carries the price its product had when it was added. */
  lemma {:induction false} PriceIsFrozen(requests: seq<Request>, l: OrderLine)
    requires l in Run(Empty, requests).lines
    ensures exists k: nat :: AddedAt(requests, l, k)
  {
    var init, r := requests[..|requests| - 1], requests[|requests| - 1];
    assert requests == init + [r];
    LineOrigin(Run(Empty, init), r, l);
    if l0 :| l0 in Run(Empty, init).lines && l == l0.(status := l.status) {
      PriceIsFrozen(init, l0);
      var k: nat :| AddedAt(init, l0, k);
      AddedAtStays(init, r, l0, l, k);
    } else {
      assert requests[..|init|] == init && requests[..|init| + 1] == requests;
      JustAdded(requests, |init|);
    }
  }

  // ---------------------------------------------------------------- the order lifecycle

  function StatusOf(db: Db, o: int): Option<OrderStatus> {
    if o in db.orders then Some(db.orders[o].status) else None
  }

  /** A request moves an order's status up in rank or not at all; a new order starts PENDING. */
  lemma StatusStep(db: Db, r: Request, o: int)
    requires Keys(db)
    ensures var a, b := StatusOf(db, o), StatusOf(Exec(db, r).0, o);
            && (a.Some? && b.Some? && a != b ==> a.value.Rank() < b.value.Rank())
            && (a.None? && b.Some? ==> b.value == PENDING && o == db.nextOrder)
            && Exec(db, r).0.nextOrder >= db.nextOrder
            && (a.None? && b.Some? ==> o < Exec(db, r).0.nextOrder)
  {
  }

  lemma StatusStepWithin(requests: seq<Request>, k: nat, o: int)
    requires k < |requests|
    ensures var a, b := StatusOf(After(requests, k), o), StatusOf(After(requests, k + 1), o);
            && (a.Some? && b.Some? && a != b ==> a.value.Rank() < b.value.Rank())
            && (a.None? && b.Some? ==> b.value == PENDING && o == After(requests, k).nextOrder)
            && After(requests, k).nextOrder <= After(requests, k + 1).nextOrder
            && (a.None? && b.Some? ==> o < After(requests, k + 1).nextOrder)
  {
    AfterStep(requests, k);
    ReachableIsSound(requests[..k]);
    StatusStep(After(requests, k), requests[k], o);
  }

  /**
   * Over any mix of status updates and MCP cancellations an order's rank never goes down, and an
   * order that was present and is present now was present, with a rank in between, all the way between.
   */
  lemma {:induction false} RankNeverDecreases(requests: seq<Request>, i: nat, j: nat, o: int)
    requires i <= j <= |requests|
    requires o in After(requests, i).orders && o in After(requests, j).orders
    ensures After(requests, i).orders[o].status.Rank() <= After(requests, j).orders[o].status.Rank()
    ensures After(requests, i).orders[o].status == CANCELLED ==> After(requests, j).orders[o].status == CANCELLED
    ensures forall m :: i <= m <= j ==>
              && o in After(requests, m).orders
              && After(requests, i).orders[o].status.Rank() <= After(requests, m).orders[o].status.Rank()
              && After(requests, m).orders[o].status.Rank() <= After(requests, j).orders[o].status.Rank()
    decreases j - i
  {
    if i < j {
      StatusStepWithin(requests, j - 1, o);
      ReachableIsSound(requests[..i]);
      NextOrderGrows(requests, i, j - 1);
      RankNeverDecreases(requests, i, j - 1, o);
    }
  }

  lemma {:induction false} NextOrderGrows(requests: seq<Request>, i: nat, j: nat)
    requires i <= j <= |requests|
    ensures After(requests, i).nextOrder <= After(requests, j).nextOrder
    decreases j - i
  {
    if i < j {
      NextOrderGrows(requests, i, j - 1);
      StatusStepWithin(requests, j - 1, 0);
    }
  }

  /** How often the status of order `o` really changed in the first `k` requests. */
  ghost function StatusChanges(requests: seq<Request>, k: nat, o: int): nat
    requires k <= |requests|
  {
    if k == 0 then 0
    else
      var a, b := StatusOf(After(requests, k - 1), o), StatusOf(After(requests, k), o);
      StatusChanges(requests, k - 1, o) + if a.Some? && b.Some? && a != b then 1 else 0
  }

  lemma OrderIdsBelowNext(requests: seq<Request>, k: nat, o: int)
    requires k <= |requests|
    ensures o in After(requests, k).orders ==> o < After(requests, k).nextOrder
  {
    ReachableIsSound(requests[..k]);
  }

  lemma {:induction false} ChangesWithinRank(requests: seq<Request>, k: nat, o: int)
    requires k <= |requests|
    ensures StatusChanges(requests, k, o) <= 3
    ensures var status := StatusOf(After(requests, k), o);
            status.Some? ==> StatusChanges(requests, k, o) <= status.value.Rank()
    ensures o >= After(requests, k).nextOrder ==> StatusChanges(requests, k, o) == 0
  {
    if k > 0 {
      ChangesWithinRank(requests, k - 1, o);
      StatusStepWithin(requests, k - 1, o);
      OrderIdsBelowNext(requests, k, o);
    }
  }

  /** Self-transitions aside, an order changes status at most three times in its life. */
  lemma StatusChangesAtMostThrice(requests: seq<Request>, o: int)
    ensures StatusChanges(requests, |requests|, o) <= 3
  {
    ChangesWithinRank(requests, |requests|, o);
  }

  // ---------------------------------------------------------------- the line lifecycle

  function LineStatusOf(db: Db, id: nat): Option<LineStatus> {
    match FindLine(db.lines, id)
    case Some(l) => Some(l.status)
    case None => None
  }

  lemma {:induction false} FindInUnique(lines: seq<OrderLine>, l: OrderLine)
    requires UniqueIds(lines) && l in lines
    ensures FindLine(lines, l.id) == Some(l)
  {
    if lines[|lines| - 1] != l {
      assert l in lines[..|lines| - 1];
      assert lines[|lines| - 1].id != l.id;
      FindInUnique(lines[..|lines| - 1], l);
    }
  }

  /** Where lines only go, those that stay are found as before. */
  lemma FoundInSubset(lines: seq<OrderLine>, kept: seq<OrderLine>, id: nat)
    requires UniqueIds(lines) && forall l :: l in kept ==> l in lines
    ensures FindLine(kept, id).Some? ==> FindLine(lines, id) == FindLine(kept, id)
  {
    if FindLine(kept, id).Some? {
      FindInUnique(lines, FindLine(kept, id).value);
    }
  }

  lemma FoundAfterAppend(lines: seq<OrderLine>, line: OrderLine, id: nat)
    ensures FindLine(lines + [line], id) == if line.id == id then Some(line) else FindLine(lines, id)
  {
    assert (lines + [line])[..|lines|] == lines;
  }

  ghost predicate LineMove(before: Db, after: Db, id: nat) {
    var a, b := LineStatusOf(before, id), LineStatusOf(after, id);
    && (a.Some? && b.Some? && a != b ==> b.value.Rank() == a.value.Rank() + 1)
    && (a.None? && b.Some? ==> b.value == Pending && id == before.nextLine)
    && before.nextLine <= after.nextLine
    && (a.None? && b.Some? ==> id < after.nextLine)
  }

  lemma AddLineMove(db: Db, o: int, p: int, quantity: int, id: nat)
    requires Keys(db)
    ensures LineMove(db, ExecAddLine(db, o, p, quantity).0, id)
  {
    if p in db.products {
      FoundAfterAppend(db.lines, NewLine(db, o, p, quantity), id);
    }
  }

  lemma MarkLineMove(db: Db, o: int, line: nat, target: LineStatus, id: nat)
    ensures LineMove(db, ExecMarkLine(db, o, line, target).0, id)
  {
    FindMarked(db.lines, line, target, id);
  }

  lemma DeleteLineMove(db: Db, o: int, line: nat, id: nat)
    requires Keys(db)
    ensures LineMove(db, ExecDeleteLine(db, o, line).0, id)
  {
    FoundInSubset(db.lines, WithoutLine(db.lines, line), id);
  }

  lemma DeleteOrderMove(db: Db, o: int, id: nat)
    requires Keys(db)
    ensures LineMove(db, ExecOrder(db, DeleteOrder(o)).0, id)
  {
    FoundInSubset(db.lines, WithoutOrder(db.lines, o), id);
  }

  lemma OthersMoveNoLine(db: Db, r: Request, id: nat)
    requires !r.AddLine? && !r.DeleteLine? && !r.UpdateLineStatus? && !r.DeleteOrder?
    ensures LineMove(db, Exec(db, r).0, id)
  {
    var t := Exec(db, r).0;
    assert t.lines == db.lines && t.nextLine == db.nextLine;
  }

  /** A line's status moves along PENDING, SHIPPED, REFUNDED one step at a time, from PENDING. */
  lemma LineStep(db: Db, r: Request, id: nat)
    requires Keys(db)
    ensures LineMove(db, Exec(db, r).0, id)
  {
    if r.AddLine? {
      AddLineMove(db, r.orderId, r.productId, r.quantity, id);
    } else if r.UpdateLineStatus? {
      MarkLineMove(db, r.orderId, r.lineId, r.lineTarget, id);
    } else if r.DeleteLine? {
      DeleteLineMove(db, r.orderId, r.lineId, id);
    } else if r.DeleteOrder? {
      DeleteOrderMove(db, r.orderId, id);
    } else {
      OthersMoveNoLine(db, r, id);
    }
  }

  lemma LineStepWithin(requests: seq<Request>, k: nat, id: nat)
    requires k < |requests|
    ensures LineMove(After(requests, k), After(requests, k + 1), id)
  {
    AfterStep(requests, k);
    ReachableIsSound(requests[..k]);
    LineStep(After(requests, k), requests[k], id);
  }

  lemma LineIdsBelowNext(requests: seq<Request>, k: nat, id: nat)
    requires k <= |requests|
    ensures LineStatusOf(After(requests, k), id).Some? ==> id < After(requests, k).nextLine
  {
    ReachableIsSound(requests[..k]);
  }

  /** A refunded line was shipped in an earlier state: a refund always follows a shipment. */
  lemma {:induction false} RefundFollowsShipment(requests: seq<Request>, k: nat, id: nat)
    requires k <= |requests| && LineStatusOf(After(requests, k), id) == Some(Refunded)
    ensures exists j :: 0 <= j < k && LineStatusOf(After(requests, j), id) == Some(Shipped)
  {
    if k > 0 {
      LineStepWithin(requests, k - 1, id);
      if LineStatusOf(After(requests, k - 1), id) == Some(Refunded) {
        RefundFollowsShipment(requests, k - 1, id);
      } else {
        assert LineStatusOf(After(requests, k - 1), id) == Some(Shipped);
      }
    }
  }

  ghost function LineChanges(requests: seq<Request>, k: nat, id: nat): nat
    requires k <= |requests|
  {
    if k == 0 then 0
    else
      var a, b := LineStatusOf(After(requests, k - 1), id), LineStatusOf(After(requests, k), id);
      LineChanges(requests, k - 1, id) + if a.Some? && b.Some? && a != b then 1 else 0
  }

  /** A line's changes are its rank: it got where it is by every step on the way, at most two. */
  lemma {:induction false} LineChangesAreItsRank(requests: seq<Request>, k: nat, id: nat)
    requires k <= |requests|
    ensures LineChanges(requests, k, id) <= 2
    ensures var status := LineStatusOf(After(requests, k), id);
            status.Some? ==> LineChanges(requests, k, id) == status.value.Rank()
    ensures id >= After(requests, k).nextLine ==> LineChanges(requests, k, id) == 0
  {
    LineIdsBelowNext(requests, k, id);
    if k > 0 {
      LineChangesAreItsRank(requests, k - 1, id);
      LineStepWithin(requests, k - 1, id);
    } else {
      assert requests[..0] == [];
    }
  }
}
