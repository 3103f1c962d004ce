/**
 * The order store as serialised transactions: five tables' worth of state, one function per
 * request, and the session object that performs the requests by updating its tables in place.
 */
module Store {
  import opened Common
  import opened Orders

  /** NUMERIC(12, 2) holds less than ten digits of whole currency; INTEGER is 32 bits. */
  const NUMERIC_LIMIT := 1_000_000_000_000
  const INT4_MAX := 2_147_483_647

  datatype Db = Db(
    customers: set<int>, products: map<int, Product>, orders: map<int, Order>, lines: seq<OrderLine>,
    nextCustomer: int, nextProduct: int, nextOrder: int, nextLine: nat)

  const Empty := Db({}, map[], map[], [], 1, 1, 1, 1)

  datatype Request =
    | CreateCustomer
    | DeleteCustomer(customerId: int)
    | CreateProduct(product: Product)
    | UpdateProduct(productId: int, product: Product)
    | DeleteProduct(productId: int)
    | CreateOrder(customerId: int)
    | UpdateOrderStatus(orderId: int, target: OrderStatus)
    | CancelOrder(orderId: int)
    | DeleteOrder(orderId: int)
    | AddLine(orderId: int, productId: int, quantity: int)
    | UpdateLineStatus(orderId: int, lineId: nat, lineTarget: LineStatus)
    | DeleteLine(orderId: int, lineId: nat)

  datatype Response = Success | NotFound | Conflict | Unprocessable | ServerError

  predicate NameTaken(products: map<int, Product>, name: string, except: int) {
    exists p :: p in products && p != except && products[p].name == name
  }

  predicate ValidProduct(p: Product) {
    1 <= |p.name| <= 255 && 0 <= p.unitPrice < NUMERIC_LIMIT && p.stock >= 0
  }

  predicate HasOrders(db: Db, customerId: int) {
    exists o :: o in db.orders && db.orders[o].customerId == customerId
  }

  predicate IsOrdered(db: Db, productId: int) {
    exists l :: l in db.lines && l.productId == productId
  }

  function ExecCatalogue(db: Db, r: Request): (Db, Response)
    requires r.CreateCustomer? || r.DeleteCustomer? || r.CreateProduct? || r.UpdateProduct? || r.DeleteProduct?
  {
    match r
    case CreateCustomer =>
      (db.(customers := db.customers + {db.nextCustomer}, nextCustomer := db.nextCustomer + 1), Success)
    case DeleteCustomer(c) =>
      if c !in db.customers then (db, NotFound)
      else if HasOrders(db, c) then (db, ServerError)
      else (db.(customers := db.customers - {c}), Success)
    case CreateProduct(p) =>
      if !ValidProduct(p) then (db, Unprocessable)
      else if NameTaken(db.products, p.name, 0) then (db, Conflict)
      else if p.stock > INT4_MAX then (db, ServerError)
      else (db.(products := db.products[db.nextProduct := p], nextProduct := db.nextProduct + 1), Success)
    case UpdateProduct(id, p) =>
      if !ValidProduct(p) then (db, Unprocessable)
      else if id !in db.products then (db, NotFound)
      else if NameTaken(db.products, p.name, id) || p.stock > INT4_MAX then (db, ServerError)
      else (db.(products := db.products[id := p]), Success)
    case DeleteProduct(id) =>
      if id !in db.products then (db, NotFound)
      else if IsOrdered(db, id) then (db, ServerError)
      else (db.(products := db.products - {id}), Success)
  }

  function ExecOrder(db: Db, r: Request): (Db, Response)
    requires r.CreateOrder? || r.UpdateOrderStatus? || r.CancelOrder? || r.DeleteOrder?
  {
    match r
    case CreateOrder(c) =>
      if c !in db.customers then (db, Unprocessable)
      else (db.(orders := db.orders[db.nextOrder := Order(c, PENDING, 0)], nextOrder := db.nextOrder + 1), Success)
    case UpdateOrderStatus(o, target) =>
      if o !in db.orders then (db, NotFound)
      else if !db.orders[o].status.CanTransitionTo(target) then (db, Conflict)
      else (db.(orders := db.orders[o := db.orders[o].(status := target)]), Success)
    case CancelOrder(o) =>
      if o !in db.orders then (db, NotFound)
      else (db.(orders := db.orders[o := db.orders[o].(status := CANCELLED)]), Success)
    case DeleteOrder(o) =>
      if o !in db.orders then (db, NotFound)
      else (db.(orders := db.orders - {o}, lines := WithoutOrder(db.lines, o)), Success)
  }

  function NewLine(db: Db, orderId: int, productId: int, quantity: int): OrderLine
    requires productId in db.products
  {
    OrderLine(db.nextLine, orderId, productId, quantity, db.products[productId].unitPrice, Pending)
  }

  /** What `_recompute_order_total` stores after the lines have changed. */
  ghost function Recomputed(orders: map<int, Order>, lines: seq<OrderLine>, orderId: int): map<int, Order>
    requires orderId in orders
  {
    orders[orderId := orders[orderId].(totalAmount := OrderTotal(lines, orderId))]
  }

  /** The lines have changed: the order's total follows, or the transaction is rolled back. */
  ghost function Settle(db: Db, lines: seq<OrderLine>, orderId: int, nextLine: nat): (Db, Response)
    requires orderId in db.orders
  {
    if OrderTotal(lines, orderId) >= NUMERIC_LIMIT then (db, ServerError)
    else (db.(lines := lines, orders := Recomputed(db.orders, lines, orderId), nextLine := nextLine), Success)
  }

  ghost function ExecAddLine(db: Db, o: int, p: int, quantity: int): (Db, Response) {
    if p <= 0 || quantity <= 0 then (db, Unprocessable)
    else if o !in db.orders then (db, NotFound)
    else if p !in db.products then (db, Unprocessable)
    else if quantity > INT4_MAX then (db, ServerError)
    else Settle(db, db.lines + [NewLine(db, o, p, quantity)], o, db.nextLine + 1)
  }

  function ExecMarkLine(db: Db, o: int, id: nat, target: LineStatus): (Db, Response) {
    match FindLine(db.lines, id)
    case None => (db, NotFound)
    case Some(line) =>
      if line.orderId != o then (db, NotFound)
      else if !line.status.CanTransitionTo(target) then (db, Conflict)
      else (db.(lines := SetLineStatus(db.lines, id, target)), Success)
  }

  ghost function ExecDeleteLine(db: Db, o: int, id: nat): (Db, Response) {
    match FindLine(db.lines, id)
    case None => (db, NotFound)
    case Some(line) =>
      if line.orderId != o then (db, NotFound)
      else if o !in db.orders then (db.(lines := WithoutLine(db.lines, id)), Success)
      else Settle(db, WithoutLine(db.lines, id), o, db.nextLine)
  }

  ghost function Exec(db: Db, r: Request): (Db, Response) {
    match r
    case AddLine(o, p, quantity) => ExecAddLine(db, o, p, quantity)
    case UpdateLineStatus(o, id, target) => ExecMarkLine(db, o, id, target)
    case DeleteLine(o, id) => ExecDeleteLine(db, o, id)
    case CreateOrder(_) => ExecOrder(db, r)
    case UpdateOrderStatus(_, _) => ExecOrder(db, r)
    case CancelOrder(_) => ExecOrder(db, r)
    case DeleteOrder(_) => ExecOrder(db, r)
    case CreateCustomer => ExecCatalogue(db, r)
    case DeleteCustomer(_) => ExecCatalogue(db, r)
    case CreateProduct(_) => ExecCatalogue(db, r)
    case UpdateProduct(_, _) => ExecCatalogue(db, r)
    case DeleteProduct(_) => ExecCatalogue(db, r)
  }

  ghost function Run(db: Db, requests: seq<Request>): Db {
    if requests == [] then db else Exec(Run(db, requests[..|requests| - 1]), requests[|requests| - 1]).0
  }

  // ---------------------------------------------------------------- invariant

  /** Every line has its order and product, every order its customer. */
  ghost predicate References(db: Db) {
    && (forall l :: l in db.lines ==> l.orderId in db.orders && l.productId in db.products)
    && (forall o :: o in db.orders ==> db.orders[o].customerId in db.customers)
  }

  /** The stored total is the total of exactly the lines that reference the order. */
  ghost predicate Totals(db: Db) {
    forall o :: o in db.orders ==> db.orders[o].totalAmount == OrderTotal(db.lines, o)
  }

  ghost predicate Keys(db: Db) {
    && UniqueIds(db.lines)
    && (forall l :: l in db.lines ==> l.id < db.nextLine)
    && (forall o :: o in db.orders ==> o < db.nextOrder)
    && (forall p :: p in db.products ==> 0 < p < db.nextProduct)
    && 0 < db.nextProduct
    && (forall c :: c in db.customers ==> c < db.nextCustomer)
  }

  ghost predicate Checks(db: Db) {
    && (forall l :: l in db.lines ==> l.quantity > 0 && l.unitPriceAtOrder >= 0)
    && (forall o :: o in db.orders ==> 0 <= db.orders[o].totalAmount < NUMERIC_LIMIT)
    && (forall p :: p in db.products ==> ValidProduct(db.products[p]))
    && (forall p, q :: p in db.products && q in db.products && p != q ==> db.products[p].name != db.products[q].name)
  }

  ghost predicate Sound(db: Db) {
    References(db) && Totals(db) && Keys(db) && Checks(db)
  }

  lemma CatalogueKeepsSound(db: Db, r: Request)
    requires r.CreateCustomer? || r.DeleteCustomer? || r.CreateProduct? || r.UpdateProduct? || r.DeleteProduct?
    requires Sound(db)
    ensures Sound(ExecCatalogue(db, r).0)
  {
    assert r.CreateProduct? && NameTaken(db.products, r.product.name, 0) == false ==>
      forall p :: p in db.products ==> db.products[p].name != r.product.name;
  }

  lemma OrderKeepsSound(db: Db, r: Request)
    requires r.CreateOrder? || r.UpdateOrderStatus? || r.CancelOrder? || r.DeleteOrder?
    requires Sound(db)
    ensures Sound(ExecOrder(db, r).0)
  {
    if r.CreateOrder? {
      TotalWithoutLines(db.lines, db.nextOrder);
    } else if r.DeleteOrder? {
      WithoutOrderUnique(db.lines, r.orderId);
      forall o | o in db.orders && o != r.orderId
        ensures OrderTotal(WithoutOrder(db.lines, r.orderId), o) == OrderTotal(db.lines, o)
      {
        TotalOfOtherOrder(db.lines, r.orderId, o);
      }
    }
  }

  /** Where only one order's total follows its lines, all totals are right again. */
  lemma SettledTotals(db: Db, lines: seq<OrderLine>, o: int)
    requires Totals(db) && o in db.orders
    requires forall x :: x != o ==> OrderTotal(lines, x) == OrderTotal(db.lines, x)
    ensures forall x :: x in db.orders ==>
              Recomputed(db.orders, lines, o)[x].totalAmount == OrderTotal(lines, x)
  {
    forall x | x in db.orders
      ensures Recomputed(db.orders, lines, o)[x].totalAmount == OrderTotal(lines, x)
    {
      assert x != o ==> OrderTotal(lines, x) == OrderTotal(db.lines, x);
    }
  }

  /** Rows that may stand in the order_line table beside the other tables. */
  ghost predicate RowsFit(db: Db, lines: seq<OrderLine>, nextLine: nat) {
    && UniqueIds(lines)
    && forall l :: l in lines ==>
         l.orderId in db.orders && l.productId in db.products && l.id < nextLine
         && l.quantity > 0 && l.unitPriceAtOrder >= 0
  }

  lemma SettleKeepsSound(db: Db, lines: seq<OrderLine>, o: int, nextLine: nat)
    requires Sound(db) && o in db.orders && RowsFit(db, lines, nextLine)
    requires forall x :: x != o ==> OrderTotal(lines, x) == OrderTotal(db.lines, x)
    ensures Sound(Settle(db, lines, o, nextLine).0)
  {
    SettledTotals(db, lines, o);
    TotalNonNegative(lines, o);
  }

  lemma AppendedRowsFit(db: Db, line: OrderLine)
    requires RowsFit(db, db.lines, line.id)
    requires line.orderId in db.orders && line.productId in db.products && line.quantity > 0
    requires line.unitPriceAtOrder >= 0
    ensures RowsFit(db, db.lines + [line], line.id + 1)
  {
    assert forall i :: 0 <= i < |db.lines| ==> db.lines[i] in db.lines;
  }

  lemma AppendedTotals(lines: seq<OrderLine>, line: OrderLine)
    ensures forall x :: x != line.orderId ==> OrderTotal(lines + [line], x) == OrderTotal(lines, x)
  {
    forall x | x != line.orderId ensures OrderTotal(lines + [line], x) == OrderTotal(lines, x) {
      TotalOfAppended(lines, line, x);
    }
  }

  lemma SoundRowsFit(db: Db)
    requires Sound(db)
    ensures RowsFit(db, db.lines, db.nextLine)
    ensures forall p :: p in db.products ==> db.products[p].unitPrice >= 0
  {
  }

  lemma AddLineKeepsSound(db: Db, o: int, p: int, quantity: int)
    requires Sound(db)
    ensures Sound(ExecAddLine(db, o, p, quantity).0)
  {
    if 0 < p && 0 < quantity <= INT4_MAX && o in db.orders && p in db.products {
      var line := NewLine(db, o, p, quantity);
      var lines := db.lines + [line];
      assert RowsFit(db, lines, db.nextLine + 1) by {
        SoundRowsFit(db);
        AppendedRowsFit(db, line);
      }
      AppendedTotals(db.lines, line);
      SettleKeepsSound(db, lines, o, db.nextLine + 1);
    }
  }

  lemma MarkedFrom(lines: seq<OrderLine>, id: nat, target: LineStatus, l: OrderLine)
    requires l in SetLineStatus(lines, id, target)
    ensures exists l0 :: l0 in lines && l == Mark(l0, id, target)
  {
    var i :| 0 <= i < |lines| && SetLineStatus(lines, id, target)[i] == l;
    assert lines[i] in lines;
  }

  lemma MarkedRows(db: Db, id: nat, target: LineStatus)
    requires Sound(db)
    ensures forall l :: l in SetLineStatus(db.lines, id, target) ==>
              && l.orderId in db.orders && l.productId in db.products && l.id < db.nextLine
              && l.quantity > 0 && l.unitPriceAtOrder >= 0
  {
    forall l | l in SetLineStatus(db.lines, id, target)
      ensures l.orderId in db.orders && l.productId in db.products && l.id < db.nextLine
      ensures l.quantity > 0 && l.unitPriceAtOrder >= 0
    {
      MarkedFrom(db.lines, id, target, l);
    }
  }

  lemma MarkedTotals(db: Db, id: nat, target: LineStatus)
    requires Totals(db)
    ensures Totals(db.(lines := SetLineStatus(db.lines, id, target)))
  {
    forall x | x in db.orders
      ensures OrderTotal(SetLineStatus(db.lines, id, target), x) == OrderTotal(db.lines, x)
    {
      TotalOfMarked(db.lines, id, target, x);
    }
  }

  lemma MarkKeepsSound(db: Db, o: int, id: nat, target: LineStatus)
    requires Sound(db)
    ensures Sound(ExecMarkLine(db, o, id, target).0)
  {
    MarkedRows(db, id, target);
    MarkedTotals(db, id, target);
    assert UniqueIds(SetLineStatus(db.lines, id, target));
  }

  lemma AmountNonNegative(line: OrderLine)
    requires line.unitPriceAtOrder >= 0 && line.quantity > 0
    ensures Amount(line) >= 0
  {
  }

  lemma DeleteLineKeepsSound(db: Db, o: int, id: nat)
    requires Sound(db)
    ensures Sound(ExecDeleteLine(db, o, id).0)
  {
    var found := FindLine(db.lines, id);
    if found.Some? && found.value.orderId == o {
      var lines := WithoutLine(db.lines, id);
      WithoutLineUnique(db.lines, id);
      forall x | x != o ensures OrderTotal(lines, x) == OrderTotal(db.lines, x) {
        TotalOfRemaining(db.lines, found.value, x);
      }
      SoundRowsFit(db);
      SettleKeepsSound(db, lines, o, db.nextLine);
    }
  }

  /** What is left after a delete was representable before: the recompute of a delete never overflows. */
  lemma DeleteLineNeverOverflows(db: Db, o: int, id: nat)
    requires Sound(db)
    ensures ExecDeleteLine(db, o, id).1 != ServerError
  {
    var found := FindLine(db.lines, id);
    if found.Some? && found.value.orderId == o {
      TotalOfRemaining(db.lines, found.value, o);
      AmountNonNegative(found.value);
    }
  }

  lemma ExecKeepsSound(db: Db, r: Request)
    requires Sound(db)
    ensures Sound(Exec(db, r).0)
  {
    match r
    case AddLine(o, p, quantity) => AddLineKeepsSound(db, o, p, quantity);
    case UpdateLineStatus(o, id, target) => MarkKeepsSound(db, o, id, target);
    case DeleteLine(o, id) => DeleteLineKeepsSound(db, o, id);
    case CreateOrder(_) => OrderKeepsSound(db, r);
    case UpdateOrderStatus(_, _) => OrderKeepsSound(db, r);
    case CancelOrder(_) => OrderKeepsSound(db, r);
    case DeleteOrder(_) => OrderKeepsSound(db, r);
    case CreateCustomer => CatalogueKeepsSound(db, r);
    case DeleteCustomer(_) => CatalogueKeepsSound(db, r);
    case CreateProduct(_) => CatalogueKeepsSound(db, r);
    case UpdateProduct(_, _) => CatalogueKeepsSound(db, r);
    case DeleteProduct(_) => CatalogueKeepsSound(db, r);
  }

  lemma FailureChangesNothing(db: Db, r: Request)
    ensures Exec(db, r).1 != Success ==> Exec(db, r).0 == db
  {
  }

  /**
   * Every reachable store is referentially sound, and every stored total is the total of exactly the
   * lines that reference the order, in whatever order a query yields them.
   */
  lemma {:induction false} ReachableIsSound(requests: seq<Request>)
    ensures Sound(Run(Empty, requests))
    ensures var db := Run(Empty, requests);
            forall o, rows :: o in db.orders && multiset(rows) == multiset(LinesOf(db.lines, o)) ==>
              db.orders[o].totalAmount == ComputeTotal(rows)
  {
    if requests != [] {
      ReachableIsSound(requests[..|requests| - 1]);
      ExecKeepsSound(Run(Empty, requests[..|requests| - 1]), requests[|requests| - 1]);
    }
    var db := Run(Empty, requests);
    forall o, rows | o in db.orders && multiset(rows) == multiset(LinesOf(db.lines, o))
      ensures db.orders[o].totalAmount == ComputeTotal(rows)
    {
      TotalOfQueriedRows(db.lines, o, rows);
    }
  }

  // ---------------------------------------------------------------- the session

  class Session {
    var customers: set<int>
    var products: map<int, Product>
    var orders: map<int, Order>
    var lines: seq<OrderLine>
    var nextCustomer: int
    var nextProduct: int
    var nextOrder: int
    var nextLine: nat

    function State(): Db
      reads this
    {
      Db(customers, products, orders, lines, nextCustomer, nextProduct, nextOrder, nextLine)
    }

    ghost predicate Valid()
      reads this
    {
      Sound(State())
    }

    constructor ()
      ensures Valid() && State() == Empty
    {
      customers, products, orders, lines := {}, map[], map[], [];
      nextCustomer, nextProduct, nextOrder, nextLine := 1, 1, 1, 1;
    }

    /** Puts the tables back to where the transaction began. */
    method Rollback(saved: Db)
      modifies this
      ensures State() == saved
    {
      customers, products, orders, lines := saved.customers, saved.products, saved.orders, saved.lines;
      nextCustomer, nextProduct := saved.nextCustomer, saved.nextProduct;
      nextOrder, nextLine := saved.nextOrder, saved.nextLine;
    }

    /**
     * One request in its own transaction: the handler writes as it goes, its writes are committed when
     * it succeeds and rolled back when it raises.
     */
    method Handle(r: Request) returns (response: Response)
      requires Valid()
      modifies this
      ensures Valid()
      ensures (State(), response) == Exec(old(State()), r)
    {
      var saved := State();
      ExecKeepsSound(saved, r);
      FailureChangesNothing(saved, r);
      response := Dispatch(r);
      if response != Success {
        Rollback(saved);
      }
    }

    method Dispatch(r: Request) returns (response: Response)
      modifies this
      ensures response == Exec(old(State()), r).1
      ensures response == Success ==> State() == Exec(old(State()), r).0
    {
      match r
      case CreateCustomer => response := AddCustomer();
      case DeleteCustomer(c) => response := RemoveCustomer(c);
      case CreateProduct(p) => response := AddProduct(p);
      case UpdateProduct(id, p) => response := ChangeProduct(id, p);
      case DeleteProduct(id) => response := RemoveProduct(id);
      case CreateOrder(c) => response := PlaceOrder(c);
      case UpdateOrderStatus(o, target) => response := ChangeOrderStatus(o, target);
      case CancelOrder(o) => response := Cancel(o);
      case DeleteOrder(o) => response := RemoveOrder(o);
      case AddLine(o, p, quantity) => response := AddOrderLine(o, p, quantity);
      case UpdateLineStatus(o, id, target) => response := ChangeLineStatus(o, id, target);
      case DeleteLine(o, id) => response := RemoveLine(o, id);
    }

    /** One pass over the order_line table. */
    method SumOfLines(orderId: int) returns (total: int)
      ensures total == OrderTotal(lines, orderId)
    {
      total := 0;
      for i := 0 to |lines|
        invariant total == OrderTotal(lines[..i], orderId)
      {
        assert lines[..i + 1] == lines[..i] + [lines[i]];
        TotalOfAppended(lines[..i], lines[i], orderId);
        if lines[i].orderId == orderId {
          total := total + Amount(lines[i]);
        }
      }
      assert lines[..|lines|] == lines;
    }

    /** Fails when the column cannot hold the total. */
    method RecomputeOrderTotal(orderId: int) returns (ok: bool)
      requires orderId in orders
      modifies this`orders
      ensures ok <==> OrderTotal(lines, orderId) < NUMERIC_LIMIT
      ensures orders == if ok then Recomputed(old(orders), lines, orderId) else old(orders)
    {
      var total := SumOfLines(orderId);
      ok := total < NUMERIC_LIMIT;
      if ok {
        orders := orders[orderId := orders[orderId].(totalAmount := total)];
      }
    }

    /** The line is stored before the total is; when the total does not fit, the line is left behind. */
    method AddOrderLine(orderId: int, productId: int, quantity: int) returns (response: Response)
      modifies this
      ensures response == ExecAddLine(old(State()), orderId, productId, quantity).1
      ensures response == Success ==> State() == ExecAddLine(old(State()), orderId, productId, quantity).0
      ensures response == ServerError && quantity <= INT4_MAX ==>
                && productId in old(products) && orders == old(orders)
                && lines == old(lines) + [NewLine(old(State()), orderId, productId, quantity)]
      ensures response != Success && (response != ServerError || quantity > INT4_MAX) ==> State() == old(State())
    {
      if productId <= 0 || quantity <= 0 { return Unprocessable; }
      if orderId !in orders { return NotFound; }
      if productId !in products { return Unprocessable; }
      if quantity > INT4_MAX { return ServerError; }
      var line := OrderLine(nextLine, orderId, productId, quantity, products[productId].unitPrice, Pending);
      lines, nextLine := lines + [line], nextLine + 1;
      var ok := RecomputeOrderTotal(orderId);
      return if ok then Success else ServerError;
    }

    method ChangeLineStatus(orderId: int, lineId: nat, target: LineStatus) returns (response: Response)
      modifies this
      ensures (State(), response) == ExecMarkLine(old(State()), orderId, lineId, target)
    {
      var line := FindLine(lines, lineId);
      if line.None? || line.value.orderId != orderId { return NotFound; }
      if !line.value.status.CanTransitionTo(target) { return Conflict; }
      lines := SetLineStatus(lines, lineId, target);
      return Success;
    }

    method RemoveLine(orderId: int, lineId: nat) returns (response: Response)
      modifies this
      ensures response == ExecDeleteLine(old(State()), orderId, lineId).1
      ensures response == Success ==> State() == ExecDeleteLine(old(State()), orderId, lineId).0
    {
      var line := FindLine(lines, lineId);
      if line.None? || line.value.orderId != orderId { return NotFound; }
      lines := WithoutLine(lines, lineId);
      if orderId in orders {
        var ok := RecomputeOrderTotal(orderId);
        if !ok { return ServerError; }
      }
      return Success;
    }

    method PlaceOrder(customerId: int) returns (response: Response)
      modifies this
      ensures (State(), response) == ExecOrder(old(State()), CreateOrder(customerId))
    {
      if customerId !in customers { return Unprocessable; }
      orders, nextOrder := orders[nextOrder := Order(customerId, PENDING, 0)], nextOrder + 1;
      return Success;
    }

    method ChangeOrderStatus(orderId: int, target: OrderStatus) returns (response: Response)
      modifies this
      ensures (State(), response) == ExecOrder(old(State()), UpdateOrderStatus(orderId, target))
    {
      if orderId !in orders { return NotFound; }
      if !orders[orderId].status.CanTransitionTo(target) { return Conflict; }
      orders := orders[orderId := orders[orderId].(status := target)];
      return Success;
    }

    method Cancel(orderId: int) returns (response: Response)
      modifies this
      ensures (State(), response) == ExecOrder(old(State()), CancelOrder(orderId))
    {
      if orderId !in orders { return NotFound; }
      orders := orders[orderId := orders[orderId].(status := CANCELLED)];
      return Success;
    }

    method RemoveOrder(orderId: int) returns (response: Response)
      modifies this
      ensures (State(), response) == ExecOrder(old(State()), DeleteOrder(orderId))
    {
      if orderId !in orders { return NotFound; }
      orders, lines := orders - {orderId}, WithoutOrder(lines, orderId);
      return Success;
    }

    method AddCustomer() returns (response: Response)
      modifies this
      ensures (State(), response) == ExecCatalogue(old(State()), CreateCustomer)
    {
      customers, nextCustomer := customers + {nextCustomer}, nextCustomer + 1;
      return Success;
    }

    method RemoveCustomer(customerId: int) returns (response: Response)
      modifies this
      ensures (State(), response) == ExecCatalogue(old(State()), DeleteCustomer(customerId))
    {
      if customerId !in customers { return NotFound; }
      if exists o :: o in orders && orders[o].customerId == customerId { return ServerError; }
      customers := customers - {customerId};
      return Success;
    }

    method AddProduct(product: Product) returns (response: Response)
      modifies this
      ensures (State(), response) == ExecCatalogue(old(State()), CreateProduct(product))
    {
      if !ValidProduct(product) { return Unprocessable; }
      if NameTaken(products, product.name, 0) { return Conflict; }
      if product.stock > INT4_MAX { return ServerError; }
      products, nextProduct := products[nextProduct := product], nextProduct + 1;
      return Success;
    }

    method ChangeProduct(productId: int, product: Product) returns (response: Response)
      modifies this
      ensures (State(), response) == ExecCatalogue(old(State()), UpdateProduct(productId, product))
    {
      if !ValidProduct(product) { return Unprocessable; }
      if productId !in products { return NotFound; }
      if NameTaken(products, product.name, productId) || product.stock > INT4_MAX { return ServerError; }
      products := products[productId := product];
      return Success;
    }

    method RemoveProduct(productId: int) returns (response: Response)
      modifies this
      ensures (State(), response) == ExecCatalogue(old(State()), DeleteProduct(productId))
    {
      if productId !in products { return NotFound; }
      if exists l :: l in lines && l.productId == productId { return ServerError; }
      products := products - {productId};
      return Success;
    }
  }
}
