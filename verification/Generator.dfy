/**
 * The synthetic training data, for every outcome of its random draws: the generator's three nested
 * tables checked against the churn label they are labelled with.
 */
module Generator {
  import opened Common
  import opened Features

  const MAX_CUSTOMER_AGE_DAYS := 730

  datatype CustomerRecord = CustomerRecord(
    id: int, createdAt: Time, firstOrderAt: Option<Time>, lastOrderAt: Option<Time>)
  datatype OrderRecord = OrderRecord(id: int, customerId: int, createdAt: Time, totalAmount: int, nLines: nat)
  datatype LineRecord = LineRecord(id: int, orderId: int, productId: int, quantity: int, unitPriceAtOrder: int)

  // ---------------------------------------------------------------- random draws

  /** `rng.integers(lo, hi)`: any value in range, and an error on an empty range. */
  method Integers(lo: int, hi: int) returns (x: int)
    requires lo < hi
    ensures lo <= x < hi
  {
    x :| lo <= x < hi;
  }

  method IntegerList(lo: int, hi: int, size: nat) returns (xs: seq<int>)
    requires lo < hi
    ensures |xs| == size && forall x :: x in xs ==> lo <= x < hi
  {
    xs := [];
    for i := 0 to size
      invariant |xs| == i && forall x :: x in xs ==> lo <= x < hi
    {
      var x := Integers(lo, hi);
      xs := xs + [x];
    }
  }

  /** `max(1, rng.poisson(mean))`. */
  method AtLeastOne() returns (n: nat)
    ensures n >= 1
  {
    var draw: nat := *;
    n := Max(1, draw);
  }

  method Amount() returns (cents: int)
  {
    cents := *;
  }

  // ---------------------------------------------------------------- order ages

  method ArgMin(xs: seq<int>) returns (k: nat)
    requires xs != []
    ensures k < |xs| && forall i :: 0 <= i < |xs| ==> xs[k] <= xs[i]
  {
    k := 0;
    for i := 1 to |xs|
      invariant k < |xs| && forall j :: 0 <= j < i ==> xs[k] <= xs[j]
    {
      if xs[i] < xs[k] {
        k := i;
      }
    }
  }

  /** A churn target's ages lie between 91 days and the account's age, in a window of five days an order. */
  ghost predicate TargetAges(ages: seq<int>, ageDays: int) {
    forall a :: a in ages ==> 91 <= a < ageDays && ageDays - 1 - 5 * |ages| <= a
  }

  ghost predicate ActiveAges(ages: seq<int>) {
    exists a :: a in ages && a <= 30
  }

  method OrderAges(isTarget: bool, ageDays: int) returns (ages: seq<int>)
    requires if isTarget then 120 <= ageDays else 0 <= ageDays
    ensures ages != [] && if isTarget then TargetAges(ages, ageDays) else ActiveAges(ages)
  {
    var n := AtLeastOne();
    if isTarget {
      var windowMax := ageDays - 1;
      var windowMin := Max(91, windowMax - n * 5);
      if windowMin >= windowMax {
        windowMin := 91;
      }
      ages := IntegerList(windowMin, windowMax + 1, n);
    } else {
      ages := IntegerList(0, ageDays + 1, n);
      var k := ArgMin(ages);
      var recent := Integers(0, 31);
      ages := ages[k := recent];
      assert ages[k] in ages;
    }
  }

  /** Two of the ages are more than 30 days apart, as the label asks of first and last order. */
  ghost predicate SpreadsOverMonth(ages: seq<int>) {
    exists a, b :: a in ages && b in ages && a - b > 30
  }

  /** A churn target with n orders can spread them over more than 30 days if and only if n is at least seven. */
  lemma SpreadNeedsSevenOrders(n: nat)
    ensures n >= 7 <==>
              exists ages, ageDays :: |ages| == n && 120 <= ageDays < MAX_CUSTOMER_AGE_DAYS
                                      && TargetAges(ages, ageDays) && SpreadsOverMonth(ages)
  {
    if n >= 7 {
      var ages := seq(n, i => if i == 0 then 199 else 164);
      assert ages[0] in ages && ages[1] in ages && ages[0] - ages[1] == 35;
      assert TargetAges(ages, 200) && SpreadsOverMonth(ages);
    }
  }

  ghost predicate Descending(xs: seq<int>) {
    forall i, j :: 0 <= i < j < |xs| ==> xs[i] >= xs[j]
  }

  function InsertDesc(x: int, sorted: seq<int>): (r: seq<int>)
    ensures multiset(r) == multiset(sorted) + multiset{x}
    ensures forall y :: y in r ==> y == x || y in sorted
  {
    if sorted == [] || x >= sorted[0] then [x] + sorted
    else
      assert sorted == [sorted[0]] + sorted[1..];
      [sorted[0]] + InsertDesc(x, sorted[1..])
  }

  /** `sorted(xs, reverse=True)`. */
  function SortedDesc(xs: seq<int>): (r: seq<int>)
    ensures multiset(r) == multiset(xs)
  {
    if xs == [] then []
    else
      assert xs == [xs[0]] + xs[1..];
      InsertDesc(xs[0], SortedDesc(xs[1..]))
  }

  lemma {:induction false} InsertKeepsDescending(x: int, sorted: seq<int>)
    requires Descending(sorted)
    ensures Descending(InsertDesc(x, sorted))
  {
    if sorted != [] && x < sorted[0] {
      InsertKeepsDescending(x, sorted[1..]);
      var rest := InsertDesc(x, sorted[1..]);
      assert forall j :: 0 <= j < |rest| ==> rest[j] in rest;
    }
  }

  lemma {:induction false} SortedDescIsDescending(xs: seq<int>)
    ensures Descending(SortedDesc(xs))
  {
    if xs != [] {
      SortedDescIsDescending(xs[1..]);
      InsertKeepsDescending(xs[0], SortedDesc(xs[1..]));
    }
  }

  lemma SortedDescSameElements(xs: seq<int>)
    ensures |SortedDesc(xs)| == |xs| && forall x :: x in SortedDesc(xs) <==> x in xs
  {
    var r := SortedDesc(xs);
    assert |r| == |multiset(r)| && |xs| == |multiset(xs)|;
    assert forall x :: x in r <==> x in multiset(r);
  }

  // ---------------------------------------------------------------- customers

  /** The account is a whole number of days old: 120 to 729 for a churn target, 0 to 729 otherwise. */
  ghost predicate AgeInRange(c: CustomerRecord, isTarget: bool, now: Time) {
    var age := now - c.createdAt;
    age % DAY == 0 && (if isTarget then 120 else 0) <= age / DAY < 730
  }

  ghost predicate CustomersOk(cs: seq<CustomerRecord>, nChurned: nat, now: Time) {
    forall i :: 0 <= i < |cs| ==> cs[i].id == i + 1 && AgeInRange(cs[i], i < nChurned, now)
  }

  method CustomerRecords(n: nat, nChurned: nat, now: Time) returns (cs: seq<CustomerRecord>)
    ensures |cs| == n && CustomersOk(cs, nChurned, now)
  {
    cs := [];
    for i := 0 to n
      invariant |cs| == i && CustomersOk(cs, nChurned, now)
    {
      var age := Integers(if i < nChurned then 120 else 0, MAX_CUSTOMER_AGE_DAYS);
      cs := cs + [CustomerRecord(i + 1, now - age * DAY, None, None)];
    }
  }

  // ---------------------------------------------------------------- orders

  function Own(orders: seq<OrderRecord>, id: int): (r: seq<OrderRecord>)
    ensures forall o :: o in r <==> o in orders && o.customerId == id
  {
    if orders == [] then []
    else
      var init, last := Own(orders[..|orders| - 1], id), orders[|orders| - 1];
      if last.customerId == id then init + [last] else init
  }

  lemma {:induction false} OwnConcat(a: seq<OrderRecord>, b: seq<OrderRecord>, id: int)
    ensures Own(a + b, id) == Own(a, id) + Own(b, id)
  {
    if b == [] {
      assert a + b == a;
    } else {
      assert (a + b)[..|a + b| - 1] == a + b[..|b| - 1];
      OwnConcat(a, b[..|b| - 1], id);
    }
  }

  lemma {:induction false} OwnOfOne(orders: seq<OrderRecord>, owner: int, id: int)
    requires forall i :: 0 <= i < |orders| ==> orders[i].customerId == owner
    ensures Own(orders, id) == if id == owner then orders else []
  {
    if orders != [] {
      var init, last := orders[..|orders| - 1], orders[|orders| - 1];
      OwnOfOne(init, owner, id);
      assert orders == init + [last];
    }
  }

  lemma {:induction false} OwnOfNone(orders: seq<OrderRecord>, id: int)
    requires forall i :: 0 <= i < |orders| ==> orders[i].customerId != id
    ensures Own(orders, id) == []
  {
    if orders != [] {
      OwnOfNone(orders[..|orders| - 1], id);
    }
  }

  lemma OwnAppended(before: seq<OrderRecord>, own: seq<OrderRecord>, owner: int, id: int)
    requires forall i :: 0 <= i < |own| ==> own[i].customerId == owner
    requires forall o :: o in before ==> o.customerId < owner
    ensures Own(before + own, id) == if id == owner then own else Own(before, id)
  {
    OwnConcat(before, own, id);
    OwnOfOne(own, owner, id);
    assert forall i :: 0 <= i < |before| ==> before[i] in before;
    if id == owner {
      OwnOfNone(before, id);
    }
  }

  /** The orders of one customer, newest last, as its ages say. */
  ghost predicate OrdersOk(own: seq<OrderRecord>, isTarget: bool, createdAt: Time, now: Time) {
    && own != []
    && (forall i, j :: 0 <= i < j < |own| ==> own[i].createdAt <= own[j].createdAt)
    && (isTarget ==> forall o :: o in own ==>
          && o.createdAt <= now - 91 * DAY
          && createdAt + DAY <= o.createdAt <= createdAt + (1 + 5 * |own|) * DAY)
    && (!isTarget ==> exists o :: o in own && o.createdAt >= now - 30 * DAY)
  }

  ghost predicate TableOk(orders: seq<OrderRecord>) {
    forall i :: 0 <= i < |orders| ==> orders[i].id == i + 1 && orders[i].nLines >= 1
  }

  lemma AgesGiveOrders(own: seq<OrderRecord>, ages: seq<int>, isTarget: bool, ageDays: int, now: Time)
    requires |own| == |ages| && ages != [] && Descending(ages)
    requires forall i :: 0 <= i < |own| ==> own[i].createdAt == now - ages[i] * DAY
    requires if isTarget then TargetAges(ages, ageDays) else ActiveAges(ages)
    ensures OrdersOk(own, isTarget, now - ageDays * DAY, now)
  {
    if isTarget {
      forall o | o in own
        ensures o.createdAt <= now - 91 * DAY
        ensures now - ageDays * DAY + DAY <= o.createdAt <= now - ageDays * DAY + (1 + 5 * |own|) * DAY
      {
        var i :| 0 <= i < |own| && own[i] == o;
        assert ages[i] in ages;
      }
    } else {
      var a :| a in ages && a <= 30;
      var i :| 0 <= i < |ages| && ages[i] == a;
      assert own[i] in own;
    }
  }

  lemma TargetAgesSorted(ages: seq<int>, isTarget: bool, ageDays: int)
    requires ages != [] && if isTarget then TargetAges(ages, ageDays) else ActiveAges(ages)
    ensures var r := SortedDesc(ages);
            r != [] && |r| == |ages| && Descending(r) && if isTarget then TargetAges(r, ageDays) else ActiveAges(r)
  {
    SortedDescSameElements(ages);
    SortedDescIsDescending(ages);
  }

  /** The ages of one customer's orders, oldest first. */
  method SortedAges(isTarget: bool, ageDays: int) returns (ages: seq<int>)
    requires if isTarget then 120 <= ageDays else 0 <= ageDays
    ensures ages != [] && Descending(ages) && if isTarget then TargetAges(ages, ageDays) else ActiveAges(ages)
  {
    var drawn := OrderAges(isTarget, ageDays);
    TargetAgesSorted(drawn, isTarget, ageDays);
    ages := SortedDesc(drawn);
  }

  /** The inner loop: one order for each age. */
  method RecordsOfAges(customerId: int, ages: seq<int>, firstId: int, now: Time) returns (own: seq<OrderRecord>)
    ensures |own| == |ages|
    ensures forall i :: 0 <= i < |own| ==>
              && own[i].id == firstId + i && own[i].customerId == customerId && own[i].nLines >= 1
              && own[i].createdAt == now - ages[i] * DAY
  {
    own := [];
    for i := 0 to |ages|
      invariant |own| == i
      invariant forall j :: 0 <= j < i ==>
                  && own[j].id == firstId + j && own[j].customerId == customerId && own[j].nLines >= 1
                  && own[j].createdAt == now - ages[j] * DAY
    {
      var nLines := AtLeastOne();
      var total := Amount();
      own := own + [OrderRecord(firstId + i, customerId, now - ages[i] * DAY, total, nLines)];
    }
  }

  /** The body of the outer loop. */
  method OrdersOfCustomer(c: CustomerRecord, isTarget: bool, firstId: int, now: Time) returns (own: seq<OrderRecord>)
    requires AgeInRange(c, isTarget, now)
    ensures OrdersOk(own, isTarget, c.createdAt, now)
    ensures forall i :: 0 <= i < |own| ==>
              own[i].id == firstId + i && own[i].customerId == c.id && own[i].nLines >= 1
  {
    var ageDays := (now - c.createdAt) / DAY;
    assert c.createdAt == now - ageDays * DAY;
    var ages := SortedAges(isTarget, ageDays);
    own := RecordsOfAges(c.id, ages, firstId, now);
    AgesGiveOrders(own, ages, isTarget, ageDays, now);
  }

  /** The first `n` customers have their orders. */
  ghost predicate Served(orders: seq<OrderRecord>, cs: seq<CustomerRecord>, nChurned: nat, now: Time, n: nat)
    requires n <= |cs|
  {
    && (forall o :: o in orders ==> 1 <= o.customerId <= n)
    && forall j :: 0 <= j < n ==> OrdersOk(Own(orders, j + 1), j < nChurned, cs[j].createdAt, now)
  }

  lemma OwnAfterServing(before: seq<OrderRecord>, own: seq<OrderRecord>, i: nat, j: nat)
    requires j <= i && forall o :: o in before ==> 1 <= o.customerId <= i
    requires forall k :: 0 <= k < |own| ==> own[k].customerId == i + 1
    ensures Own(before + own, j + 1) == if j == i then own else Own(before, j + 1)
  {
    OwnAppended(before, own, i + 1, j + 1);
  }

  lemma ServeNext(before: seq<OrderRecord>, own: seq<OrderRecord>, cs: seq<CustomerRecord>, nChurned: nat, now: Time,
                  i: nat)
    requires i < |cs| && Served(before, cs, nChurned, now, i)
    requires forall k :: 0 <= k < |own| ==> own[k].customerId == i + 1
    requires OrdersOk(own, i < nChurned, cs[i].createdAt, now)
    ensures Served(before + own, cs, nChurned, now, i + 1)
  {
    forall j: nat | j < i + 1
      ensures OrdersOk(Own(before + own, j + 1), j < nChurned, cs[j].createdAt, now)
    {
      OwnAfterServing(before, own, i, j);
    }
  }

  method OrderRecords(cs: seq<CustomerRecord>, nChurned: nat, now: Time) returns (orders: seq<OrderRecord>)
    requires CustomersOk(cs, nChurned, now)
    ensures TableOk(orders) && Served(orders, cs, nChurned, now, |cs|)
  {
    orders := [];
    for i := 0 to |cs|
      invariant TableOk(orders) && Served(orders, cs, nChurned, now, i)
    {
      var own := OrdersOfCustomer(cs[i], i < nChurned, |orders| + 1, now);
      ServeNext(orders, own, cs, nChurned, now, i);
      orders := orders + own;
    }
  }

  // ---------------------------------------------------------------- lines

  function LineCount(orders: seq<OrderRecord>): nat {
    if orders == [] then 0 else LineCount(orders[..|orders| - 1]) + orders[|orders| - 1].nLines
  }

  ghost predicate LineOk(l: LineRecord, nOrders: int, nProducts: int) {
    1 <= l.orderId <= nOrders && 1 <= l.productId <= nProducts && 1 <= l.quantity <= 4
  }

  ghost predicate HasLine(lines: seq<LineRecord>, orderId: int) {
    exists k :: 0 <= k < |lines| && lines[k].orderId == orderId
  }

  /** Lines of the first `nOrders` orders: numbered from one, each with its parents, each order with some. */
  ghost predicate LinesOk(lines: seq<LineRecord>, nOrders: int, nProducts: int) {
    && (forall k :: 0 <= k < |lines| ==> lines[k].id == k + 1 && LineOk(lines[k], nOrders, nProducts))
    && (forall id :: 1 <= id <= nOrders ==> HasLine(lines, id))
  }

  /** The inner loop: the lines of one order. */
  method LinesOfOrder(orderId: int, nLines: nat, firstId: int, nProducts: int) returns (own: seq<LineRecord>)
    requires nProducts >= 1
    ensures |own| == nLines
    ensures forall k :: 0 <= k < nLines ==>
              own[k].id == firstId + k && own[k].orderId == orderId
              && 1 <= own[k].productId <= nProducts && 1 <= own[k].quantity <= 4
  {
    own := [];
    for j := 0 to nLines
      invariant |own| == j
      invariant forall k :: 0 <= k < j ==>
                  own[k].id == firstId + k && own[k].orderId == orderId
                  && 1 <= own[k].productId <= nProducts && 1 <= own[k].quantity <= 4
    {
      var product := Integers(1, nProducts + 1);
      var quantity := Integers(1, 5);
      var price := Amount();
      own := own + [LineRecord(firstId + j, orderId, product, quantity, price)];
    }
  }

  lemma LinesGrow(before: seq<LineRecord>, own: seq<LineRecord>, orderId: int, nProducts: int)
    requires orderId >= 1 && LinesOk(before, orderId - 1, nProducts) && own != []
    requires forall k :: 0 <= k < |own| ==>
               own[k].id == |before| + 1 + k && own[k].orderId == orderId
               && 1 <= own[k].productId <= nProducts && 1 <= own[k].quantity <= 4
    ensures LinesOk(before + own, orderId, nProducts)
  {
    var lines := before + own;
    forall id | 1 <= id <= orderId ensures HasLine(lines, id) {
      if id < orderId {
        assert HasLine(before, id);
        var k :| 0 <= k < |before| && before[k].orderId == id;
        assert lines[k].orderId == id;
      } else {
        assert lines[|before|].orderId == id;
      }
    }
  }

  method LineRecords(orders: seq<OrderRecord>, nProducts: int) returns (lines: seq<LineRecord>)
    requires TableOk(orders) && nProducts >= 1
    ensures LinesOk(lines, |orders|, nProducts) && |lines| == LineCount(orders)
  {
    lines := [];
    for i := 0 to |orders|
      invariant LinesOk(lines, i, nProducts) && |lines| == LineCount(orders[..i])
    {
      assert orders[..i + 1][..i] == orders[..i];
      var own := LinesOfOrder(orders[i].id, orders[i].nLines, |lines| + 1, nProducts);
      LinesGrow(lines, own, i + 1, nProducts);
      lines := lines + own;
    }
    assert orders[..|orders|] == orders;
  }

  // ---------------------------------------------------------------- annotation and label

  function Earliest(orders: seq<OrderRecord>): (r: Time)
    requires orders != []
    ensures exists o :: o in orders && o.createdAt == r
    ensures forall o :: o in orders ==> r <= o.createdAt
  {
    var last := orders[|orders| - 1];
    if |orders| == 1 then last.createdAt
    else
      var rest := orders[..|orders| - 1];
      assert orders == rest + [last];
      Min(Earliest(rest), last.createdAt)
  }

  function Latest(orders: seq<OrderRecord>): (r: Time)
    requires orders != []
    ensures exists o :: o in orders && o.createdAt == r
    ensures forall o :: o in orders ==> o.createdAt <= r
  {
    var last := orders[|orders| - 1];
    if |orders| == 1 then last.createdAt
    else
      var rest := orders[..|orders| - 1];
      assert orders == rest + [last];
      Max(Latest(rest), last.createdAt)
  }

  /** The left merge with each customer's first and last order. */
  function Annotated(c: CustomerRecord, orders: seq<OrderRecord>): CustomerRecord {
    var own := Own(orders, c.id);
    if own == [] then c else c.(firstOrderAt := Some(Earliest(own)), lastOrderAt := Some(Latest(own)))
  }

  predicate IsChurned(c: CustomerRecord, now: Time) {
    LabelChurn(c.createdAt, c.firstOrderAt, c.lastOrderAt, now)
  }

  /**
   * The annotated dates are those of the customer's oldest and newest order; an active customer is never
   * labelled, a target exactly when the account and the span of its orders are old enough.
   */
  ghost predicate LabelMeansTarget(c: CustomerRecord, own: seq<OrderRecord>, isTarget: bool, now: Time) {
    && OrdersOk(own, isTarget, c.createdAt, now)
    && c.firstOrderAt == Some(Earliest(own)) && c.lastOrderAt == Some(Latest(own))
    && (!isTarget ==> !IsChurned(c, now))
    && (isTarget ==> (IsChurned(c, now) <==>
          c.createdAt < now - 120 * DAY && Latest(own) - Earliest(own) > 30 * DAY))
    && (isTarget && |own| <= 6 ==> !IsChurned(c, now))
  }

  lemma DatesFollowAges(own: seq<OrderRecord>, isTarget: bool, createdAt: Time, now: Time)
    requires OrdersOk(own, isTarget, createdAt, now)
    ensures isTarget ==> Latest(own) <= now - 91 * DAY
    ensures isTarget && |own| <= 6 ==> Latest(own) - Earliest(own) <= 30 * DAY
    ensures !isTarget ==> Latest(own) >= now - 30 * DAY
  {
    if isTarget {
      assert createdAt + DAY <= Earliest(own) && Latest(own) <= createdAt + (1 + 5 * |own|) * DAY;
    }
  }

  lemma OrdersDecideLabel(c: CustomerRecord, orders: seq<OrderRecord>, isTarget: bool, now: Time)
    requires OrdersOk(Own(orders, c.id), isTarget, c.createdAt, now)
    ensures LabelMeansTarget(Annotated(c, orders), Own(orders, c.id), isTarget, now)
  {
    DatesFollowAges(Own(orders, c.id), isTarget, c.createdAt, now);
  }

  /** Customer `i` of the result, against the order table. */
  ghost predicate Described(c: CustomerRecord, orders: seq<OrderRecord>, i: nat, nChurned: nat, now: Time) {
    && c.id == i + 1 && AgeInRange(c, i < nChurned, now)
    && LabelMeansTarget(c, Own(orders, i + 1), i < nChurned, now)
  }

  lemma CustomerIsDescribed(cs: seq<CustomerRecord>, orders: seq<OrderRecord>, nChurned: nat, now: Time, i: nat)
    requires i < |cs| && CustomersOk(cs, nChurned, now) && Served(orders, cs, nChurned, now, |cs|)
    ensures Described(Annotated(cs[i], orders), orders, i, nChurned, now)
  {
    OrdersDecideLabel(cs[i], orders, i < nChurned, now);
  }

  /**
   * For every outcome of the draws: ids run from one, every reference has its parent, every order has
   * lines, every customer has orders and carries the dates of its oldest and newest, no active customer
   * is labelled churned, and a churn target is labelled exactly when its account is older than 120 days
   * and its oldest and newest orders are more than 30 apart; with six orders or fewer, never.
   */
  method GenerateDataset(nCustomers: nat, nProducts: int, nChurned: nat, now: Time)
    returns (customers: seq<CustomerRecord>, orders: seq<OrderRecord>, lines: seq<LineRecord>)
    requires nCustomers >= 1 && nProducts >= 1 && nChurned <= nCustomers
    ensures |customers| == nCustomers
    ensures forall i: nat :: i < nCustomers ==> Described(customers[i], orders, i, nChurned, now)
    ensures forall id :: 1 <= id <= nCustomers ==> Own(orders, id) != []
    ensures TableOk(orders) && forall o :: o in orders ==> 1 <= o.customerId <= nCustomers
    ensures LinesOk(lines, |orders|, nProducts) && |lines| == LineCount(orders)
  {
    var cs := CustomerRecords(nCustomers, nChurned, now);
    orders := OrderRecords(cs, nChurned, now);
    lines := LineRecords(orders, nProducts);
    customers := seq(nCustomers, i requires 0 <= i < |cs| => Annotated(cs[i], orders));
    forall i: nat | i < nCustomers ensures Described(customers[i], orders, i, nChurned, now) {
      CustomerIsDescribed(cs, orders, nChurned, now, i);
    }
    forall id | 1 <= id <= nCustomers ensures Own(orders, id) != [] {
      assert Described(customers[id - 1], orders, id - 1, nChurned, now);
    }
  }
}
