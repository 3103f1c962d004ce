/**
 * The churn features, computed twice: per customer from loaded rows, and for a whole table by
 * grouping. Times are microseconds since 0001-01-01T00:00Z, amounts whole cents, ratios exact.
 */
module Features {
  import opened Common

  type Time = int
  const DAY: Time := 86_400_000_000

  datatype Customer = Customer(
    id: int, email: Option<string>, createdAt: Time, firstOrderAt: Option<Time>, lastOrderAt: Option<Time>)
  datatype OrderRow = OrderRow(id: int, customerId: int, createdAt: Option<Time>, totalAmount: Option<int>)
  datatype LineRow = LineRow(orderId: int, productId: int)

  datatype Vector = Vector(
    daysSinceLastOrder: int, revenue30d: int, revenue90d: int, revenue365d: int,
    orderFrequency: real, cartDiversity: real, emailDomainClass: int, lifetimeDays: int)

  /** `timedelta.days`: whole days, rounded down. */
  function Days(t: Time): int {
    t / DAY
  }

  /** `datetime.toordinal`: day 1 is the first day of year 1. */
  function ToOrdinal(t: Time): int {
    Days(t) + 1
  }

  // ---------------------------------------------------------------- email domain

  const MAINSTREAM := {"gmail.com", "outlook.com", "hotmail.com", "yahoo.com", "icloud.com",
                       "live.com", "msn.com", "aol.com", "protonmail.com", "yandex.com"}
  const DISPOSABLE := {"tempmail.com", "10minutemail.com", "guerrillamail.com", "mailinator.com", "throwaway.email"}

  function Lower(s: string): string {
    seq(|s|, i requires 0 <= i < |s| => if 'A' <= s[i] <= 'Z' then s[i] - 'A' + 'a' else s[i])
  }

  function Strip(s: string): string {
    if s != [] && s[0] in " \t\n\r" then Strip(s[1..])
    else if s != [] && s[|s| - 1] in " \t\n\r" then Strip(s[..|s| - 1])
    else s
  }

  function AfterLastAt(s: string): string {
    if s == [] || s[|s| - 1] == '@' then [] else AfterLastAt(s[..|s| - 1]) + [s[|s| - 1]]
  }

  function ClassifyDomain(domain: string): int {
    if domain == "" then 3 else if domain in DISPOSABLE then 2 else if domain in MAINSTREAM then 1 else 0
  }

  function ClassifyEmailDomain(email: string): int {
    if '@' !in email then 3 else ClassifyDomain(Strip(Lower(AfterLastAt(email))))
  }

  /** Only what follows the last `@` counts, whatever the local part holds. */
  lemma DomainDecides(local: string, domain: string)
    requires '@' !in domain
    ensures ClassifyEmailDomain(local + "@" + domain) == ClassifyDomain(Strip(Lower(domain)))
  {
    assert (local + "@" + domain)[|local|] == '@';
    AfterLastAtIsDomain(local + "@", domain);
  }

  lemma {:induction false} AfterLastAtIsDomain(prefix: string, domain: string)
    requires prefix != [] && prefix[|prefix| - 1] == '@' && '@' !in domain
    ensures AfterLastAt(prefix + domain) == domain
  {
    if domain == [] {
      assert prefix + domain == prefix;
    } else {
      assert (prefix + domain)[..|prefix + domain| - 1] == prefix + domain[..|domain| - 1];
      AfterLastAtIsDomain(prefix, domain[..|domain| - 1]);
      assert domain[|domain| - 1] in domain;
    }
  }

  /** Lower case changes the capital letters A to Z by 32 and nothing else. */
  lemma LowerExactly(s: string, i: nat)
    requires i < |s|
    ensures |Lower(s)| == |s|
    ensures Lower(s)[i] as int == s[i] as int + if 65 <= s[i] as int <= 90 then 32 else 0
  {
  }

  predicate Blank(c: char) {
    c == ' ' || c == '\t' || c == '\n' || c == '\r'
  }

  lemma TailSlice(s: string, i: nat, j: nat)
    requires i <= j < |s|
    ensures s[1..][i..j] == s[i + 1..j + 1]
  {
  }

  /** Stripping keeps a stretch of the string with only blanks around it. */
  lemma {:induction false} StripIsMiddle(s: string) returns (i: nat, j: nat)
    ensures i <= j <= |s| && Strip(s) == s[i..j]
    ensures forall k :: 0 <= k < i || j <= k < |s| ==> Blank(s[k])
  {
    if s != [] && s[0] in " \t\n\r" {
      i, j := StripIsMiddle(s[1..]);
      TailSlice(s, i, j);
      i, j := i + 1, j + 1;
      assert forall k :: 1 <= k < |s| ==> s[k] == s[1..][k - 1];
    } else if s != [] && s[|s| - 1] in " \t\n\r" {
      i, j := StripIsMiddle(s[..|s| - 1]);
      assert s[..|s| - 1][i..j] == s[i..j];
    } else {
      i, j := 0, |s|;
    }
  }

  /** And that stretch neither begins nor ends with a blank. */
  lemma {:induction false} StripLeavesNoBlank(s: string)
    ensures Strip(s) != [] ==> !Blank(Strip(s)[0]) && !Blank(Strip(s)[|Strip(s)| - 1])
  {
    if s != [] && s[0] in " \t\n\r" {
      StripLeavesNoBlank(s[1..]);
    } else if s != [] && s[|s| - 1] in " \t\n\r" {
      StripLeavesNoBlank(s[..|s| - 1]);
    }
  }

  /**
   * The four classes: 3 for an address without a domain, 2 for the five disposable providers, 1 for the
   * ten mainstream ones, whatever the case and the blanks around, and 0 for any other domain.
   */
  lemma EmailClassExactly(local: string, domain: string)
    requires '@' !in domain
    ensures var d, code := Strip(Lower(domain)), ClassifyEmailDomain(local + "@" + domain);
            var disposable := d in {"tempmail.com", "10minutemail.com", "guerrillamail.com", "mailinator.com",
                                    "throwaway.email"};
            var mainstream := d in {"gmail.com", "outlook.com", "hotmail.com", "yahoo.com", "icloud.com", "live.com",
                                    "msn.com", "aol.com", "protonmail.com", "yandex.com"};
            && (d == "" ==> code == 3) && (disposable ==> code == 2) && (mainstream && !disposable ==> code == 1)
            && (d != "" && !disposable && !mainstream ==> code == 0)
    ensures ClassifyEmailDomain(domain) == 3
  {
    DomainDecides(local, domain);
  }

  // ---------------------------------------------------------------- one customer

  /** An amount counts when its order is dated on or after the threshold; nothing bounds it above. */
  function Counted(o: OrderRow, threshold: Time): int {
    if o.createdAt.Some? && o.createdAt.value >= threshold && o.totalAmount.Some? then o.totalAmount.value else 0
  }

  function RevenueSince(orders: seq<OrderRow>, threshold: Time): int {
    if orders == [] then 0
    else RevenueSince(orders[..|orders| - 1], threshold) + Counted(orders[|orders| - 1], threshold)
  }

  method SumRevenueWithin(orders: seq<OrderRow>, now: Time, window: Time) returns (total: int)
    ensures total == RevenueSince(orders, now - window)
  {
    var threshold := now - window;
    total := 0;
    for i := 0 to |orders|
      invariant total == RevenueSince(orders[..i], threshold)
    {
      assert orders[..i + 1][..i] == orders[..i];
      if orders[i].createdAt.Some? {
        if orders[i].createdAt.value >= threshold {
          if orders[i].totalAmount.Some? {
            total := total + orders[i].totalAmount.value;
          }
        }
      }
    }
    assert orders[..|orders|] == orders;
  }

  /** The sum over the closed window that the documentation gives. */
  function RevenueBetween(orders: seq<OrderRow>, from: Time, to: Time): int {
    if orders == [] then 0
    else
      var last := orders[|orders| - 1];
      RevenueBetween(orders[..|orders| - 1], from, to)
      + if last.createdAt.Some? && last.createdAt.value > to then 0 else Counted(last, from)
  }

  lemma {:induction false} RevenueSplits(orders: seq<OrderRow>, from: Time, to: Time)
    requires from <= to + 1
    ensures RevenueSince(orders, from) == RevenueBetween(orders, from, to) + RevenueSince(orders, to + 1)
  {
    if orders != [] {
      RevenueSplits(orders[..|orders| - 1], from, to);
    }
  }

  lemma {:induction false} NothingLater(orders: seq<OrderRow>, to: Time)
    requires forall o :: o in orders && o.createdAt.Some? ==> o.createdAt.value <= to
    ensures RevenueSince(orders, to + 1) == 0
  {
    if orders != [] {
      NothingLater(orders[..|orders| - 1], to);
      assert orders[|orders| - 1] in orders;
    }
  }

  /**
   * The sum is the closed window's if and only if the orders dated after now come to nothing; so it is
   * when there are none, and one of them with an amount is enough to spoil it.
   */
  lemma ClosedWindowExactly(orders: seq<OrderRow>, now: Time, window: Time)
    requires window >= 0
    ensures RevenueSince(orders, now - window) == RevenueBetween(orders, now - window, now)
            <==> RevenueSince(orders, now + 1) == 0
    ensures (forall o :: o in orders && o.createdAt.Some? ==> o.createdAt.value <= now) ==>
              RevenueSince(orders, now - window) == RevenueBetween(orders, now - window, now)
    ensures var late := [OrderRow(1, 1, Some(now + 1), Some(500))];
            RevenueSince(late, now - window) == 500 && RevenueBetween(late, now - window, now) == 0
  {
    RevenueSplits(orders, now - window, now);
    if forall o :: o in orders && o.createdAt.Some? ==> o.createdAt.value <= now {
      NothingLater(orders, now);
    }
  }

  function LatestDated(orders: seq<OrderRow>): (r: Option<Time>)
    ensures r.None? <==> forall o :: o in orders ==> o.createdAt.None?
    ensures r.Some? ==> forall o :: o in orders && o.createdAt.Some? ==> o.createdAt.value <= r.value
  {
    if orders == [] then None
    else
      var rest, last := LatestDated(orders[..|orders| - 1]), orders[|orders| - 1].createdAt;
      if last.None? then rest else if rest.None? then last else Some(Max(rest.value, last.value))
  }

  function ProductIds(lines: seq<LineRow>): set<int> {
    set l | l in lines :: l.productId
  }

  function Diversity(lines: seq<LineRow>): real {
    if lines == [] then 0.0 else |ProductIds(lines)| as real / |lines| as real
  }

  function LifetimeDays(c: Customer, now: Time): (r: int)
    ensures r >= 1
  {
    Max(1, Days(now - c.createdAt))
  }

  function ExtractFeatures(c: Customer, orders: seq<OrderRow>, lines: seq<LineRow>, now: Time): Vector {
    var last := match LatestDated(orders) case Some(t) => t case None => c.createdAt;
    Vector(
      Max(0, Days(now - last)),
      RevenueSince(orders, now - 30 * DAY),
      RevenueSince(orders, now - 90 * DAY),
      RevenueSince(orders, now - 365 * DAY),
      |orders| as real / LifetimeDays(c, now) as real,
      Diversity(lines),
      EmailClass(c),
      LifetimeDays(c, now))
  }

  // ---------------------------------------------------------------- the whole table

  function Lookup<V>(m: map<int, V>, key: int, default: V): V {
    if key in m then m[key] else default
  }

  /** `orders[orders.created_at >= threshold]`: an undated order fails the comparison. */
  function Windowed(orders: seq<OrderRow>, threshold: Time): seq<OrderRow> {
    if orders == [] then []
    else
      var init, last := Windowed(orders[..|orders| - 1], threshold), orders[|orders| - 1];
      if last.createdAt.Some? && last.createdAt.value >= threshold then init + [last] else init
  }

  /** `groupby("customer_id")["total_amount"].sum()`: a missing amount adds nothing but keeps the group. */
  function GroupSum(orders: seq<OrderRow>): map<int, int> {
    if orders == [] then map[]
    else
      var groups, last := GroupSum(orders[..|orders| - 1]), orders[|orders| - 1];
      var amount := match last.totalAmount case Some(a) => a case None => 0;
      groups[last.customerId := Lookup(groups, last.customerId, 0) + amount]
  }

  function GroupSize(keys: seq<int>): map<int, int> {
    if keys == [] then map[]
    else
      var groups, last := GroupSize(keys[..|keys| - 1]), keys[|keys| - 1];
      groups[last := Lookup(groups, last, 0) + 1]
  }

  /** A line joined to its order's customer; `groupby` drops the rows with none. */
  datatype Joined = Joined(customerId: int, productId: int)

  function CustomersOf(orders: seq<OrderRow>, orderId: int): (r: seq<int>)
    ensures forall c :: c in r <==> exists o :: o in orders && o.id == orderId && o.customerId == c
  {
    if orders == [] then []
    else
      var init, last := CustomersOf(orders[..|orders| - 1], orderId), orders[|orders| - 1];
      if last.id == orderId then init + [last.customerId] else init
  }

  function JoinLine(customers: seq<int>, productId: int): seq<Joined> {
    seq(|customers|, i requires 0 <= i < |customers| => Joined(customers[i], productId))
  }

  /** `order_lines.merge(orders, how="left")` without the unmatched rows. */
  function Merge(lines: seq<LineRow>, orders: seq<OrderRow>): seq<Joined> {
    if lines == [] then []
    else
      var last := lines[|lines| - 1];
      Merge(lines[..|lines| - 1], orders) + JoinLine(CustomersOf(orders, last.orderId), last.productId)
  }

  /** `groupby("customer_id")["product_id"]`, the distinct values of each group. */
  function GroupProducts(rows: seq<Joined>): map<int, set<int>> {
    if rows == [] then map[]
    else
      var groups, last := GroupProducts(rows[..|rows| - 1]), rows[|rows| - 1];
      groups[last.customerId := Lookup(groups, last.customerId, {}) + {last.productId}]
  }

  function JoinedKeys(rows: seq<Joined>): seq<int> {
    seq(|rows|, i requires 0 <= i < |rows| => rows[i].customerId)
  }

  function OrderKeys(orders: seq<OrderRow>): seq<int> {
    seq(|orders|, i requires 0 <= i < |orders| => orders[i].customerId)
  }

  function RevenueColumn(c: Customer, orders: seq<OrderRow>, threshold: Time): int {
    Lookup(GroupSum(Windowed(orders, threshold)), c.id, 0)
  }

  function Recency(c: Customer, now: Time): int {
    match c.lastOrderAt case Some(t) => Max(0, Days(now - t)) case None => ToOrdinal(now)
  }

  function Frequency(counts: map<int, int>, c: Customer, now: Time): real {
    Lookup(counts, c.id, 0) as real / LifetimeDays(c, now) as real
  }

  function EmailClass(c: Customer): int {
    ClassifyEmailDomain(match c.email case Some(e) => e case None => "")
  }

  function DiversityOf(products: map<int, set<int>>, sizes: map<int, int>, id: int): real {
    if id in products && id in sizes && sizes[id] > 0 then |products[id]| as real / sizes[id] as real else 0.0
  }

  /** The row `build_features` gives customer `c`. */
  function BatchRow(c: Customer, orders: seq<OrderRow>, lines: seq<LineRow>, now: Time): Vector {
    var joined := Merge(lines, orders);
    Vector(
      Recency(c, now),
      RevenueColumn(c, orders, now - 30 * DAY),
      RevenueColumn(c, orders, now - 90 * DAY),
      RevenueColumn(c, orders, now - 365 * DAY),
      Frequency(GroupSize(OrderKeys(orders)), c, now),
      DiversityOf(GroupProducts(joined), GroupSize(JoinedKeys(joined)), c.id),
      EmailClass(c),
      LifetimeDays(c, now))
  }

  const WINDOWS := [30, 90, 365]

  /** The three revenue windows, a column each. */
  method RevenueColumns(customers: seq<Customer>, orders: seq<OrderRow>, now: Time) returns (revenue: seq<seq<int>>)
    ensures |revenue| == |WINDOWS|
    ensures forall w :: 0 <= w < |WINDOWS| ==> |revenue[w]| == |customers|
    ensures forall w, i :: 0 <= w < |WINDOWS| && 0 <= i < |customers| ==>
              revenue[w][i] == RevenueColumn(customers[i], orders, now - WINDOWS[w] * DAY)
  {
    var n := |customers|;
    revenue := [];
    for w := 0 to |WINDOWS|
      invariant |revenue| == w
      invariant forall v :: 0 <= v < w ==> |revenue[v]| == n
      invariant forall v, i :: 0 <= v < w && 0 <= i < n ==>
                  revenue[v][i] == RevenueColumn(customers[i], orders, now - WINDOWS[v] * DAY)
    {
      var groups := GroupSum(Windowed(orders, now - WINDOWS[w] * DAY));
      revenue := revenue + [seq(n, i requires 0 <= i < n => Lookup(groups, customers[i].id, 0))];
    }
  }

  /** The columns are filled one after the other. */
  method BuildFeatures(customers: seq<Customer>, orders: seq<OrderRow>, lines: seq<LineRow>, now: Time)
    returns (rows: seq<Vector>)
    ensures |rows| == |customers|
    ensures forall i :: 0 <= i < |rows| ==> rows[i] == BatchRow(customers[i], orders, lines, now)
  {
    var n := |customers|;
    var days := seq(n, i requires 0 <= i < n => Recency(customers[i], now));
    var revenue := RevenueColumns(customers, orders, now);
    assert forall i :: 0 <= i < n ==>
      && revenue[0][i] == RevenueColumn(customers[i], orders, now - 30 * DAY)
      && revenue[1][i] == RevenueColumn(customers[i], orders, now - 90 * DAY)
      && revenue[2][i] == RevenueColumn(customers[i], orders, now - 365 * DAY);
    var counts := GroupSize(OrderKeys(orders));
    var joined := Merge(lines, orders);
    var products, sizes := GroupProducts(joined), GroupSize(JoinedKeys(joined));
    rows := seq(n, i requires 0 <= i < n => Vector(
      days[i], revenue[0][i], revenue[1][i], revenue[2][i],
      Frequency(counts, customers[i], now), DiversityOf(products, sizes, customers[i].id),
      EmailClass(customers[i]), LifetimeDays(customers[i], now)));
  }

  // ---------------------------------------------------------------- the two agree

  function OwnOrders(orders: seq<OrderRow>, customerId: int): (r: seq<OrderRow>)
    ensures forall o :: o in r <==> o in orders && o.customerId == customerId
  {
    if orders == [] then []
    else
      var init, last := OwnOrders(orders[..|orders| - 1], customerId), orders[|orders| - 1];
      if last.customerId == customerId then init + [last] else init
  }

  /** The lines whose order is one of the customer's. */
  function OwnLines(lines: seq<LineRow>, orders: seq<OrderRow>, customerId: int): seq<LineRow> {
    if lines == [] then []
    else
      var init, last := OwnLines(lines[..|lines| - 1], orders, customerId), lines[|lines| - 1];
      if exists o :: o in OwnOrders(orders, customerId) && o.id == last.orderId then init + [last] else init
  }

  ghost predicate UniqueOrderIds(orders: seq<OrderRow>) {
    forall i, j :: 0 <= i < j < |orders| ==> orders[i].id != orders[j].id
  }

  lemma WindowedAppend(orders: seq<OrderRow>, o: OrderRow, id: int, threshold: Time)
    ensures Lookup(GroupSum(Windowed(orders + [o], threshold)), id, 0)
            == Lookup(GroupSum(Windowed(orders, threshold)), id, 0)
             + if o.customerId == id then Counted(o, threshold) else 0
  {
    var w := Windowed(orders, threshold);
    assert (orders + [o])[..|orders|] == orders;
    if o.createdAt.Some? && o.createdAt.value >= threshold {
      assert (w + [o])[..|w|] == w;
    }
  }

  lemma OwnRevenueAppend(orders: seq<OrderRow>, o: OrderRow, id: int, threshold: Time)
    ensures RevenueSince(OwnOrders(orders + [o], id), threshold)
            == RevenueSince(OwnOrders(orders, id), threshold)
             + if o.customerId == id then Counted(o, threshold) else 0
  {
    var own := OwnOrders(orders, id);
    assert (orders + [o])[..|orders|] == orders;
    if o.customerId == id {
      assert (own + [o])[..|own|] == own;
    }
  }

  /** Group-by then reindex is filter then fold. */
  lemma {:induction false} RevenueAgrees(orders: seq<OrderRow>, id: int, threshold: Time)
    ensures Lookup(GroupSum(Windowed(orders, threshold)), id, 0) == RevenueSince(OwnOrders(orders, id), threshold)
  {
    if orders != [] {
      var init, last := orders[..|orders| - 1], orders[|orders| - 1];
      RevenueAgrees(init, id, threshold);
      assert orders == init + [last];
      WindowedAppend(init, last, id, threshold);
      OwnRevenueAppend(init, last, id, threshold);
    }
  }

  lemma {:induction false} CountAgrees(orders: seq<OrderRow>, id: int)
    ensures Lookup(GroupSize(OrderKeys(orders)), id, 0) == |OwnOrders(orders, id)|
  {
    if orders != [] {
      var init := orders[..|orders| - 1];
      CountAgrees(init, id);
      assert OrderKeys(orders)[..|orders| - 1] == OrderKeys(init);
    }
  }

  lemma {:induction false} NoSuchOrder(orders: seq<OrderRow>, orderId: int)
    requires forall i :: 0 <= i < |orders| ==> orders[i].id != orderId
    ensures CustomersOf(orders, orderId) == []
  {
    if orders != [] {
      NoSuchOrder(orders[..|orders| - 1], orderId);
    }
  }

  lemma {:induction false} OneCustomerPerOrder(orders: seq<OrderRow>, orderId: int)
    requires UniqueOrderIds(orders)
    ensures |CustomersOf(orders, orderId)| <= 1
  {
    if orders != [] {
      var init, last := orders[..|orders| - 1], orders[|orders| - 1];
      if last.id == orderId {
        NoSuchOrder(init, orderId);
      } else {
        OneCustomerPerOrder(init, orderId);
      }
    }
  }

  lemma GroupAppend(rows: seq<Joined>, row: Joined)
    ensures GroupProducts(rows + [row])
            == GroupProducts(rows)[row.customerId := Lookup(GroupProducts(rows), row.customerId, {}) + {row.productId}]
    ensures GroupSize(JoinedKeys(rows + [row]))
            == GroupSize(JoinedKeys(rows))[row.customerId := Lookup(GroupSize(JoinedKeys(rows)), row.customerId, 0) + 1]
  {
    assert (rows + [row])[..|rows|] == rows;
    assert JoinedKeys(rows + [row])[..|rows|] == JoinedKeys(rows);
  }

  /** The group of customer `id` in the joined table is the given lines: their number and their products. */
  ghost predicate GroupIs(joined: seq<Joined>, id: int, own: seq<LineRow>) {
    var sizes, products := GroupSize(JoinedKeys(joined)), GroupProducts(joined);
    && (id in sizes <==> own != []) && (id in products <==> own != [])
    && (own != [] ==> sizes[id] == |own| && products[id] == ProductIds(own))
  }

  lemma GroupGrows(joined: seq<Joined>, row: Joined, id: int, own: seq<LineRow>, line: LineRow)
    requires GroupIs(joined, id, own) && row.productId == line.productId
    ensures GroupIs(joined + [row], id, if row.customerId == id then own + [line] else own)
  {
    GroupAppend(joined, row);
    assert ProductIds(own + [line]) == ProductIds(own) + {line.productId};
  }

  /** With unique order ids a line joins at most one row. */
  lemma MergeLastLine(lines: seq<LineRow>, orders: seq<OrderRow>)
    requires UniqueOrderIds(orders) && lines != []
    ensures var last := lines[|lines| - 1];
            var customers := CustomersOf(orders, last.orderId);
            Merge(lines, orders) == Merge(lines[..|lines| - 1], orders)
                                    + if customers == [] then [] else [Joined(customers[0], last.productId)]
    ensures |CustomersOf(orders, lines[|lines| - 1].orderId)| <= 1
  {
    OneCustomerPerOrder(orders, lines[|lines| - 1].orderId);
  }

  lemma GroupStep(before: seq<Joined>, own: seq<LineRow>, customers: seq<int>, line: LineRow, id: int)
    requires GroupIs(before, id, own) && |customers| <= 1
    ensures GroupIs(before + if customers == [] then [] else [Joined(customers[0], line.productId)], id,
                    if id in customers then own + [line] else own)
  {
    if customers == [] {
      assert before + [] == before;
    } else {
      assert customers == [customers[0]];
      GroupGrows(before, Joined(customers[0], line.productId), id, own, line);
    }
  }

  /** The join's group for a customer is the customer's own lines: same count, same distinct products. */
  lemma {:induction false} LinesAgree(lines: seq<LineRow>, orders: seq<OrderRow>, id: int)
    requires UniqueOrderIds(orders)
    ensures GroupIs(Merge(lines, orders), id, OwnLines(lines, orders, id))
  {
    if lines != [] {
      var init, last := lines[..|lines| - 1], lines[|lines| - 1];
      LinesAgree(init, orders, id);
      MergeLastLine(lines, orders);
      OwnsLastLine(lines, orders, id);
      GroupStep(Merge(init, orders), OwnLines(init, orders, id), CustomersOf(orders, last.orderId), last, id);
    }
  }

  lemma OwnsLastLine(lines: seq<LineRow>, orders: seq<OrderRow>, id: int)
    requires lines != []
    ensures var init, last := lines[..|lines| - 1], lines[|lines| - 1];
            var own := OwnLines(init, orders, id);
            if id in CustomersOf(orders, last.orderId)
            then OwnLines(lines, orders, id) == own + [last]
            else OwnLines(lines, orders, id) == own
  {
  }

  /** The seven features other than recency are the same for every customer. */
  lemma OtherFeaturesAgree(c: Customer, orders: seq<OrderRow>, lines: seq<LineRow>, now: Time)
    requires UniqueOrderIds(orders)
    ensures var batch := BatchRow(c, orders, lines, now);
            var single := ExtractFeatures(c, OwnOrders(orders, c.id), OwnLines(lines, orders, c.id), now);
            batch == single.(daysSinceLastOrder := batch.daysSinceLastOrder)
  {
    RevenueAgrees(orders, c.id, now - 30 * DAY);
    RevenueAgrees(orders, c.id, now - 90 * DAY);
    RevenueAgrees(orders, c.id, now - 365 * DAY);
    CountAgrees(orders, c.id);
    LinesAgree(lines, orders, c.id);
  }

  // ---------------------------------------------------------------- what the features are

  /** `n` is the number of whole days in `t`, and 0 if there is none. */
  ghost predicate WholeDays(n: int, t: Time) {
    if t < 86_400_000_000 then n == 0 else n * 86_400_000_000 <= t < (n + 1) * 86_400_000_000
  }

  /** A customer is at least one day old; from the second day on it is the whole days. */
  lemma LifetimeDaysExactly(c: Customer, now: Time)
    ensures if now - c.createdAt < 86_400_000_000 then LifetimeDays(c, now) == 1
            else WholeDays(LifetimeDays(c, now), now - c.createdAt)
  {
  }

  lemma {:induction false} LatestDatedExactly(orders: seq<OrderRow>)
    ensures LatestDated(orders).Some? ==> exists o :: o in orders && o.createdAt == LatestDated(orders)
  {
    if orders != [] && LatestDated(orders).Some? {
      var init, last := orders[..|orders| - 1], orders[|orders| - 1];
      LatestDatedExactly(init);
      assert last in orders && forall o :: o in init ==> o in orders;
    }
  }

  lemma RatioTimes(a: nat, b: nat)
    requires b > 0
    ensures (a as real / b as real) * b as real == a as real
  {
  }

  /** `t` is the date of the latest of the dated orders. */
  ghost predicate LatestIs(orders: seq<OrderRow>, t: Time) {
    && (exists o :: o in orders && o.createdAt == Some(t))
    && forall o :: o in orders && o.createdAt.Some? ==> o.createdAt.value <= t
  }

  /** Serving counts recency from the latest dated order, or from the account's creation without one. */
  lemma ExtractedRecencyExactly(c: Customer, orders: seq<OrderRow>, lines: seq<LineRow>, now: Time, t: Time)
    ensures LatestIs(orders, t) ==>
              WholeDays(ExtractFeatures(c, orders, lines, now).daysSinceLastOrder, now - t)
    ensures (forall o :: o in orders ==> o.createdAt.None?) ==>
              WholeDays(ExtractFeatures(c, orders, lines, now).daysSinceLastOrder, now - c.createdAt)
  {
    LatestDatedExactly(orders);
    assert LatestIs(orders, t) ==> LatestDated(orders) == Some(t);
  }

  /** Training counts it from the customer's own column, or as the number of today without one. */
  lemma BatchRecencyExactly(c: Customer, orders: seq<OrderRow>, lines: seq<LineRow>, now: Time)
    ensures var days := BatchRow(c, orders, lines, now).daysSinceLastOrder;
            && (c.lastOrderAt.Some? ==> WholeDays(days, now - c.lastOrderAt.value))
            && (c.lastOrderAt.None? ==> (days - 1) * 86_400_000_000 <= now < days * 86_400_000_000)
  {
  }

  /** The address decides the class; a customer without one counts as malformed. */
  lemma EmailFeatureExactly(c: Customer, orders: seq<OrderRow>, lines: seq<LineRow>, now: Time)
    ensures var v, w := ExtractFeatures(c, orders, lines, now), BatchRow(c, orders, lines, now);
            && v.emailDomainClass == w.emailDomainClass
            && v.emailDomainClass == if c.email.Some? then ClassifyEmailDomain(c.email.value) else 3
  {
  }

  /** The three windows reach back 30, 90 and 365 days. */
  lemma RevenueWindowsExactly(c: Customer, orders: seq<OrderRow>, lines: seq<LineRow>, now: Time)
    ensures var v := ExtractFeatures(c, orders, lines, now);
            && v.revenue30d == RevenueSince(orders, now - 2_592_000_000_000)
            && v.revenue90d == RevenueSince(orders, now - 7_776_000_000_000)
            && v.revenue365d == RevenueSince(orders, now - 31_536_000_000_000)
  {
  }

  /** Frequency is orders per day of lifetime; diversity is distinct products per line, 0 without lines. */
  ghost predicate RatiosAre(v: Vector, nOrders: nat, lifetimeDays: int, lines: seq<LineRow>) {
    && v.lifetimeDays == lifetimeDays && v.orderFrequency * lifetimeDays as real == nOrders as real
    && if lines == [] then v.cartDiversity == 0.0
       else v.cartDiversity * |lines| as real == |set l | l in lines :: l.productId| as real
  }

  lemma ExtractedRatiosExactly(c: Customer, orders: seq<OrderRow>, lines: seq<LineRow>, now: Time)
    ensures RatiosAre(ExtractFeatures(c, orders, lines, now), |orders|, LifetimeDays(c, now), lines)
  {
    RatioTimes(|orders|, LifetimeDays(c, now));
    if lines != [] {
      RatioTimes(|ProductIds(lines)|, |lines|);
    }
  }

  lemma RatiosIgnoreRecency(v: Vector, w: Vector, nOrders: nat, lifetimeDays: int, lines: seq<LineRow>)
    requires RatiosAre(w, nOrders, lifetimeDays, lines) && v == w.(daysSinceLastOrder := v.daysSinceLastOrder)
    ensures RatiosAre(v, nOrders, lifetimeDays, lines)
  {
  }

  /** The same of a batch row, over the customer's own rows in the tables. */
  lemma BatchRatiosExactly(c: Customer, orders: seq<OrderRow>, lines: seq<LineRow>, now: Time)
    requires UniqueOrderIds(orders)
    ensures RatiosAre(BatchRow(c, orders, lines, now), |OwnOrders(orders, c.id)|, LifetimeDays(c, now),
                      OwnLines(lines, orders, c.id))
  {
    var ownOrders, ownLines := OwnOrders(orders, c.id), OwnLines(lines, orders, c.id);
    OtherFeaturesAgree(c, orders, lines, now);
    ExtractedRatiosExactly(c, ownOrders, ownLines, now);
    RatiosIgnoreRecency(BatchRow(c, orders, lines, now), ExtractFeatures(c, ownOrders, ownLines, now),
                        |ownOrders|, LifetimeDays(c, now), ownLines);
  }

  /**
   * Training and serving see the same eight numbers for a customer if and only if the customer has a
   * dated order. Without one, training falls back on the ordinal of today and serving on the account age.
   */
  lemma PipelinesAgreeExactlyWithAnOrder(c: Customer, orders: seq<OrderRow>, lines: seq<LineRow>, now: Time)
    requires UniqueOrderIds(orders)
    requires c.lastOrderAt == LatestDated(OwnOrders(orders, c.id))
    requires now >= 0 && c.createdAt >= 0
    ensures BatchRow(c, orders, lines, now)
            == ExtractFeatures(c, OwnOrders(orders, c.id), OwnLines(lines, orders, c.id), now)
            <==> exists o :: o in orders && o.customerId == c.id && o.createdAt.Some?
  {
    OtherFeaturesAgree(c, orders, lines, now);
    if c.lastOrderAt.None? {
      DaysMonotone(now - c.createdAt, now);
      assert forall o :: o in orders && o.customerId == c.id ==> o in OwnOrders(orders, c.id);
    } else {
      assert exists o :: o in OwnOrders(orders, c.id) && o.createdAt.Some?;
    }
  }

  lemma DaysMonotone(a: Time, b: Time)
    requires a <= b
    ensures Days(a) <= Days(b)
  {
  }

  // ---------------------------------------------------------------- the label

  function LabelChurn(createdAt: Time, firstOrderAt: Option<Time>, lastOrderAt: Option<Time>, now: Time,
                      churnWindowDays: int := 90, minActivePeriodDays: int := 30, minAccountAgeDays: int := 120): bool
  {
    && firstOrderAt.Some? && lastOrderAt.Some?
    && lastOrderAt.value < now - churnWindowDays * DAY
    && lastOrderAt.value - firstOrderAt.value > minActivePeriodDays * DAY
    && createdAt < now - minAccountAgeDays * DAY
  }

  /**
   * The label in microseconds: a last order more than 90 days ago, more than 30 days after the first, of
   * an account older than 120 days.
   */
  lemma LabelExactly(createdAt: Time, firstOrderAt: Option<Time>, lastOrderAt: Option<Time>, now: Time)
    ensures LabelChurn(createdAt, firstOrderAt, lastOrderAt, now) <==>
              && firstOrderAt.Some? && lastOrderAt.Some?
              && now - lastOrderAt.value > 7_776_000_000_000
              && lastOrderAt.value - firstOrderAt.value > 2_592_000_000_000
              && now - createdAt > 10_368_000_000_000
  {
  }

  /** A labelled customer shows it in the features: nothing within 90 days, and 120 days of lifetime. */
  lemma LabelShowsInFeatures(c: Customer, orders: seq<OrderRow>, lines: seq<LineRow>, now: Time)
    requires LabelChurn(c.createdAt, c.firstOrderAt, c.lastOrderAt, now)
    requires c.lastOrderAt == LatestDated(orders)
    ensures var v := ExtractFeatures(c, orders, lines, now);
            && v.daysSinceLastOrder >= 90 && v.lifetimeDays >= 120
            && v.revenue30d == 0 && v.revenue90d == 0
  {
    NothingSince(orders, now - 30 * DAY);
    NothingSince(orders, now - 90 * DAY);
  }

  lemma {:induction false} NothingSince(orders: seq<OrderRow>, threshold: Time)
    requires forall o :: o in orders && o.createdAt.Some? ==> o.createdAt.value < threshold
    ensures RevenueSince(orders, threshold) == 0
  {
    if orders != [] {
      NothingSince(orders[..|orders| - 1], threshold);
      assert orders[|orders| - 1] in orders;
    }
  }
}
