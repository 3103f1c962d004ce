/** The MCP `create_order` tool behind its bounded, insertion-ordered idempotency cache. */
module Idempotency {
  import opened Common

  const IDEMPOTENCY_MAX := 1024

  datatype OrderRef = OrderRef(id: nat, customerId: int)
  datatype Answer = Ref(ref: OrderRef) | CustomerNotFound(customerId: int)
  datatype Entry = Entry(key: string, ref: OrderRef)

  /** The dictionary in insertion order, and the orders table's next id. */
  datatype State = State(cache: seq<Entry>, nextOrderId: nat)

  function Lookup(cache: seq<Entry>, key: string): Option<OrderRef> {
    if cache == [] then None
    else if cache[0].key == key then Some(cache[0].ref)
    else Lookup(cache[1..], key)
  }

  lemma {:induction false} LookupExactly(cache: seq<Entry>, key: string)
    ensures Lookup(cache, key).None? <==> forall e :: e in cache ==> e.key != key
    ensures Lookup(cache, key).Some? ==> Entry(key, Lookup(cache, key).value) in cache
  {
    if cache != [] && cache[0].key != key {
      LookupExactly(cache[1..], key);
      assert forall e :: e in cache <==> e == cache[0] || e in cache[1..];
    }
  }

  /** Assigning to a key that is there replaces its value where it stands. */
  function Put(cache: seq<Entry>, key: string, ref: OrderRef): seq<Entry> {
    if cache == [] then [Entry(key, ref)]
    else if cache[0].key == key then [Entry(key, ref)] + cache[1..]
    else [cache[0]] + Put(cache[1..], key, ref)
  }

  lemma {:induction false} PutExactly(cache: seq<Entry>, key: string, ref: OrderRef)
    ensures Lookup(cache, key).None? ==> Put(cache, key, ref) == cache + [Entry(key, ref)]
    ensures Lookup(cache, key).Some? ==> |Put(cache, key, ref)| == |cache|
    ensures Lookup(cache, key).Some? ==> forall i :: 0 <= i < |cache| ==> Put(cache, key, ref)[i].key == cache[i].key
  {
    if cache != [] && cache[0].key != key {
      PutExactly(cache[1..], key, ref);
      assert cache == [cache[0]] + cache[1..];
    }
  }

  function EvictOldestIfFull(cache: seq<Entry>): seq<Entry> {
    if |cache| > IDEMPOTENCY_MAX then cache[1..] else cache
  }

  function Stored(cache: seq<Entry>, key: Option<string>, ref: OrderRef): seq<Entry> {
    match key
    case Some(k) => EvictOldestIfFull(Put(cache, k, ref))
    case None => cache
  }

  function Cached(s: State, key: Option<string>): Option<OrderRef> {
    match key case Some(k) => Lookup(s.cache, k) case None => None
  }

  /** The part after the lookup missed: insert the order, remember it, evict. */
  function Create(s: State, customers: set<int>, customerId: int, key: Option<string>): (State, Answer) {
    if customerId !in customers then (s, CustomerNotFound(customerId))
    else
      var ref := OrderRef(s.nextOrderId, customerId);
      (State(Stored(s.cache, key, ref), s.nextOrderId + 1), Ref(ref))
  }

  /** The wrapped tool: everything but the eviction. */
  function InnerCreate(s: State, customers: set<int>, customerId: int, key: Option<string>): (State, Answer) {
    match Cached(s, key)
    case Some(ref) => (s, Ref(ref))
    case None =>
      if customerId !in customers then (s, CustomerNotFound(customerId))
      else
        var ref := OrderRef(s.nextOrderId, customerId);
        (State(match key case Some(k) => Put(s.cache, k, ref) case None => s.cache, s.nextOrderId + 1), Ref(ref))
  }

  function CreateOrder(s: State, customers: set<int>, customerId: int, key: Option<string>): (State, Answer) {
    var (t, answer) := InnerCreate(s, customers, customerId, key);
    (if key.Some? && answer.Ref? then t.(cache := EvictOldestIfFull(t.cache)) else t, answer)
  }

  class OrderTool {
    var cache: seq<Entry>
    var customers: set<int>
    var nextOrderId: nat

    ghost function Contents(): State
      reads this
    {
      State(cache, nextOrderId)
    }

    constructor (customers: set<int>)
      ensures Contents() == State([], 1) && this.customers == customers
    {
      cache, nextOrderId := [], 1;
      this.customers := customers;
    }

    method CreateOrderCached(customerId: int, key: Option<string>) returns (answer: Answer)
      modifies this`cache, this`nextOrderId
      ensures (Contents(), answer) == CreateOrder(old(Contents()), customers, customerId, key)
    {
      answer := InnerCreateOrder(customerId, key);
      if key.Some? && answer.Ref? {
        if |cache| > IDEMPOTENCY_MAX {
          cache := cache[1..];
        }
      }
    }

    method InnerCreateOrder(customerId: int, key: Option<string>) returns (answer: Answer)
      modifies this`cache, this`nextOrderId
      ensures (Contents(), answer) == InnerCreate(old(Contents()), customers, customerId, key)
    {
      if key.Some? {
        var cached := Lookup(cache, key.value);
        if cached.Some? {
          return Ref(cached.value);
        }
      }
      if customerId !in customers {
        return CustomerNotFound(customerId);
      }
      var ref := OrderRef(nextOrderId, customerId);
      nextOrderId := nextOrderId + 1;
      if key.Some? {
        cache := Put(cache, key.value, ref);
      }
      return Ref(ref);
    }
  }

  // ---------------------------------------------------------------- serial runs

  datatype Request = Request(customers: set<int>, customerId: int, key: Option<string>)

  function Run(requests: seq<Request>): State {
    if requests == [] then State([], 1)
    else
      var r := requests[|requests| - 1];
      CreateOrder(Run(requests[..|requests| - 1]), r.customers, r.customerId, r.key).0
  }

  /** What a request inserts: a new key with a new order, and nothing on a hit or an unknown customer. */
  function Inserted(s: State, r: Request): Option<Entry> {
    match r.key
    case Some(k) =>
      if Cached(s, r.key).None? && r.customerId in r.customers
      then Some(Entry(k, OrderRef(s.nextOrderId, r.customerId))) else None
    case None => None
  }

  /** Every insertion of the run, oldest first. */
  function Insertions(requests: seq<Request>): seq<Entry> {
    if requests == [] then []
    else
      var init, r := requests[..|requests| - 1], requests[|requests| - 1];
      match Inserted(Run(init), r)
      case Some(e) => Insertions(init) + [e]
      case None => Insertions(init)
  }

  ghost predicate DistinctKeys(cache: seq<Entry>) {
    forall i, j :: 0 <= i < j < |cache| ==> cache[i].key != cache[j].key
  }

  lemma RequestInserts(s: State, r: Request)
    requires |s.cache| <= IDEMPOTENCY_MAX && DistinctKeys(s.cache)
    ensures var t := CreateOrder(s, r.customers, r.customerId, r.key).0;
            && t.cache == (match Inserted(s, r)
                           case Some(e) => LastN(s.cache + [e], IDEMPOTENCY_MAX)
                           case None => s.cache)
            && DistinctKeys(t.cache)
  {
    if Inserted(s, r).Some? {
      PutKeepsKeys(s.cache, r.key.value, OrderRef(s.nextOrderId, r.customerId));
      PutExactly(s.cache, r.key.value, OrderRef(s.nextOrderId, r.customerId));
    }
  }

  /** After every call the cache is the last 1024 insertions, each under its own key. */
  lemma {:induction false} CacheIsLastInsertions(requests: seq<Request>)
    ensures Run(requests).cache == LastN(Insertions(requests), IDEMPOTENCY_MAX)
    ensures DistinctKeys(Run(requests).cache)
  {
    if requests != [] {
      var init, r := requests[..|requests| - 1], requests[|requests| - 1];
      CacheIsLastInsertions(init);
      RequestInserts(Run(init), r);
      if Inserted(Run(init), r).Some? {
        LastNAppend(Insertions(init), Inserted(Run(init), r).value, IDEMPOTENCY_MAX);
      }
    }
  }

  lemma {:induction false} LookupInDistinct(cache: seq<Entry>, e: Entry)
    requires DistinctKeys(cache) && e in cache
    ensures Lookup(cache, e.key) == Some(e.ref)
  {
    if cache[0] != e {
      assert e in cache[1..];
      var i :| 0 <= i < |cache[1..]| && cache[1..][i] == e;
      assert cache[i + 1].key != cache[0].key;
      LookupInDistinct(cache[1..], e);
    }
  }

  /**
   * A repeated key gets back the very order it created, and creates none, whoever the customer now
   * is, as long as at most 1023 insertions came after its own.
   */
  lemma RepeatReturnsTheSameOrder(requests: seq<Request>, p: nat, r: Request)
    requires p < |Insertions(requests)| && |Insertions(requests)| - p <= IDEMPOTENCY_MAX
    requires r.key == Some(Insertions(requests)[p].key)
    ensures CreateOrder(Run(requests), r.customers, r.customerId, r.key)
            == (Run(requests), Ref(Insertions(requests)[p].ref))
  {
    CacheIsLastInsertions(requests);
    var all, cache := Insertions(requests), Run(requests).cache;
    assert all[p] == cache[p - (|all| - |cache|)];
    LookupInDistinct(cache, all[p]);
  }

  // ---------------------------------------------------------------- what the calls answer

  function AnswerOf(s: State, r: Request): Answer {
    CreateOrder(s, r.customers, r.customerId, r.key).1
  }

  /**
   * A call that is not answered from the cache answers the next order id, uses it up, and is remembered
   * under its key if it has one; for an unknown customer it answers so and changes nothing.
   */
  lemma MissAnswersNewOrder(s: State, r: Request)
    requires |s.cache| <= IDEMPOTENCY_MAX
    requires r.key.Some? ==> forall e :: e in s.cache ==> e.key != r.key.value
    ensures var (t, answer) := CreateOrder(s, r.customers, r.customerId, r.key);
            if r.customerId in r.customers
            then && answer == Ref(OrderRef(s.nextOrderId, r.customerId)) && t.nextOrderId == s.nextOrderId + 1
                 && (r.key.None? ==> t.cache == s.cache)
                 && (r.key.Some? ==> t.cache != [] && t.cache[|t.cache| - 1] == Entry(r.key.value, answer.ref))
            else answer == CustomerNotFound(r.customerId) && t == s
  {
    if r.key.Some? {
      LookupExactly(s.cache, r.key.value);
      PutExactly(s.cache, r.key.value, OrderRef(s.nextOrderId, r.customerId));
    }
  }

  /** A cached key is answered with what is cached, and nothing is created. */
  lemma HitAnswersCached(s: State, r: Request, e: Entry)
    requires |s.cache| <= IDEMPOTENCY_MAX && DistinctKeys(s.cache) && e in s.cache && r.key == Some(e.key)
    ensures CreateOrder(s, r.customers, r.customerId, r.key) == (s, Ref(e.ref))
  {
    LookupInDistinct(s.cache, e);
  }

  /** The call that inserts an entry is answered with the order it inserts. */
  lemma InsertionIsAnswered(s: State, r: Request)
    requires Inserted(s, r).Some?
    ensures AnswerOf(s, r) == Ref(Inserted(s, r).value.ref) && r.key == Some(Inserted(s, r).value.key)
  {
  }

  function RunAt(requests: seq<Request>, k: nat): State
    requires k <= |requests|
  {
    Run(requests[..k])
  }

  function InsertionsAt(requests: seq<Request>, k: nat): seq<Entry>
    requires k <= |requests|
  {
    Insertions(requests[..k])
  }

  lemma RequestStep(requests: seq<Request>, k: nat)
    requires k < |requests|
    ensures var r := requests[k];
            && RunAt(requests, k + 1) == CreateOrder(RunAt(requests, k), r.customers, r.customerId, r.key).0
            && InsertionsAt(requests, k + 1) ==
               match Inserted(RunAt(requests, k), r)
               case Some(e) => InsertionsAt(requests, k) + [e]
               case None => InsertionsAt(requests, k)
  {
    assert requests[..k + 1][..k] == requests[..k];
  }

  /** Entry `e` is insertion number `p` of the first `k` requests. */
  ghost predicate InsertedAs(requests: seq<Request>, k: nat, p: nat, e: Entry)
    requires k <= |requests|
  {
    p < |InsertionsAt(requests, k)| && InsertionsAt(requests, k)[p] == e
  }

  lemma InsertedAsStays(requests: seq<Request>, k: nat, p: nat, e: Entry)
    requires k < |requests| && InsertedAs(requests, k, p, e)
    ensures InsertedAs(requests, k + 1, p, e)
  {
    RequestStep(requests, k);
  }

  /** What was inserted stays where it is in the list of insertions. */
  lemma {:induction false} InsertionStays(requests: seq<Request>, i: nat, j: nat, p: nat, e: Entry)
    requires i <= j <= |requests| && InsertedAs(requests, i, p, e)
    ensures InsertedAs(requests, j, p, e)
    decreases j - i
  {
    if i < j {
      InsertedAsStays(requests, i, p, e);
      InsertionStays(requests, i + 1, j, p, e);
    }
  }

  lemma InsertedNow(requests: seq<Request>, i: nat, e: Entry)
    requires i < |requests| && Inserted(RunAt(requests, i), requests[i]) == Some(e)
    ensures InsertedAs(requests, i + 1, |InsertionsAt(requests, i)|, e)
  {
    RequestStep(requests, i);
  }

  /**
   * A retry gets the same answer: request `j` repeats the key that request `i` inserted, with at most
   * 1023 insertions in between. Both are answered alike, and the retry changes nothing.
   */
  lemma RetryAnswersAlike(requests: seq<Request>, i: nat, j: nat)
    requires i < j < |requests| && requests[j].key == requests[i].key
    requires Inserted(RunAt(requests, i), requests[i]).Some?
    requires |InsertionsAt(requests, j)| - |InsertionsAt(requests, i)| <= 1024
    ensures AnswerOf(RunAt(requests, i), requests[i]).Ref?
    ensures AnswerOf(RunAt(requests, j), requests[j]) == AnswerOf(RunAt(requests, i), requests[i])
    ensures RunAt(requests, j + 1) == RunAt(requests, j)
  {
    var e := Inserted(RunAt(requests, i), requests[i]).value;
    InsertedNow(requests, i, e);
    InsertionStays(requests, i + 1, j, |InsertionsAt(requests, i)|, e);
    InsertionIsAnswered(RunAt(requests, i), requests[i]);
    RepeatReturnsTheSameOrder(requests[..j], |InsertionsAt(requests, i)|, requests[j]);
    RequestStep(requests, j);
  }

  /** An answered order is there: its id is one that the run, or this very call, has used up. */
  lemma AnswerNamesOrder(requests: seq<Request>, r: Request)
    requires AnswerOf(Run(requests), r).Ref?
    ensures 1 <= AnswerOf(Run(requests), r).ref.id
              < CreateOrder(Run(requests), r.customers, r.customerId, r.key).0.nextOrderId
  {
    InsertedIdsGrow(requests);
    CacheIsLastInsertions(requests);
    var s := Run(requests);
    if r.key.Some? {
      LookupExactly(s.cache, r.key.value);
    }
    if Cached(s, r.key).Some? {
      HitAnswersCached(s, r, Entry(r.key.value, Cached(s, r.key).value));
      assert Entry(r.key.value, Cached(s, r.key).value) in Insertions(requests);
    } else {
      MissAnswersNewOrder(s, r);
    }
  }

  /** A call is answered from the cache if and only if its key is among the last 1024 inserted. */
  lemma HitExactlyWhenRecent(requests: seq<Request>, r: Request, key: string)
    requires r.key == Some(key) && r.customerId in r.customers
    ensures CreateOrder(Run(requests), r.customers, r.customerId, r.key).0.nextOrderId == Run(requests).nextOrderId
            <==> exists e :: e in LastN(Insertions(requests), IDEMPOTENCY_MAX) && e.key == key
  {
    CacheIsLastInsertions(requests);
    LookupExactly(Run(requests).cache, key);
  }

  /** The requests that were not answered with not-found. */
  function WithoutNotFound(requests: seq<Request>): seq<Request> {
    if requests == [] then []
    else
      var init, r := requests[..|requests| - 1], requests[|requests| - 1];
      if CreateOrder(Run(init), r.customers, r.customerId, r.key).1.CustomerNotFound? then WithoutNotFound(init)
      else WithoutNotFound(init) + [r]
  }

  /** Not-found is never cached: a run is as if the calls answered so had not been made. */
  lemma {:induction false} NotFoundLeavesNoTrace(requests: seq<Request>)
    ensures Run(WithoutNotFound(requests)) == Run(requests)
  {
    if requests != [] {
      var init, r := requests[..|requests| - 1], requests[|requests| - 1];
      NotFoundLeavesNoTrace(init);
      CacheIsLastInsertions(init);
      assert (WithoutNotFound(init) + [r])[..|WithoutNotFound(init)|] == WithoutNotFound(init);
    }
  }

  /** Order ids that grow, from one up to below `next`. */
  ghost predicate IdsGrowTo(entries: seq<Entry>, next: nat) {
    && next >= 1
    && (forall i :: 0 <= i < |entries| ==> 1 <= entries[i].ref.id < next)
    && (forall i, j :: 0 <= i < j < |entries| ==> entries[i].ref.id < entries[j].ref.id)
  }

  lemma NextIdGrows(s: State, r: Request)
    ensures CreateOrder(s, r.customers, r.customerId, r.key).0.nextOrderId
            >= s.nextOrderId + if Inserted(s, r).Some? then 1 else 0
    ensures Inserted(s, r).Some? ==> Inserted(s, r).value.ref.id == s.nextOrderId
  {
  }

  /** Every insertion is of a newly created order: ids grow, so no order is handed out under two keys. */
  lemma {:induction false} InsertedIdsGrow(requests: seq<Request>)
    ensures IdsGrowTo(Insertions(requests), Run(requests).nextOrderId)
  {
    if requests != [] {
      var init, r := requests[..|requests| - 1], requests[|requests| - 1];
      InsertedIdsGrow(init);
      NextIdGrows(Run(init), r);
    }
  }

  // ---------------------------------------------------------------- interleaved runs

  /** A call that missed waits for the database, whose customers may have changed by the time it is done. */
  datatype Event = Begin(call: nat, customerId: int, key: Option<string>) | Finish(call: nat, customers: set<int>)

  datatype Interleaved = Interleaved(s: State, waiting: map<nat, (int, Option<string>)>, answers: map<nat, Answer>)

  const Start := Interleaved(State([], 1), map[], map[])

  function Step(i: Interleaved, e: Event): Interleaved {
    match e
    case Begin(call, customerId, key) =>
      if call in i.waiting || call in i.answers then i
      else
        (match Cached(i.s, key)
         case Some(ref) => i.(s := i.s.(cache := EvictOldestIfFull(i.s.cache)), answers := i.answers[call := Ref(ref)])
         case None => i.(waiting := i.waiting[call := (customerId, key)]))
    case Finish(call, customers) =>
      if call !in i.waiting then i
      else
        var (s, answer) := Create(i.s, customers, i.waiting[call].0, i.waiting[call].1);
        Interleaved(s, i.waiting - {call}, i.answers[call := answer])
  }

  function RunInterleaved(events: seq<Event>): Interleaved {
    if events == [] then Start else Step(RunInterleaved(events[..|events| - 1]), events[|events| - 1])
  }

  /** The event ends a call that has missed with `key` and whose customer is there. */
  predicate Creates(i: Interleaved, e: Event, key: string) {
    e.Finish? && e.call in i.waiting && i.waiting[e.call].1 == Some(key) && i.waiting[e.call].0 in e.customers
  }

  lemma PutKeepsKeys(cache: seq<Entry>, key: string, ref: OrderRef)
    requires DistinctKeys(cache)
    ensures DistinctKeys(Put(cache, key, ref)) && |Put(cache, key, ref)| <= |cache| + 1
  {
    PutExactly(cache, key, ref);
    LookupExactly(cache, key);
    assert forall i :: 0 <= i < |cache| ==> cache[i] in cache;
  }

  /** The cache changes at the events that create, and at no others. */
  lemma CacheStep(i: Interleaved, e: Event)
    requires |i.s.cache| <= IDEMPOTENCY_MAX
    ensures (forall key :: !Creates(i, e, key)) ==> Step(i, e).s.cache == i.s.cache
    ensures forall key :: Creates(i, e, key) ==>
              Step(i, e).s.cache ==
              EvictOldestIfFull(Put(i.s.cache, key, OrderRef(i.s.nextOrderId, i.waiting[e.call].0)))
  {
    if e.Finish? && e.call in i.waiting && i.waiting[e.call].1.Some? && i.waiting[e.call].0 in e.customers {
      assert Creates(i, e, i.waiting[e.call].1.value);
    }
  }

  /** Whatever the interleaving, the cache never holds more than 1024 entries nor a key twice. */
  lemma {:induction false} CacheStaysBounded(events: seq<Event>)
    ensures |RunInterleaved(events).s.cache| <= 1024
    ensures DistinctKeys(RunInterleaved(events).s.cache)
  {
    if events != [] {
      var i, e := RunInterleaved(events[..|events| - 1]), events[|events| - 1];
      CacheStaysBounded(events[..|events| - 1]);
      CacheStep(i, e);
      if key :| Creates(i, e, key) {
        PutKeepsKeys(i.s.cache, key, OrderRef(i.s.nextOrderId, i.waiting[e.call].0));
      }
    }
  }

  function KeysOf(cache: seq<Entry>): seq<string> {
    seq(|cache|, i requires 0 <= i < |cache| => cache[i].key)
  }

  lemma KeyIsCached(cache: seq<Entry>, key: string)
    ensures key in KeysOf(cache) <==> Lookup(cache, key).Some?
  {
    var keys := KeysOf(cache);
    LookupExactly(cache, key);
    if key in keys {
      var i :| 0 <= i < |keys| && keys[i] == key;
      assert cache[i] in cache;
    }
    if e :| e in cache && e.key == key {
      var i :| 0 <= i < |cache| && cache[i] == e;
      assert keys[i] == key;
    }
  }

  /** The key an event inserts that was not in the cache; a second creation only replaces the value. */
  function NewKey(i: Interleaved, e: Event): Option<string> {
    if e.Finish? && e.call in i.waiting && i.waiting[e.call].1.Some? && i.waiting[e.call].0 in e.customers
       && Lookup(i.s.cache, i.waiting[e.call].1.value).None?
    then i.waiting[e.call].1 else None
  }

  /** Every key newly inserted in the run, oldest first. */
  function NewKeys(events: seq<Event>): seq<string> {
    if events == [] then []
    else
      var init, e := events[..|events| - 1], events[|events| - 1];
      match NewKey(RunInterleaved(init), e)
      case Some(key) => NewKeys(init) + [key]
      case None => NewKeys(init)
  }

  lemma KeysOfSlices(cache: seq<Entry>, e: Entry)
    ensures KeysOf(cache + [e]) == KeysOf(cache) + [e.key]
    ensures cache != [] ==> KeysOf(cache[1..]) == KeysOf(cache)[1..]
  {
  }

  lemma KeysAfterPut(cache: seq<Entry>, key: string, ref: OrderRef)
    requires |cache| <= IDEMPOTENCY_MAX
    ensures KeysOf(EvictOldestIfFull(Put(cache, key, ref)))
            == if Lookup(cache, key).None? then LastN(KeysOf(cache) + [key], IDEMPOTENCY_MAX) else KeysOf(cache)
  {
    PutExactly(cache, key, ref);
    if Lookup(cache, key).None? {
      KeysOfSlices(cache, Entry(key, ref));
      KeysOfSlices(cache + [Entry(key, ref)], Entry(key, ref));
    } else {
      assert KeysOf(Put(cache, key, ref)) == KeysOf(cache);
    }
  }

  lemma NewKeyStep(i: Interleaved, e: Event)
    requires |i.s.cache| <= IDEMPOTENCY_MAX
    ensures KeysOf(Step(i, e).s.cache) ==
            match NewKey(i, e)
            case Some(key) => LastN(KeysOf(i.s.cache) + [key], IDEMPOTENCY_MAX)
            case None => KeysOf(i.s.cache)
  {
    CacheStep(i, e);
    if key :| Creates(i, e, key) {
      KeysAfterPut(i.s.cache, key, OrderRef(i.s.nextOrderId, i.waiting[e.call].0));
    } else if NewKey(i, e).Some? {
      assert Creates(i, e, NewKey(i, e).value);
    }
  }

  /** However calls overlap, the cache's keys are the last 1024 that were newly inserted, in that order. */
  lemma {:induction false} KeysAreLastNew(events: seq<Event>)
    ensures KeysOf(RunInterleaved(events).s.cache) == LastN(NewKeys(events), IDEMPOTENCY_MAX)
  {
    if events != [] {
      var init, e := events[..|events| - 1], events[|events| - 1];
      KeysAreLastNew(init);
      CacheStaysBounded(init);
      NewKeyStep(RunInterleaved(init), e);
      if NewKey(RunInterleaved(init), e).Some? {
        LastNAppend(NewKeys(init), NewKey(RunInterleaved(init), e).value, IDEMPOTENCY_MAX);
      }
    }
  }

  /** A call is answered on the spot if and only if its key is among the last 1024 newly inserted. */
  lemma BeginHitsExactlyWhenRecent(events: seq<Event>, call: nat, customerId: int, key: string)
    requires call !in RunInterleaved(events).waiting && call !in RunInterleaved(events).answers
    ensures call in Step(RunInterleaved(events), Begin(call, customerId, Some(key))).answers
            <==> key in LastN(NewKeys(events), IDEMPOTENCY_MAX)
  {
    KeysAreLastNew(events);
    KeyIsCached(RunInterleaved(events).s.cache, key);
  }

  /** A call that no other interrupts is the serial one: its beginning followed at once by its end. */
  lemma SerialIsBeginThenFinish(i: Interleaved, call: nat, customers: set<int>, customerId: int, key: Option<string>)
    requires call !in i.waiting && call !in i.answers && |i.s.cache| <= IDEMPOTENCY_MAX
    ensures var j := Step(Step(i, Begin(call, customerId, key)), Finish(call, customers));
            && call in j.answers && (j.s, j.answers[call]) == CreateOrder(i.s, customers, customerId, key)
            && j.waiting == i.waiting && j.answers == i.answers[call := j.answers[call]]
  {
    assert i.waiting[call := (customerId, key)] - {call} == i.waiting;
  }

  // ---------------------------------------------------------------- which calls share an order

  function At(events: seq<Event>, k: nat): Interleaved
    requires k <= |events|
  {
    RunInterleaved(events[..k])
  }

  lemma AtNext(events: seq<Event>, k: nat)
    requires k < |events|
    ensures At(events, k + 1) == Step(At(events, k), events[k])
  {
    assert events[..k + 1][..k] == events[..k];
  }

  /** The last event that created an order under the key. */
  function LastCreation(events: seq<Event>, key: string): (r: Option<nat>)
    ensures r.Some? ==> r.value < |events|
  {
    if events == [] then None
    else if Creates(RunInterleaved(events[..|events| - 1]), events[|events| - 1], key) then Some(|events| - 1)
    else LastCreation(events[..|events| - 1], key)
  }

  /** The order that event `f` creates, if it does. */
  function OrderAt(events: seq<Event>, f: nat): OrderRef
    requires f < |events|
  {
    var i := At(events, f);
    OrderRef(i.s.nextOrderId, if events[f].call in i.waiting then i.waiting[events[f].call].0 else 0)
  }

  lemma OrderAtPrefix(events: seq<Event>, g: nat, l: nat)
    requires l < g <= |events|
    ensures At(events[..g], l) == At(events, l) && OrderAt(events[..g], l) == OrderAt(events, l)
  {
    assert events[..g][..l] == events[..l];
  }

  lemma {:induction false} LookupPut(cache: seq<Entry>, key: string, ref: OrderRef, other: string)
    ensures Lookup(Put(cache, key, ref), other) == if other == key then Some(ref) else Lookup(cache, other)
  {
    if cache != [] && cache[0].key != key {
      LookupPut(cache[1..], key, ref, other);
    }
  }

  lemma LookupEvicted(cache: seq<Entry>, key: string)
    requires DistinctKeys(cache) && Lookup(EvictOldestIfFull(cache), key).Some?
    ensures Lookup(cache, key) == Lookup(EvictOldestIfFull(cache), key)
  {
    LookupExactly(EvictOldestIfFull(cache), key);
    var e := Entry(key, Lookup(EvictOldestIfFull(cache), key).value);
    assert e in cache;
    LookupInDistinct(cache, e);
  }

  lemma LookupStep(i: Interleaved, e: Event, key: string)
    requires |i.s.cache| <= IDEMPOTENCY_MAX && DistinctKeys(i.s.cache) && Lookup(Step(i, e).s.cache, key).Some?
    ensures Lookup(Step(i, e).s.cache, key)
            == if Creates(i, e, key) then Some(OrderRef(i.s.nextOrderId, i.waiting[e.call].0))
               else Lookup(i.s.cache, key)
  {
    CacheStep(i, e);
    if k :| Creates(i, e, k) {
      var ref := OrderRef(i.s.nextOrderId, i.waiting[e.call].0);
      PutKeepsKeys(i.s.cache, k, ref);
      LookupEvicted(Put(i.s.cache, k, ref), key);
      LookupPut(i.s.cache, k, ref, key);
    }
  }

  /** A cached key stands for the order of its last creation, whichever overlapping call that was. */
  lemma {:induction false} CachedIsLastCreated(events: seq<Event>, key: string)
    requires Lookup(RunInterleaved(events).s.cache, key).Some?
    ensures var f := LastCreation(events, key);
            && f.Some? && Creates(At(events, f.value), events[f.value], key)
            && Lookup(RunInterleaved(events).s.cache, key) == Some(OrderAt(events, f.value))
  {
    var init, e := events[..|events| - 1], events[|events| - 1];
    var i := RunInterleaved(init);
    CacheStaysBounded(init);
    LookupStep(i, e, key);
    if !Creates(i, e, key) {
      CachedIsLastCreated(init, key);
      OrderAtPrefix(events, |init|, LastCreation(init, key).value);
    }
  }

  lemma {:induction false} IdsGrow(events: seq<Event>, a: nat, b: nat)
    requires a <= b <= |events|
    ensures At(events, a).s.nextOrderId <= At(events, b).s.nextOrderId
    decreases b - a
  {
    if a < b {
      IdsGrow(events, a, b - 1);
      AtNext(events, b - 1);
    }
  }

  ghost predicate CreatesAt(events: seq<Event>, f: nat) {
    && f < |events| && events[f].Finish?
    && events[f].call in At(events, f).waiting && At(events, f).waiting[events[f].call].0 in events[f].customers
  }

  lemma LaterOrder(events: seq<Event>, f: nat, h: nat)
    requires CreatesAt(events, f) && CreatesAt(events, h) && f < h
    ensures OrderAt(events, f).id < OrderAt(events, h).id
  {
    AtNext(events, f);
    IdsGrow(events, f + 1, h);
  }

  /** Two creations are of two orders. */
  lemma DifferentOrders(events: seq<Event>, f: nat, h: nat)
    requires CreatesAt(events, f) && CreatesAt(events, h) && f != h
    ensures OrderAt(events, f) != OrderAt(events, h)
  {
    if f < h {
      LaterOrder(events, f, h);
    } else {
      LaterOrder(events, h, f);
    }
  }

  lemma {:induction false} AnswersStay(events: seq<Event>, k: nat, call: nat)
    requires k <= |events| && call in At(events, k).answers && call !in At(events, k).waiting
    ensures call in RunInterleaved(events).answers && call !in RunInterleaved(events).waiting
    ensures RunInterleaved(events).answers[call] == At(events, k).answers[call]
    decreases |events|
  {
    if k < |events| {
      var init := events[..|events| - 1];
      assert init[..k] == events[..k];
      AnswersStay(init, k, call);
    } else {
      assert events[..k] == events;
    }
  }

  /** A call that waits is answered by its own finish, with the order that finish creates. */
  lemma {:induction false} WaitingIsAnsweredByFinish(events: seq<Event>, k: nat, call: nat)
    requires k <= |events| && call in At(events, k).waiting && call !in At(events, k).answers
    ensures var end := RunInterleaved(events);
            || (call in end.waiting && call !in end.answers)
            || (call in end.answers && call !in end.waiting
                && (end.answers[call].Ref? ==>
                      exists h :: k <= h && CreatesAt(events, h) && events[h].call == call
                                  && end.answers[call] == Ref(OrderAt(events, h))))
    decreases |events|
  {
    if k == |events| {
      assert events[..k] == events;
    } else {
      var init, e := events[..|events| - 1], events[|events| - 1];
      assert init[..k] == events[..k];
      WaitingIsAnsweredByFinish(init, k, call);
      var i, end := RunInterleaved(init), RunInterleaved(events);
      if call in i.waiting {
        if e.Finish? && e.call == call && end.answers[call].Ref? {
          assert CreatesAt(events, |init|) && end.answers[call] == Ref(OrderAt(events, |init|));
        }
      } else if i.answers[call].Ref? {
        var h :| k <= h && CreatesAt(init, h) && init[h].call == call && i.answers[call] == Ref(OrderAt(init, h));
        OrderAtPrefix(events, |init|, h);
        assert CreatesAt(events, h) && OrderAt(events, h) == OrderAt(init, h);
      }
    }
  }

  /** The call that creates an order is answered with it. */
  lemma CreatorGetsItsOrder(events: seq<Event>, f: nat)
    requires CreatesAt(events, f)
    ensures events[f].call in RunInterleaved(events).answers
    ensures RunInterleaved(events).answers[events[f].call] == Ref(OrderAt(events, f))
  {
    AtNext(events, f);
    AnswersStay(events, f + 1, events[f].call);
  }

  /**
   * The exact condition of "the same key always returns the same order": a call that begins at `g`
   * gets the order another call created at `f` if and only if, when it begins, the key is among the
   * last 1024 newly inserted and `f` is the last creation under it. Calls that overlap fail the second
   * half, keys that were evicted the first.
   */
  lemma SharesOrderExactly(events: seq<Event>, f: nat, g: nat, key: string)
    requires CreatesAt(events, f) && Creates(At(events, f), events[f], key)
    requires g < |events| && events[g].Begin? && events[g].key == Some(key) && events[g].call != events[f].call
    requires events[g].call !in At(events, g).waiting && events[g].call !in At(events, g).answers
    ensures events[f].call in RunInterleaved(events).answers
    ensures var end, call := RunInterleaved(events), events[g].call;
            call in end.answers && end.answers[call] == end.answers[events[f].call]
            <==> key in LastN(NewKeys(events[..g]), IDEMPOTENCY_MAX) && LastCreation(events[..g], key) == Some(f)
  {
    var call := events[g].call;
    CreatorGetsItsOrder(events, f);
    AtNext(events, g);
    KeysAreLastNew(events[..g]);
    KeyIsCached(At(events, g).s.cache, key);
    if Lookup(At(events, g).s.cache, key).Some? {
      HitGetsLastCreated(events, g, key);
      var l := LastCreation(events[..g], key).value;
      if l != f { DifferentOrders(events, l, f); }
    } else {
      MissGetsAnother(events, f, g);
    }
  }

  lemma HitGetsLastCreated(events: seq<Event>, g: nat, key: string)
    requires g < |events| && events[g].Begin? && events[g].key == Some(key)
    requires events[g].call !in At(events, g).waiting && events[g].call !in At(events, g).answers
    requires Lookup(At(events, g).s.cache, key).Some?
    ensures var l := LastCreation(events[..g], key);
            && l.Some? && l.value < g && CreatesAt(events, l.value)
            && events[g].call in RunInterleaved(events).answers
            && RunInterleaved(events).answers[events[g].call] == Ref(OrderAt(events, l.value))
  {
    CachedIsLastCreated(events[..g], key);
    OrderAtPrefix(events, g, LastCreation(events[..g], key).value);
    HitIsAnswered(events, g, key);
  }

  lemma HitIsAnswered(events: seq<Event>, g: nat, key: string)
    requires g < |events| && events[g].Begin? && events[g].key == Some(key)
    requires events[g].call !in At(events, g).waiting && events[g].call !in At(events, g).answers
    requires Lookup(At(events, g).s.cache, key).Some?
    ensures events[g].call in RunInterleaved(events).answers
    ensures RunInterleaved(events).answers[events[g].call] == Ref(Lookup(At(events, g).s.cache, key).value)
  {
    AtNext(events, g);
    AnswersStay(events, g + 1, events[g].call);
  }

  lemma MissGetsAnother(events: seq<Event>, f: nat, g: nat)
    requires CreatesAt(events, f) && g < |events| && events[g].Begin? && events[g].call != events[f].call
    requires events[g].call !in At(events, g).waiting && events[g].call !in At(events, g).answers
    requires Cached(At(events, g).s, events[g].key).None?
    ensures var end, call := RunInterleaved(events), events[g].call;
            call in end.answers ==> end.answers[call] != Ref(OrderAt(events, f))
  {
    var end, call := RunInterleaved(events), events[g].call;
    AtNext(events, g);
    WaitingIsAnsweredByFinish(events, g + 1, call);
    if call in end.answers && end.answers[call].Ref? {
      var h :| g + 1 <= h && CreatesAt(events, h) && events[h].call == call
               && end.answers[call] == Ref(OrderAt(events, h));
      DifferentOrders(events, h, f);
    }
  }

  /** Two overlapping calls with one key both miss and create an order each: the promise is a serial one. */
  lemma OverlapCreatesTwoOrders(customers: set<int>, customerId: int, key: string)
    requires customerId in customers
    ensures var k := Some(key);
            var i := RunInterleaved([Begin(0, customerId, k), Begin(1, customerId, k),
                                     Finish(0, customers), Finish(1, customers)]);
            && i.answers == map[0 := Ref(OrderRef(1, customerId)), 1 := Ref(OrderRef(2, customerId))]
            && i.s == State([Entry(key, OrderRef(2, customerId))], 3)
  {
    var k := Some(key);
    var es := [Begin(0, customerId, k), Begin(1, customerId, k), Finish(0, customers), Finish(1, customers)];
    assert es[..3][..2] == es[..2] && es[..2][..1] == es[..1] && es[..1][..0] == [];
    var i1 := Step(Start, es[0]);
    var i2 := Step(i1, es[1]);
    var i3 := Step(i2, es[2]);
    assert RunInterleaved(es[..1]) == i1;
    assert RunInterleaved(es[..2]) == i2;
    assert RunInterleaved(es[..3]) == i3;
    assert i3.s.cache == [Entry(key, OrderRef(1, customerId))];
    assert i3.waiting - {1} == map[];
  }
}
