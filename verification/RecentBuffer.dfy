/**
 * The shared Redis list of recent customers: an add is a push and, later, a trim, and any
 * number of adders may interleave.
 */
module RecentBuffer {
  import opened Common

  const MAX_SIZE := 10

  /** A list entry: a serialised customer, or text that does not decode to one. */
  datatype Entry = Customer(id: int, name: string, email: string) | Undecodable(text: string)

  function Trimmed(items: seq<Entry>): seq<Entry> {
    items[..Min(|items|, MAX_SIZE)]
  }

  function Decodable(items: seq<Entry>): seq<Entry> {
    if items == [] then []
    else
      var init, last := Decodable(items[..|items| - 1]), items[|items| - 1];
      if last.Customer? then init + [last] else init
  }

  /** Decoding keeps exactly the customers, each where it stands: it goes entry by entry. */
  lemma {:induction false} DecodableExactly(a: seq<Entry>, b: seq<Entry>, e: Entry)
    ensures Decodable(a + b) == Decodable(a) + Decodable(b)
    ensures Decodable([e]) == if e.Customer? then [e] else []
    ensures e in Decodable(b) <==> e in b && e.Customer?
  {
    assert [e][..0] == [];
    if b == [] {
      assert a + b == a;
    } else {
      var init, last := b[..|b| - 1], b[|b| - 1];
      assert (a + b)[..|a + b| - 1] == a + init;
      DecodableExactly(a, init, e);
      assert e in b <==> e in init || e == last;
    }
  }

  class RecentCustomerBuffer {
    var items: seq<Entry>

    constructor ()
      ensures items == []
    {
      items := [];
    }

    method Push(e: Entry)
      modifies this
      ensures items == [e] + old(items)
    {
      items := [e] + items;
    }

    method Trim()
      modifies this
      ensures items == Trimmed(old(items))
    {
      items := items[..Min(|items|, MAX_SIZE)];
    }

    method GetRecent() returns (recent: seq<Entry>)
      ensures recent == Decodable(Trimmed(items))
    {
      recent := [];
      var raw := items[..Min(|items|, MAX_SIZE)];
      for i := 0 to |raw|
        invariant recent == Decodable(raw[..i])
      {
        assert raw[..i + 1][..i] == raw[..i];
        if raw[i].Customer? {
          recent := recent + [raw[i]];
        }
      }
      assert raw[..|raw|] == raw;
    }
  }

  // ---------------------------------------------------------------- interleavings

  /** `history` is every push, newest first; `between` are the adders past their push but not their trim. */
  datatype State = State(items: seq<Entry>, history: seq<Entry>, between: set<nat>, started: set<nat>)

  /** An adder that dies between its two steps simply has no `TrimBy` in the run. */
  datatype Event = PushBy(adder: nat, entry: Entry) | TrimBy(adder: nat)

  const Init := State([], [], {}, {})

  function Next(s: State, e: Event): State {
    match e
    case PushBy(adder, entry) =>
      if adder in s.started then s
      else State([entry] + s.items, [entry] + s.history, s.between + {adder}, s.started + {adder})
    case TrimBy(adder) =>
      if adder !in s.between then s else s.(items := Trimmed(s.items), between := s.between - {adder})
  }

  function Run(events: seq<Event>): State {
    if events == [] then Init else Next(Run(events[..|events| - 1]), events[|events| - 1])
  }

  ghost predicate Agrees(s: State) {
    && s.between <= s.started
    && |s.items| <= |s.history| && s.items == s.history[..|s.items|]
    && Min(MAX_SIZE, |s.history|) <= |s.items| <= MAX_SIZE + |s.between|
  }

  /** Under every interleaving the list is a prefix of the push history, long enough and not too long. */
  lemma {:induction false} ListIsPrefixOfHistory(events: seq<Event>)
    ensures Agrees(Run(events))
  {
    if events != [] {
      var s, e := Run(events[..|events| - 1]), events[|events| - 1];
      ListIsPrefixOfHistory(events[..|events| - 1]);
      match e {
        case PushBy(adder, entry) =>
          assert adder !in s.started ==> |s.between + {adder}| == |s.between| + 1;
        case TrimBy(adder) =>
          assert adder in s.between ==> |s.between - {adder}| == |s.between| - 1;
      }
    }
  }

  /** So a read always gives the decodable ones of the ten newest pushes, newest first. */
  lemma RecentIsTenNewest(events: seq<Event>)
    ensures var history := Run(events).history;
            Decodable(Trimmed(Run(events).items)) == Decodable(history[..Min(|history|, 10)])
  {
    ListIsPrefixOfHistory(events);
    assert Trimmed(Run(events).items) == Trimmed(Run(events).history);
  }

  // ---------------------------------------------------------------- how long the list gets

  lemma RunSnoc(events: seq<Event>, e: Event)
    ensures Run(events + [e]) == Next(Run(events), e)
  {
    assert (events + [e])[..|events|] == events;
  }

  lemma PushGrows(s: State, adder: nat, e: Entry)
    requires s.between <= s.started && adder !in s.started
    ensures |Next(s, PushBy(adder, e)).between| == |s.between| + 1
    ensures |Next(s, PushBy(adder, e)).items| == |s.items| + 1
    ensures Next(s, PushBy(adder, e)).started == s.started + {adder}
  {
  }

  /** A whole add, alone: one more entry, or ten. */
  lemma AddAlone(s: State, adder: nat, e: Entry)
    requires s.between == {} && adder !in s.started && |s.items| <= MAX_SIZE
    ensures var t := Next(Next(s, PushBy(adder, e)), TrimBy(adder));
            t.between == {} && |t.items| == Min(|s.items| + 1, MAX_SIZE) && t.started == s.started + {adder}
  {
    assert {adder} - {adder} == {};
  }

  /** A run of `n` adds, one after the other. */
  lemma {:induction false} Adds(n: nat) returns (events: seq<Event>)
    ensures Run(events).between == {} && |Run(events).items| == Min(n, MAX_SIZE)
    ensures forall i :: i in Run(events).started ==> i < n
  {
    if n == 0 {
      events := [];
    } else {
      var before := Adds(n - 1);
      var push, trim := PushBy(n - 1, Undecodable("")), TrimBy(n - 1);
      RunSnoc(before, push);
      RunSnoc(before + [push], trim);
      AddAlone(Run(before), n - 1, Undecodable(""));
      events := before + [push] + [trim];
    }
  }

  /** The bound is met: `k` adders between their push and their trim can stretch the list to ten plus `k`. */
  lemma {:induction false} ListCanReach(k: nat) returns (events: seq<Event>)
    ensures |Run(events).between| == k && |Run(events).items| == MAX_SIZE + k
    ensures forall i :: i in Run(events).started ==> i < MAX_SIZE + k
  {
    if k == 0 {
      events := Adds(MAX_SIZE);
    } else {
      var before := ListCanReach(k - 1);
      var push := PushBy(MAX_SIZE + k - 1, Undecodable(""));
      ListIsPrefixOfHistory(before);
      RunSnoc(before, push);
      PushGrows(Run(before), MAX_SIZE + k - 1, Undecodable(""));
      events := before + [push];
    }
  }

  /**
   * The documented worst case, one entry over the maximum, holds of all runs with at most `k` adders
   * in between if and only if `k` is at most one.
   */
  lemma OneOverMaximumOnlyForOneAdder(k: nat)
    ensures (forall events :: |Run(events).between| <= k ==> |Run(events).items| <= MAX_SIZE + 1) <==> k <= 1
  {
    forall events | |Run(events).between| <= k && k <= 1
      ensures |Run(events).items| <= MAX_SIZE + 1
    {
      ListIsPrefixOfHistory(events);
    }
    var longest := ListCanReach(k);
  }
}
