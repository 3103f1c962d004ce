/**
 * Request-reply over two topics by any number of instances, as a state machine over events.
 * Every schedule is a sequence of events; an event that cannot happen changes nothing.
 */
module Protocol {
  import opened Common
  import opened Wire
  import opened Enrichment

  datatype Outcome = Returned(reply: EnrichReply) | TimedOut | SendFailed | CallerCancelled

  /** Where a caller is: at either of its two awaits, woken by an exception, or past its `finally`. */
  datatype Phase = Sending | Awaiting | Interrupted(why: Outcome) | Exited(outcome: Outcome)

  datatype Call = Call(
    instance: nat, request: EnrichRequest, correlationId: string, future: FutureState, phase: Phase)

  /** `pending` holds the dictionaries of all instances; its values are indices into `calls`. */
  datatype System = System(
    calls: seq<Call>, pending: map<(nat, string), nat>, requestLog: seq<Message>, replyLog: seq<Message>)

  datatype Event =
    | Register(instance: nat, request: EnrichRequest, correlationId: string)
    | RequestLands(call: nat)          // the broker stores the request, possibly late or more than once
    | SendCompletes(call: nat)
    | SendFails(call: nat)
    | HandlerReplies(offset: nat)      // any handler, on any stored request, any number of times
    | Deliver(instance: nat, offset: nat) // any instance reads any stored reply, any number of times
    | TimeoutFires(call: nat)
    | CancelFires(call: nat)
    | Resume(call: nat)                // the caller runs on to its exit and pops its entry
    | ForeignRequest(message: Message)
    | ForeignReply(message: Message)

  const Init := System([], map[], [], [])

  function Key(c: Call): (nat, string) {
    (c.instance, c.correlationId)
  }

  /** A fresh UUID: no call has it and no stored message mentions it. */
  ghost predicate Fresh(s: System, correlationId: string) {
    && (forall c :: c in s.calls ==> c.correlationId != correlationId)
    && (forall m :: m in s.requestLog ==> CorrelationOf(m) != Some(correlationId))
    && (forall m :: m in s.replyLog ==> CorrelationOf(m) != Some(correlationId))
  }

  /** Foreign traffic may be anything readable under an id that is not a call's, or unreadable. */
  ghost predicate NotOurs(s: System, correlationId: string) {
    forall c :: c in s.calls ==> c.correlationId != correlationId
  }

  function SetCall(s: System, k: nat, c: Call): System
    requires k < |s.calls|
  {
    s.(calls := s.calls[k := c])
  }

  /** `return` or `raise` through the `finally`: the outcome is fixed and the entry popped. */
  function Exit(s: System, k: nat, outcome: Outcome): System
    requires k < |s.calls|
  {
    SetCall(s, k, s.calls[k].(phase := Exited(outcome))).(pending := s.pending - {Key(s.calls[k])})
  }

  function DeliverAt(s: System, instance: nat, correlationId: string, reply: EnrichReply): System {
    if (instance, correlationId) !in s.pending then s
    else
      var k := s.pending[(instance, correlationId)];
      if k < |s.calls| && s.calls[k].future.Waiting?
      then SetCall(s, k, s.calls[k].(future := Completed(reply)))
      else s
  }

  function CancelFuture(f: FutureState): FutureState {
    if f.Waiting? then Cancelled else f
  }

  ghost function Next(s: System, e: Event): System {
    match e
    case Register(instance, request, id) =>
      if !Fresh(s, id) then s
      else s.(calls := s.calls + [Call(instance, request, id, Waiting, Sending)],
              pending := s.pending[(instance, id) := |s.calls|])
    case RequestLands(k) =>
      if k >= |s.calls| then s
      else
        var c := s.calls[k];
        s.(requestLog := s.requestLog + [RequestMessage(c.request, c.correlationId, CUSTOMER_REPLY_TOPIC)])
    case SendCompletes(k) =>
      if k < |s.calls| && s.calls[k].phase.Sending? then SetCall(s, k, s.calls[k].(phase := Awaiting)) else s
    case SendFails(k) =>
      if k < |s.calls| && s.calls[k].phase.Sending? then Exit(s, k, SendFailed) else s
    case HandlerReplies(offset) =>
      if offset >= |s.requestLog| then s
      else
        (match ReadRequest(s.requestLog[offset])
         case Some((id, request)) => s.(replyLog := s.replyLog + [ReplyMessage(ComputeEnrichment(request), id)])
         case None => s)
    case Deliver(instance, offset) =>
      if offset >= |s.replyLog| then s
      else
        (match ReadReply(s.replyLog[offset])
         case Some((id, reply)) => DeliverAt(s, instance, id, reply)
         case None => s)
    case TimeoutFires(k) =>
      if k < |s.calls| && s.calls[k].phase.Awaiting?
      then SetCall(s, k, s.calls[k].(future := CancelFuture(s.calls[k].future), phase := Interrupted(TimedOut)))
      else s
    case CancelFires(k) =>
      if k < |s.calls| && s.calls[k].phase.Awaiting?
      then SetCall(s, k, s.calls[k].(future := CancelFuture(s.calls[k].future), phase := Interrupted(CallerCancelled)))
      else if k < |s.calls| && s.calls[k].phase.Sending?
      then SetCall(s, k, s.calls[k].(phase := Interrupted(CallerCancelled)))
      else s
    case Resume(k) =>
      if k >= |s.calls| then s
      else if s.calls[k].phase.Interrupted? then Exit(s, k, s.calls[k].phase.why)
      else if s.calls[k].phase.Awaiting? && s.calls[k].future.Completed?
      then Exit(s, k, Returned(s.calls[k].future.reply))
      else s
    case ForeignRequest(m) =>
      if ReadRequest(m).Some? && !NotOurs(s, ReadRequest(m).value.0) then s
      else s.(requestLog := s.requestLog + [m])
    case ForeignReply(m) =>
      if ReadReply(m).Some? && !NotOurs(s, ReadReply(m).value.0) then s
      else s.(replyLog := s.replyLog + [m])
  }

  ghost function Run(s: System, events: seq<Event>): System {
    if events == [] then s else Next(Run(s, events[..|events| - 1]), events[|events| - 1])
  }

  // ---------------------------------------------------------------- invariant

  ghost predicate DistinctIds(s: System) {
    forall i, j :: 0 <= i < j < |s.calls| ==> s.calls[i].correlationId != s.calls[j].correlationId
  }

  ghost predicate PendingIsLive(s: System) {
    && (forall key :: key in s.pending ==>
          s.pending[key] < |s.calls| && Key(s.calls[s.pending[key]]) == key && !s.calls[s.pending[key]].phase.Exited?)
    && (forall k :: 0 <= k < |s.calls| && !s.calls[k].phase.Exited? ==> Key(s.calls[k]) in s.pending)
  }

  ghost predicate HonestRequest(s: System, m: Message) {
    ReadRequest(m).Some? ==>
      forall c :: c in s.calls && c.correlationId == ReadRequest(m).value.0 ==> c.request == ReadRequest(m).value.1
  }

  ghost predicate HonestReply(s: System, m: Message) {
    ReadReply(m).Some? ==>
      forall c :: c in s.calls && c.correlationId == ReadReply(m).value.0 ==>
        ReadReply(m).value.1 == ComputeEnrichment(c.request)
  }

  ghost predicate HonestCall(c: Call) {
    && (c.future.Completed? ==> c.future.reply == ComputeEnrichment(c.request))
    && (c.phase.Exited? && c.phase.outcome.Returned? ==> c.phase.outcome.reply == ComputeEnrichment(c.request))
    && (c.phase.Interrupted? ==> !c.phase.why.Returned?)
  }

  ghost predicate Honest(s: System) {
    && (forall m :: m in s.requestLog ==> HonestRequest(s, m))
    && (forall m :: m in s.replyLog ==> HonestReply(s, m))
    && (forall c :: c in s.calls ==> HonestCall(c))
  }

  ghost predicate Inv(s: System) {
    DistinctIds(s) && PendingIsLive(s) && Honest(s)
  }

  /** Changing one call, in nothing that names it, leaves every log entry as honest as before. */
  lemma SetCallInv(s: System, k: nat, c: Call)
    requires Inv(s) && k < |s.calls|
    requires Key(c) == Key(s.calls[k]) && c.request == s.calls[k].request && HonestCall(c)
    ensures DistinctIds(SetCall(s, k, c)) && Honest(SetCall(s, k, c))
    ensures c.phase.Exited? == s.calls[k].phase.Exited? ==> PendingIsLive(SetCall(s, k, c))
  {
    var t := SetCall(s, k, c);
    assert forall d :: d in t.calls ==>
      exists c0 :: c0 in s.calls && c0.correlationId == d.correlationId && c0.request == d.request by {
      forall d | d in t.calls
        ensures exists c0 :: c0 in s.calls && c0.correlationId == d.correlationId && c0.request == d.request
      {
        var i :| 0 <= i < |t.calls| && t.calls[i] == d;
        assert s.calls[i] in s.calls;
      }
    }
    assert forall m :: HonestRequest(s, m) ==> HonestRequest(t, m);
    assert forall m :: HonestReply(s, m) ==> HonestReply(t, m);
  }

  /** The entry popped is the exiting call's own, so the others keep theirs. */
  lemma ExitPops(s: System, k: nat, outcome: Outcome)
    requires DistinctIds(s) && PendingIsLive(s) && k < |s.calls|
    ensures PendingIsLive(Exit(s, k, outcome))
  {
    var t := Exit(s, k, outcome);
    forall i | 0 <= i < |t.calls| && !t.calls[i].phase.Exited?
      ensures Key(t.calls[i]) in t.pending
    {
      assert i < k || k < i;
    }
  }

  lemma ExitInv(s: System, k: nat, outcome: Outcome)
    requires Inv(s) && k < |s.calls|
    requires outcome.Returned? ==> outcome.reply == ComputeEnrichment(s.calls[k].request)
    ensures Inv(Exit(s, k, outcome))
  {
    assert s.calls[k] in s.calls;
    SetCallInv(s, k, s.calls[k].(phase := Exited(outcome)));
    ExitPops(s, k, outcome);
  }

  /** A correlation id that no log mentions makes every log entry vacuously honest about its call. */
  lemma FreshCallIsHonest(s: System, t: System, c: Call)
    requires Honest(s) && Fresh(s, c.correlationId) && HonestCall(c)
    requires t.calls == s.calls + [c] && t.requestLog == s.requestLog && t.replyLog == s.replyLog
    ensures Honest(t)
  {
    forall m | m in t.requestLog ensures HonestRequest(t, m) {
      assert HonestRequest(s, m);
      assert ReadRequest(m).Some? ==> CorrelationOf(m) == Some(ReadRequest(m).value.0);
    }
    forall m | m in t.replyLog ensures HonestReply(t, m) {
      assert HonestReply(s, m);
      assert ReadReply(m).Some? ==> CorrelationOf(m) == Some(ReadReply(m).value.0);
    }
  }

  function Registered(s: System, c: Call): System {
    s.(calls := s.calls + [c], pending := s.pending[Key(c) := |s.calls|])
  }

  lemma RegisteredIsLive(s: System, c: Call)
    requires DistinctIds(s) && PendingIsLive(s) && Fresh(s, c.correlationId) && !c.phase.Exited?
    ensures DistinctIds(Registered(s, c)) && PendingIsLive(Registered(s, c))
  {
    assert forall k :: 0 <= k < |s.calls| ==> s.calls[k] in s.calls;
    assert Key(c) !in s.pending;
  }

  lemma RegisterInv(s: System, instance: nat, request: EnrichRequest, id: string)
    requires Inv(s)
    ensures Inv(Next(s, Register(instance, request, id)))
  {
    if Fresh(s, id) {
      var c := Call(instance, request, id, Waiting, Sending);
      RegisteredIsLive(s, c);
      FreshCallIsHonest(s, Registered(s, c), c);
    }
  }

  lemma LandsInv(s: System, k: nat)
    requires Inv(s)
    ensures Inv(Next(s, RequestLands(k)))
  {
    if k < |s.calls| {
      var c := s.calls[k];
      var t := Next(s, RequestLands(k));
      WireRoundTrip(c.request, ComputeEnrichment(c.request), c.correlationId, CUSTOMER_REPLY_TOPIC);
      assert HonestRequest(s, RequestMessage(c.request, c.correlationId, CUSTOMER_REPLY_TOPIC));
      LogsInv(s, t);
    }
  }

  /** More log entries, each honest about the calls there are, keep the invariant. */
  lemma LogsInv(s: System, t: System)
    requires Inv(s) && t.calls == s.calls && t.pending == s.pending
    requires forall m :: m in t.requestLog ==> m in s.requestLog || HonestRequest(s, m)
    requires forall m :: m in t.replyLog ==> m in s.replyLog || HonestReply(s, m)
    ensures Inv(t)
  {
    assert forall m :: HonestRequest(s, m) ==> HonestRequest(t, m);
    assert forall m :: HonestReply(s, m) ==> HonestReply(t, m);
  }

  lemma HandlerInv(s: System, offset: nat)
    requires Inv(s)
    ensures Inv(Next(s, HandlerReplies(offset)))
  {
    if offset < |s.requestLog| && ReadRequest(s.requestLog[offset]).Some? {
      var m := s.requestLog[offset];
      var (id, request) := ReadRequest(m).value;
      assert m in s.requestLog && HonestRequest(s, m);
      WireRoundTrip(request, ComputeEnrichment(request), id, CUSTOMER_REPLY_TOPIC);
      assert HonestReply(s, ReplyMessage(ComputeEnrichment(request), id));
      LogsInv(s, Next(s, HandlerReplies(offset)));
    }
  }

  lemma DeliverInv(s: System, instance: nat, offset: nat)
    requires Inv(s)
    ensures Inv(Next(s, Deliver(instance, offset)))
  {
    if offset < |s.replyLog| && ReadReply(s.replyLog[offset]).Some? {
      var (id, reply) := ReadReply(s.replyLog[offset]).value;
      assert s.replyLog[offset] in s.replyLog;
      if (instance, id) in s.pending {
        var k := s.pending[(instance, id)];
        assert s.calls[k] in s.calls && HonestCall(s.calls[k]);
        if s.calls[k].future.Waiting? {
          SetCallInv(s, k, s.calls[k].(future := Completed(reply)));
        }
      }
    }
  }

  /** A caller that goes on waiting, with its future as it was or cancelled. */
  lemma StillPendingInv(s: System, k: nat, future: FutureState, phase: Phase)
    requires Inv(s) && k < |s.calls| && !s.calls[k].phase.Exited? && !phase.Exited?
    requires future == s.calls[k].future || future == CancelFuture(s.calls[k].future)
    requires phase.Interrupted? ==> !phase.why.Returned?
    ensures Inv(SetCall(s, k, s.calls[k].(future := future, phase := phase)))
  {
    assert s.calls[k] in s.calls && HonestCall(s.calls[k]);
    SetCallInv(s, k, s.calls[k].(future := future, phase := phase));
  }

  lemma SendCompletesInv(s: System, k: nat)
    requires Inv(s)
    ensures Inv(Next(s, SendCompletes(k)))
  {
    if k < |s.calls| && s.calls[k].phase.Sending? {
      StillPendingInv(s, k, s.calls[k].future, Awaiting);
    }
  }

  lemma TimeoutInv(s: System, k: nat)
    requires Inv(s)
    ensures Inv(Next(s, TimeoutFires(k)))
  {
    if k < |s.calls| && s.calls[k].phase.Awaiting? {
      StillPendingInv(s, k, CancelFuture(s.calls[k].future), Interrupted(TimedOut));
    }
  }

  lemma CancelInv(s: System, k: nat)
    requires Inv(s)
    ensures Inv(Next(s, CancelFires(k)))
  {
    if k < |s.calls| && s.calls[k].phase.Awaiting? {
      StillPendingInv(s, k, CancelFuture(s.calls[k].future), Interrupted(CallerCancelled));
    } else if k < |s.calls| && s.calls[k].phase.Sending? {
      StillPendingInv(s, k, s.calls[k].future, Interrupted(CallerCancelled));
    }
  }

  lemma ResumeInv(s: System, k: nat)
    requires Inv(s)
    ensures Inv(Next(s, Resume(k)))
  {
    if k < |s.calls| {
      var c := s.calls[k];
      assert c in s.calls && HonestCall(c);
      if c.phase.Interrupted? {
        ExitInv(s, k, c.phase.why);
      } else if c.phase.Awaiting? && c.future.Completed? {
        ExitInv(s, k, Returned(c.future.reply));
      }
    }
  }

  lemma NextInv(s: System, e: Event)
    requires Inv(s)
    ensures Inv(Next(s, e))
  {
    match e
    case Register(instance, request, id) => RegisterInv(s, instance, request, id);
    case RequestLands(k) => LandsInv(s, k);
    case SendCompletes(k) => SendCompletesInv(s, k);
    case SendFails(k) => if k < |s.calls| { ExitInv(s, k, SendFailed); }
    case HandlerReplies(offset) => HandlerInv(s, offset);
    case Deliver(instance, offset) => DeliverInv(s, instance, offset);
    case TimeoutFires(k) => TimeoutInv(s, k);
    case CancelFires(k) => CancelInv(s, k);
    case Resume(k) => ResumeInv(s, k);
    case ForeignRequest(_) => LogsInv(s, Next(s, e));
    case ForeignReply(_) => LogsInv(s, Next(s, e));
  }

  lemma {:induction false} RunInv(events: seq<Event>)
    ensures Inv(Run(Init, events))
  {
    if events != [] {
      RunInv(events[..|events| - 1]);
      NextInv(Run(Init, events[..|events| - 1]), events[|events| - 1]);
    }
  }

  // ---------------------------------------------------------------- main results

  /** Whatever the schedule, a call that returns a value returns the enrichment of its own request. */
  lemma ReturnsOwnEnrichment(events: seq<Event>, k: nat)
    requires k < |Run(Init, events).calls|
    requires Run(Init, events).calls[k].phase.Exited? && Run(Init, events).calls[k].phase.outcome.Returned?
    ensures Run(Init, events).calls[k].phase.outcome.reply == ComputeEnrichment(Run(Init, events).calls[k].request)
  {
    RunInv(events);
    assert Run(Init, events).calls[k] in Run(Init, events).calls;
  }

  /** The entries are exactly those of the calls that have registered and not exited, one for each. */
  lemma PendingIsExactlyTheLiveCalls(events: seq<Event>)
    ensures var s := Run(Init, events);
            && s.pending.Keys == (set k | 0 <= k < |s.calls| && !s.calls[k].phase.Exited? :: Key(s.calls[k]))
            && forall k :: 0 <= k < |s.calls| && !s.calls[k].phase.Exited? ==>
                 Key(s.calls[k]) in s.pending && s.pending[Key(s.calls[k])] == k
  {
    RunInv(events);
    var s := Run(Init, events);
    forall k | 0 <= k < |s.calls| && !s.calls[k].phase.Exited?
      ensures Key(s.calls[k]) in s.pending && s.pending[Key(s.calls[k])] == k
    {
      var j := s.pending[Key(s.calls[k])];
      assert s.calls[j].correlationId == s.calls[k].correlationId;
      assert j < k || j == k || k < j;
    }
  }

  /** No leak: once every call has exited, by whatever way out, nothing is pending on any instance. */
  lemma NothingPendingAfterExit(events: seq<Event>)
    requires forall c :: c in Run(Init, events).calls ==> c.phase.Exited?
    ensures Run(Init, events).pending == map[]
  {
    var s := Run(Init, events);
    PendingIsExactlyTheLiveCalls(events);
    assert forall k :: 0 <= k < |s.calls| ==> s.calls[k] in s.calls;
    assert s.pending.Keys == {};
  }

  /** From `s` to `t`, call `k` is the same call, and what was done about it is still done. */
  ghost predicate KeepsSettled(s: System, t: System, k: nat)
    requires k < |s.calls|
  {
    && k < |t.calls|
    && Key(t.calls[k]) == Key(s.calls[k]) && t.calls[k].request == s.calls[k].request
    && (!s.calls[k].future.Waiting? ==> t.calls[k].future == s.calls[k].future)
    && (s.calls[k].phase.Exited? ==> t.calls[k].phase == s.calls[k].phase && t.calls[k].future == s.calls[k].future)
  }

  /** One event never removes a call, never reopens a future that is done, never changes an outcome. */
  lemma NextKeepsSettled(s: System, e: Event, k: nat)
    requires Inv(s) && k < |s.calls|
    ensures KeepsSettled(s, Next(s, e), k)
  {
    assert s.calls[k] in s.calls;
  }

  lemma {:induction false} RunConcat(s: System, a: seq<Event>, b: seq<Event>)
    ensures Run(s, a + b) == Run(Run(s, a), b)
  {
    if b == [] {
      assert a + b == a;
    } else {
      assert (a + b)[..|a + b| - 1] == a + b[..|b| - 1];
      RunConcat(s, a, b[..|b| - 1]);
    }
  }

  /** A future is completed at most once, and an outcome stands for the rest of the run. */
  lemma {:induction false} SettledForGood(past: seq<Event>, future: seq<Event>, k: nat)
    requires k < |Run(Init, past).calls|
    ensures KeepsSettled(Run(Init, past), Run(Init, past + future), k)
  {
    if future == [] {
      assert past + future == past;
    } else {
      var init, e := future[..|future| - 1], future[|future| - 1];
      assert past + future == (past + init) + [e];
      SettledForGood(past, init, k);
      SettledOneMore(Run(Init, past), past + init, e, k);
    }
  }

  lemma SettledOneMore(s: System, events: seq<Event>, e: Event, k: nat)
    requires k < |s.calls| && KeepsSettled(s, Run(Init, events), k)
    ensures KeepsSettled(s, Run(Init, events + [e]), k)
  {
    RunInv(events);
    RunSnoc(Init, events, e);
    NextKeepsSettled(Run(Init, events), e, k);
  }

  /** A reply that finds no waiting future (late, duplicate, or at the wrong instance) changes nothing. */
  lemma StrayReplyChangesNothing(events: seq<Event>, instance: nat, offset: nat)
    requires var s := Run(Init, events);
             forall k :: 0 <= k < |s.calls| && s.calls[k].instance == instance && offset < |s.replyLog|
                         && CorrelationOf(s.replyLog[offset]) == Some(s.calls[k].correlationId) ==>
                         s.calls[k].phase.Exited? || !s.calls[k].future.Waiting?
    ensures Run(Init, events + [Deliver(instance, offset)]) == Run(Init, events)
  {
    RunInv(events);
    assert (events + [Deliver(instance, offset)])[..|events|] == events;
  }

  // ---------------------------------------------------------------- the protocol can get through

  ghost function HappyPath(s: System, instance: nat, request: EnrichRequest, id: string): seq<Event> {
    var k := |s.calls|;
    [Register(instance, request, id), RequestLands(k), HandlerReplies(|s.requestLog|),
     Deliver(instance, |s.replyLog|), SendCompletes(k), Resume(k)]
  }

  lemma RunSnoc(s: System, events: seq<Event>, e: Event)
    ensures Run(s, events + [e]) == Next(Run(s, events), e)
  {
    assert (events + [e])[..|events|] == events;
  }

  lemma RunThree(s: System, a: Event, b: Event, c: Event)
    ensures Run(s, [a, b, c]) == Next(Next(Next(s, a), b), c)
  {
    RunSnoc(s, [], a);
    RunSnoc(s, [a], b);
    RunSnoc(s, [a, b], c);
    assert [] + [a] == [a] && [a] + [b] == [a, b] && [a, b] + [c] == [a, b, c];
  }

  ghost function Published(s: System, instance: nat, request: EnrichRequest, id: string): System {
    System(s.calls + [Call(instance, request, id, Waiting, Sending)],
           s.pending[(instance, id) := |s.calls|],
           s.requestLog + [RequestMessage(request, id, CUSTOMER_REPLY_TOPIC)],
           s.replyLog + [ReplyMessage(ComputeEnrichment(request), id)])
  }

  /** A registered call whose request lands and is handled has its own enrichment on the reply topic. */
  lemma ReplyIsPublished(s: System, instance: nat, request: EnrichRequest, id: string)
    requires Fresh(s, id)
    ensures Run(s, HappyPath(s, instance, request, id)[..3]) == Published(s, instance, request, id)
  {
    var es := HappyPath(s, instance, request, id);
    assert es[..3] == [es[0], es[1], es[2]];
    RunThree(s, es[0], es[1], es[2]);
    WireRoundTrip(request, ComputeEnrichment(request), id, CUSTOMER_REPLY_TOPIC);
  }

  /** Reading that reply completes the future, and the caller then returns it. */
  lemma ReplyIsReturned(s: System, instance: nat, request: EnrichRequest, id: string)
    requires (instance, id) !in s.pending
    ensures var k := |s.calls|;
            var t := Run(Published(s, instance, request, id), HappyPath(s, instance, request, id)[3..]);
            && |t.calls| == k + 1 && t.calls[k].phase == Exited(Returned(ComputeEnrichment(request)))
            && t.pending == s.pending
  {
    var es := HappyPath(s, instance, request, id);
    assert es[3..] == [es[3], es[4], es[5]];
    RunThree(Published(s, instance, request, id), es[3], es[4], es[5]);
    WireRoundTrip(request, ComputeEnrichment(request), id, CUSTOMER_REPLY_TOPIC);
    assert s.pending[(instance, id) := |s.calls|] - {(instance, id)} == s.pending;
  }

  /** From every reachable state a new call can run to a normal return: the safety claims are not empty. */
  lemma CallCanReturn(past: seq<Event>, instance: nat, request: EnrichRequest, id: string)
    requires Fresh(Run(Init, past), id)
    ensures var s := Run(Init, past);
            var t := Run(s, HappyPath(s, instance, request, id));
            && |t.calls| == |s.calls| + 1
            && t.calls[|s.calls|].phase == Exited(Returned(ComputeEnrichment(request)))
            && t.pending == s.pending
  {
    var s := Run(Init, past);
    var es := HappyPath(s, instance, request, id);
    assert es == es[..3] + es[3..];
    RunConcat(s, es[..3], es[3..]);
    ReplyIsPublished(s, instance, request, id);
    FreshHasNoEntry(past, instance, id);
    ReplyIsReturned(s, instance, request, id);
  }

  lemma FreshHasNoEntry(past: seq<Event>, instance: nat, id: string)
    requires Fresh(Run(Init, past), id)
    ensures (instance, id) !in Run(Init, past).pending
  {
    RunInv(past);
    var s := Run(Init, past);
    assert forall k :: 0 <= k < |s.calls| ==> s.calls[k] in s.calls;
  }

  // ---------------------------------------------------------------- every call has a way out

  /** From `s` to `t` call `k` exits with the outcome and its entry goes; nothing else changes. */
  ghost predicate ExitsWith(s: System, t: System, k: nat, outcome: Outcome)
    requires k < |s.calls|
  {
    && |t.calls| == |s.calls| && t.calls[k].phase == Exited(outcome)
    && (t.calls[k].instance, t.calls[k].correlationId) == (s.calls[k].instance, s.calls[k].correlationId)
    && t.calls[k].request == s.calls[k].request
    && (forall j :: 0 <= j < |s.calls| && j != k ==> t.calls[j] == s.calls[j])
    && (s.calls[k].instance, s.calls[k].correlationId) in s.pending
    && t.pending == s.pending - {(s.calls[k].instance, s.calls[k].correlationId)}
    && t.requestLog == s.requestLog && t.replyLog == s.replyLog
  }

  lemma RunOne(s: System, a: Event)
    ensures Run(s, [a]) == Next(s, a)
  {
    RunSnoc(s, [], a);
    assert [] + [a] == [a];
  }

  lemma RunTwo(s: System, a: Event, b: Event)
    ensures Run(s, [a, b]) == Next(Next(s, a), b)
  {
    RunOne(s, a);
    RunSnoc(s, [a], b);
    assert [a] + [b] == [a, b];
  }

  /** From `s` to `t` the caller of `k` is woken by `why`, with its future as given; nothing else changes. */
  ghost predicate Woken(s: System, t: System, k: nat, why: Outcome, future: FutureState)
    requires k < |s.calls|
  {
    && t == s.(calls := t.calls) && |t.calls| == |s.calls|
    && t.calls[k] == s.calls[k].(phase := Interrupted(why), future := future)
    && (forall j :: 0 <= j < |s.calls| && j != k ==> t.calls[j] == s.calls[j])
  }

  lemma TimeoutWakes(s: System, k: nat)
    requires k < |s.calls| && s.calls[k].phase.Awaiting?
    ensures Woken(s, Next(s, TimeoutFires(k)), k, TimedOut,
                  if s.calls[k].future.Waiting? then Cancelled else s.calls[k].future)
  {
  }

  lemma CancelWakes(s: System, k: nat)
    requires k < |s.calls| && (s.calls[k].phase.Sending? || s.calls[k].phase.Awaiting?)
    ensures Woken(s, Next(s, CancelFires(k)), k, CallerCancelled,
                  if s.calls[k].phase.Awaiting? && s.calls[k].future.Waiting? then Cancelled else s.calls[k].future)
  {
  }

  /** A caller with its reply returns it, a woken one raises what woke it. */
  lemma ResumeEndsCall(s: System, k: nat)
    requires PendingIsLive(s) && k < |s.calls|
    ensures s.calls[k].phase.Awaiting? && s.calls[k].future.Completed? ==>
              ExitsWith(s, Next(s, Resume(k)), k, Returned(s.calls[k].future.reply))
    ensures s.calls[k].phase.Interrupted? ==> ExitsWith(s, Next(s, Resume(k)), k, s.calls[k].phase.why)
    ensures |Next(s, Resume(k)).calls| == |s.calls| && Next(s, Resume(k)).calls[k].future == s.calls[k].future
  {
  }

  lemma WokenCallExits(s: System, t: System, k: nat, why: Outcome, future: FutureState)
    requires PendingIsLive(s) && k < |s.calls| && !s.calls[k].phase.Exited? && Woken(s, t, k, why, future)
    ensures ExitsWith(s, Next(t, Resume(k)), k, why) && Next(t, Resume(k)).calls[k].future == future
  {
    assert PendingIsLive(t);
    ResumeEndsCall(t, k);
  }

  /** A timeout ends the call: the caller raises and its entry is popped; a waiting future is cancelled. */
  lemma TimeoutEndsCall(s: System, k: nat)
    requires Inv(s) && k < |s.calls| && s.calls[k].phase.Awaiting?
    ensures var t := Run(s, [TimeoutFires(k), Resume(k)]);
            && ExitsWith(s, t, k, TimedOut)
            && t.calls[k].future == if s.calls[k].future.Waiting? then Cancelled else s.calls[k].future
  {
    RunTwo(s, TimeoutFires(k), Resume(k));
    TimeoutWakes(s, k);
    WokenCallExits(s, Next(s, TimeoutFires(k)), k, TimedOut,
                   if s.calls[k].future.Waiting? then Cancelled else s.calls[k].future);
  }

  /** So does a cancellation, at either await. */
  lemma CancelEndsCall(s: System, k: nat)
    requires Inv(s) && k < |s.calls| && (s.calls[k].phase.Sending? || s.calls[k].phase.Awaiting?)
    ensures var t := Run(s, [CancelFires(k), Resume(k)]);
            && ExitsWith(s, t, k, CallerCancelled)
            && t.calls[k].future == if s.calls[k].phase.Awaiting? && s.calls[k].future.Waiting? then Cancelled
                                    else s.calls[k].future
  {
    RunTwo(s, CancelFires(k), Resume(k));
    CancelWakes(s, k);
    WokenCallExits(s, Next(s, CancelFires(k)), k, CallerCancelled,
                   if s.calls[k].phase.Awaiting? && s.calls[k].future.Waiting? then Cancelled else s.calls[k].future);
  }

  lemma SendFailureEndsCall(s: System, k: nat)
    requires Inv(s) && k < |s.calls| && s.calls[k].phase.Sending?
    ensures ExitsWith(s, Run(s, [SendFails(k)]), k, SendFailed)
  {
    RunOne(s, SendFails(k));
  }

  /** Steps of the caller alone that end a call, wherever it is. */
  function WayOut(c: Call, k: nat): seq<Event> {
    match c.phase
    case Sending => [SendFails(k)]
    case Awaiting => [TimeoutFires(k), Resume(k)]
    case Interrupted(_) => [Resume(k)]
    case Exited(_) => []
  }

  function WaysOut(calls: seq<Call>): seq<Event> {
    if calls == [] then []
    else WaysOut(calls[..|calls| - 1]) + WayOut(calls[|calls| - 1], |calls| - 1)
  }

  lemma WayOutEndsCall(s: System, k: nat)
    requires Inv(s) && k < |s.calls|
    ensures var t := Run(s, WayOut(s.calls[k], k));
            && |t.calls| == |s.calls| && t.calls[k].phase.Exited?
            && forall j :: 0 <= j < |s.calls| && j != k ==> t.calls[j] == s.calls[j]
  {
    match s.calls[k].phase
    case Sending => SendFailureEndsCall(s, k);
    case Awaiting => TimeoutEndsCall(s, k);
    case Interrupted(_) =>
      RunOne(s, Resume(k));
      ResumeEndsCall(s, k);
    case Exited(_) => assert Run(s, []) == s;
  }

  lemma {:induction false} RunKeepsInv(s: System, events: seq<Event>)
    requires Inv(s)
    ensures Inv(Run(s, events))
  {
    if events != [] {
      RunKeepsInv(s, events[..|events| - 1]);
      NextInv(Run(s, events[..|events| - 1]), events[|events| - 1]);
    }
  }

  /** The first `n` calls of `s` are over in `t`, the others as they were. */
  ghost predicate EndedUpTo(s: System, t: System, n: nat)
    requires n <= |s.calls|
  {
    && |t.calls| == |s.calls|
    && (forall j :: 0 <= j < n ==> t.calls[j].phase.Exited?)
    && (forall j :: n <= j < |s.calls| ==> t.calls[j] == s.calls[j])
  }

  lemma EndOneMore(s: System, t: System, k: nat)
    requires Inv(t) && k < |s.calls| && EndedUpTo(s, t, k)
    ensures EndedUpTo(s, Run(t, WayOut(s.calls[k], k)), k + 1)
  {
    WayOutEndsCall(t, k);
  }

  lemma {:induction false} WaysOutEndCalls(s: System, n: nat)
    requires Inv(s) && n <= |s.calls|
    ensures EndedUpTo(s, Run(s, WaysOut(s.calls[..n])), n)
  {
    if n == 0 {
      assert Run(s, []) == s;
    } else {
      var before := WaysOut(s.calls[..n - 1]);
      WaysOutEndCalls(s, n - 1);
      RunKeepsInv(s, before);
      EndOneMore(s, Run(s, before), n - 1);
      assert s.calls[..n][..n - 1] == s.calls[..n - 1];
      RunConcat(s, before, WayOut(s.calls[n - 1], n - 1));
    }
  }

  /** A length that none of the strings reaches. */
  lemma {:induction false} Unreached(ids: seq<string>) returns (n: nat)
    ensures forall id :: id in ids ==> |id| < n
  {
    if ids == [] {
      n := 0;
    } else {
      var m := Unreached(ids[1..]);
      n := Max(m, |ids[0]| + 1);
      assert forall id :: id in ids ==> id == ids[0] || id in ids[1..];
    }
  }

  function IdsOf(messages: seq<Message>): seq<string> {
    if messages == [] then []
    else
      match CorrelationOf(messages[0])
      case Some(id) => [id] + IdsOf(messages[1..])
      case None => IdsOf(messages[1..])
  }

  lemma {:induction false} IdsOfAll(messages: seq<Message>, m: Message)
    ensures m in messages && CorrelationOf(m).Some? ==> CorrelationOf(m).value in IdsOf(messages)
  {
    if messages != [] {
      IdsOfAll(messages[1..], m);
      assert m in messages <==> m == messages[0] || m in messages[1..];
    }
  }

  /** There is always a fresh correlation id to call with. */
  lemma FreshIdExists(s: System)
    ensures exists id :: Fresh(s, id)
  {
    var ids := seq(|s.calls|, i requires 0 <= i < |s.calls| => s.calls[i].correlationId)
             + IdsOf(s.requestLog) + IdsOf(s.replyLog);
    var n := Unreached(ids);
    var id := seq(n, _ => 'a');
    forall c | c in s.calls ensures c.correlationId != id {
      var i :| 0 <= i < |s.calls| && s.calls[i] == c;
      assert ids[i] == c.correlationId && ids[i] in ids;
    }
    forall m | m in s.requestLog + s.replyLog ensures CorrelationOf(m) != Some(id) {
      IdsOfAll(s.requestLog, m);
      IdsOfAll(s.replyLog, m);
    }
    assert Fresh(s, id);
  }

  /** No call hangs: from every reachable state, the callers alone can end every call and empty every map. */
  lemma EveryCallCanEnd(past: seq<Event>)
    ensures var s := Run(Init, past);
            var t := Run(Init, past + WaysOut(s.calls));
            && |t.calls| == |s.calls| && t.pending == map[]
            && forall c :: c in t.calls ==> c.phase.Exited?
  {
    RunInv(past);
    var s := Run(Init, past);
    WaysOutEndCalls(s, |s.calls|);
    assert s.calls[..|s.calls|] == s.calls;
    RunConcat(Init, past, WaysOut(s.calls));
    NothingPendingAfterExit(past + WaysOut(s.calls));
  }

  /**
   * The schedules are as hostile as claimed: a call's request may land in any phase and again, and any
   * foreign message may be stored that is unreadable or carries no call's id.
   */
  lemma AnyTrafficMayCome(s: System, k: nat, m: Message)
    ensures k < |s.calls| ==>
              var t := Next(s, RequestLands(k));
              && t == s.(requestLog := t.requestLog) && |t.requestLog| == |s.requestLog| + 1
              && s.requestLog <= t.requestLog
              && ReadRequest(t.requestLog[|s.requestLog|]) == Some((s.calls[k].correlationId, s.calls[k].request))
    ensures (forall c :: c in s.calls ==> CorrelationOf(m) != Some(c.correlationId)) || m.value.Malformed? ==>
              && Next(s, ForeignRequest(m)) == s.(requestLog := s.requestLog + [m])
              && Next(s, ForeignReply(m)) == s.(replyLog := s.replyLog + [m])
  {
    if k < |s.calls| {
      var c := s.calls[k];
      WireRoundTrip(c.request, ComputeEnrichment(c.request), c.correlationId, CUSTOMER_REPLY_TOPIC);
    }
  }

  // ---------------------------------------------------------------- the broker object in the protocol

  /** Instance `i` of the protocol is in the state that a broker object showing `view` is in. */
  ghost predicate Shows(s: System, i: nat, view: View) {
    && PendingIsLive(s)
    && (forall id :: id in view <==> (i, id) in s.pending)
    && (forall id :: (i, id) in s.pending ==> id in view && view[id] == s.calls[s.pending[(i, id)]].future)
  }

  /** Two calls that are both alive are told apart by their entries. */
  lemma KeyNamesCall(s: System, k: nat)
    requires Inv(s) && k < |s.calls| && !s.calls[k].phase.Exited?
    ensures Key(s.calls[k]) in s.pending && s.pending[Key(s.calls[k])] == k
  {
    var j := s.pending[Key(s.calls[k])];
    assert s.calls[j].correlationId == s.calls[k].correlationId;
    assert j < k || j == k || k < j;
  }

  /** Registering a call is the broker's `Register` at that instance and nothing elsewhere. */
  lemma RegisterIsBrokerRegister(s: System, j: nat, request: EnrichRequest, id: string, i: nat, view: View)
    requires Inv(s) && Fresh(s, id) && Shows(s, i, view)
    ensures Shows(Next(s, Register(j, request, id)), i, if i == j then view[id := Waiting] else view)
  {
    RegisterInv(s, j, request, id);
  }

  /** Reading a reply-topic message is the broker's reply loop on that message, at that instance only. */
  lemma DeliverIsBrokerConsume(s: System, j: nat, offset: nat, i: nat, view: View)
    requires Inv(s) && offset < |s.replyLog| && Shows(s, i, view)
    ensures Shows(Next(s, Deliver(j, offset)), i, if i == j then DeliverAll(view, [s.replyLog[offset]]) else view)
  {
    var m := s.replyLog[offset];
    DeliverInv(s, j, offset);
    DeliverOne(view, m);
    if ReadReply(m).Some? {
      DeliverAtShows(s, j, ReadReply(m).value.0, ReadReply(m).value.1, i, view);
    }
  }

  lemma DeliverOne(view: View, m: Message)
    ensures DeliverAll(view, [m]) == match ReadReply(m)
                                     case Some((id, reply)) => DeliverTo(view, id, reply)
                                     case None => view
  {
    assert [m][..0] == [];
    assert DeliverAll(view, []) == view;
  }

  lemma DeliverAtShows(s: System, j: nat, id: string, reply: EnrichReply, i: nat, view: View)
    requires Shows(s, i, view)
    ensures Shows(DeliverAt(s, j, id, reply), i, if i == j then DeliverTo(view, id, reply) else view)
  {
  }

  /** A caller's way out is the broker's `Unregister` of its id, at its instance only. */
  lemma ExitIsBrokerUnregister(s: System, k: nat, outcome: Outcome, i: nat, view: View)
    requires Inv(s) && k < |s.calls| && !s.calls[k].phase.Exited? && Shows(s, i, view)
    ensures Shows(Exit(s, k, outcome), i,
                  if i == s.calls[k].instance then view - {s.calls[k].correlationId} else view)
  {
    KeyNamesCall(s, k);
    ExitPops(s, k, outcome);
  }

  /** A handler event is the broker's request loop on that message; a send that fails is no event. */
  lemma HandlerIsBrokerHandle(s: System, offset: nat)
    requires offset < |s.requestLog|
    ensures Next(s, HandlerReplies(offset)) == s.(replyLog := s.replyLog + HandleAll([s.requestLog[offset]], [true]))
    ensures HandleAll([s.requestLog[offset]], [false]) == []
  {
    HandleOne(s.requestLog[offset], true);
    HandleOne(s.requestLog[offset], false);
    assert s.replyLog + [] == s.replyLog;
  }
}
