/** The broker object of one instance: pending futures keyed by correlation id, and its reply loop. */
module Enrichment {
  import opened Common
  import opened Wire

  datatype FutureState = Waiting | Completed(reply: EnrichReply) | Cancelled

  /** What a broker shows: the state of the future registered under each correlation id. */
  type View = map<string, FutureState>

  function DeliverTo(view: View, correlationId: string, reply: EnrichReply): View {
    if correlationId in view && view[correlationId].Waiting? then view[correlationId := Completed(reply)] else view
  }

  /** The reply loop over a batch of messages; a message that cannot be read is skipped. */
  function DeliverAll(view: View, messages: seq<Message>): View {
    if messages == [] then view
    else
      var before := DeliverAll(view, messages[..|messages| - 1]);
      match ReadReply(messages[|messages| - 1])
      case Some((correlationId, reply)) => DeliverTo(before, correlationId, reply)
      case None => before
  }

  /**
   * A batch completes each waiting future with the first readable reply that carries its id,
   * and touches nothing else: no key appears or goes, and a future that is done stays as it is.
   */
  lemma {:induction false} DeliverAllMeaning(view: View, messages: seq<Message>, correlationId: string)
    ensures DeliverAll(view, messages).Keys == view.Keys
    ensures correlationId in view && !view[correlationId].Waiting? ==>
              DeliverAll(view, messages)[correlationId] == view[correlationId]
    ensures correlationId in view && view[correlationId].Waiting? ==>
              DeliverAll(view, messages)[correlationId] ==
              match FirstReply(messages, correlationId) case Some(reply) => Completed(reply) case None => Waiting
  {
    if messages == [] {
    } else {
      var init, last := messages[..|messages| - 1], messages[|messages| - 1];
      DeliverAllMeaning(view, init, correlationId);
      FirstReplySnoc(init, last, correlationId);
      assert messages == init + [last];
    }
  }

  function FirstReply(messages: seq<Message>, correlationId: string): Option<EnrichReply> {
    if messages == [] then None
    else
      match ReadReply(messages[0])
      case Some((id, reply)) => if id == correlationId then Some(reply) else FirstReply(messages[1..], correlationId)
      case None => FirstReply(messages[1..], correlationId)
  }

  lemma {:induction false} FirstReplySnoc(messages: seq<Message>, m: Message, correlationId: string)
    ensures FirstReply(messages + [m], correlationId) ==
            match FirstReply(messages, correlationId)
            case Some(reply) => Some(reply)
            case None => FirstReply([m], correlationId)
  {
    if messages == [] {
      assert [] + [m] == [m];
    } else {
      assert (messages + [m])[1..] == messages[1..] + [m];
      FirstReplySnoc(messages[1..], m, correlationId);
    }
  }

  /** What the request loop puts on the reply topic for one message; `stored` is whether the send goes through. */
  function RepliesTo(m: Message, stored: bool): seq<Message> {
    match ReadRequest(m)
    case Some((correlationId, request)) =>
      if stored then [ReplyMessage(ComputeEnrichment(request), correlationId)] else []
    case None => []
  }

  /** The request loop over a batch of messages. */
  function HandleAll(messages: seq<Message>, stored: seq<bool>): seq<Message>
    requires |messages| == |stored|
  {
    if messages == [] then []
    else
      var n := |messages| - 1;
      HandleAll(messages[..n], stored[..n]) + RepliesTo(messages[n], stored[n])
  }

  lemma HandleAllNext(messages: seq<Message>, stored: seq<bool>, k: nat)
    requires |messages| == |stored| && k < |messages|
    ensures HandleAll(messages[..k + 1], stored[..k + 1]) ==
            HandleAll(messages[..k], stored[..k]) + RepliesTo(messages[k], stored[k])
  {
    assert messages[..k + 1][..k] == messages[..k] && stored[..k + 1][..k] == stored[..k];
  }

  lemma HandleOne(m: Message, stored: bool)
    ensures HandleAll([m], [stored]) == RepliesTo(m, stored)
  {
    assert [m][..0] == [] && [stored][..0] == [];
    assert HandleAll([], []) + RepliesTo(m, stored) == RepliesTo(m, stored);
  }

  /**
   * What a batch puts on the reply topic is exactly the enrichments of its readable requests whose
   * replies were stored, each under its request's id; nothing unreadable is answered.
   */
  lemma {:induction false} HandleAllMeaning(messages: seq<Message>, stored: seq<bool>, reply: Message)
    requires |messages| == |stored|
    ensures reply in HandleAll(messages, stored) <==>
              exists i :: 0 <= i < |messages| && stored[i] && ReadRequest(messages[i]).Some?
                          && reply == ReplyMessage(ComputeEnrichment(ReadRequest(messages[i]).value.1),
                                                   ReadRequest(messages[i]).value.0)
  {
    if messages != [] {
      var n := |messages| - 1;
      HandleAllMeaning(messages[..n], stored[..n], reply);
      assert forall i :: 0 <= i < n ==> messages[i] == messages[..n][i] && stored[i] == stored[..n][i];
      assert reply in HandleAll(messages, stored) <==>
        reply in HandleAll(messages[..n], stored[..n]) || reply in RepliesTo(messages[n], stored[n]);
    }
  }

  /** The producer, seen from the topic it replies on; a send that raises may leave nothing there. */
  class Producer {
    var topic: seq<Message>

    constructor ()
      ensures topic == []
    {
      topic := [];
    }

    method SendAndWait(m: Message, stored: bool)
      modifies this
      ensures topic == old(topic) + if stored then [m] else []
    {
      if stored {
        topic := topic + [m];
      }
    }
  }

  class Future {
    var state: FutureState

    constructor ()
      ensures state == Waiting
    {
      state := Waiting;
    }
  }

  class EnrichmentService {
    const producer: Producer
    var pending: map<string, Future>

    /** Two correlation ids never share a future. */
    ghost predicate Valid()
      reads this
    {
      forall a, b :: a in pending && b in pending && a != b ==> pending[a] != pending[b]
    }

    ghost function Futures(): set<Future>
      reads this
    {
      set id | id in pending :: pending[id]
    }

    ghost function Contents(): View
      reads this, Futures()
    {
      map id | id in pending :: pending[id].state
    }

    constructor (producer: Producer)
      ensures Valid() && Contents() == map[] && this.producer == producer
    {
      this.producer := producer;
      pending := map[];
    }

    /** First half of a request: a new waiting future goes under the id, up to the first await. */
    method Register(correlationId: string) returns (future: Future)
      requires Valid()
      modifies this
      ensures Valid() && fresh(future) && future.state == Waiting
      ensures pending == old(pending)[correlationId := future]
      ensures Contents() == old(Contents())[correlationId := Waiting]
    {
      future := new Future();
      pending := pending[correlationId := future];
    }

    /** The `finally` of a request: the entry goes, whether it is there or not. */
    method Unregister(correlationId: string)
      requires Valid()
      modifies this
      ensures Valid() && pending == old(pending) - {correlationId}
      ensures Contents() == old(Contents()) - {correlationId}
    {
      pending := pending - {correlationId};
    }

    method DeliverReply(correlationId: string, reply: EnrichReply)
      requires Valid()
      modifies Futures()
      ensures Valid() && pending == old(pending)
      ensures Contents() == DeliverTo(old(Contents()), correlationId, reply)
    {
      if correlationId in pending {
        var future := pending[correlationId];
        if future.state == Waiting {
          future.state := Completed(reply);
        }
      }
    }

    /** The reply to one request goes out under the request's own id. */
    method HandleRequest(request: EnrichRequest, correlationId: string, stored: bool)
      modifies producer
      ensures producer.topic ==
              old(producer.topic) + if stored then [ReplyMessage(ComputeEnrichment(request), correlationId)] else []
    {
      var reply := ComputeEnrichment(request);
      producer.SendAndWait(ReplyMessage(reply, correlationId), stored);
    }

    /** The background loop that answers a batch of requests; a failure is logged and skipped. */
    method ConsumeRequests(messages: seq<Message>, stored: seq<bool>)
      requires |messages| == |stored|
      modifies producer
      ensures producer.topic == old(producer.topic) + HandleAll(messages, stored)
    {
      for i := 0 to |messages|
        invariant producer.topic == old(producer.topic) + HandleAll(messages[..i], stored[..i])
      {
        HandleAllNext(messages, stored, i);
        var request := DecodeRequest(messages[i].value);
        if request.Some? {
          var correlationId := Header(messages[i].headers, CORRELATION_ID);
          if correlationId.Found? {
            HandleRequest(request.value, correlationId.text, stored[i]);
          }
        }
      }
      assert messages[..|messages|] == messages && stored[..|stored|] == stored;
    }

    /** The background loop that routes a batch of reply messages. */
    method ConsumeReplies(messages: seq<Message>)
      requires Valid()
      modifies Futures()
      ensures Valid() && pending == old(pending)
      ensures Contents() == DeliverAll(old(Contents()), messages)
    {
      for i := 0 to |messages|
        invariant Valid() && pending == old(pending)
        invariant Contents() == DeliverAll(old(Contents()), messages[..i])
      {
        assert messages[..i + 1][..i] == messages[..i];
        var reply := DecodeReply(messages[i].value);
        if reply.Some? {
          var correlationId := Header(messages[i].headers, CORRELATION_ID);
          if correlationId.Found? {
            DeliverReply(correlationId.text, reply.value);
          }
        }
      }
      assert messages[..|messages|] == messages;
    }
  }
}
