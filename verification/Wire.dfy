/** Payloads, messages and headers on the two enrichment topics. */
module Wire {
  import opened Common

  datatype EnrichRequest = EnrichRequest(id: int, name: string, email: string)
  datatype EnrichReply = EnrichReply(id: int, name: string, email: string, displayName: string)

  /** A message body, up to the JSON codec: what it was encoded from, or nothing a model accepts. */
  datatype Payload = RequestJson(request: EnrichRequest) | ReplyJson(reply: EnrichReply) | Malformed

  /** Header bytes, up to UTF-8. */
  datatype HeaderValue = Utf8(text: string) | Undecodable

  datatype Message = Message(headers: seq<(string, HeaderValue)>, value: Payload)

  /** What scanning for a header yields: no such key, its text, or the decoding exception. */
  datatype HeaderScan = Absent | Found(text: string) | Raises

  const CORRELATION_ID := "correlation-id"
  const REPLY_TOPIC := "reply-topic"
  /** The topic that every request names as the one to reply on. */
  const CUSTOMER_REPLY_TOPIC := "customer.enrich.reply"

  function ComputeEnrichment(request: EnrichRequest): EnrichReply {
    EnrichReply(request.id, request.name, request.email, request.name + " <" + request.email + ">")
  }

  function ScanHeader(headers: seq<(string, HeaderValue)>, key: string): HeaderScan {
    if headers == [] then Absent
    else if headers[0].0 == key then
      match headers[0].1
      case Utf8(text) => Found(text)
      case Undecodable => Raises
    else ScanHeader(headers[1..], key)
  }

  /** The scan looks at the first header with the key and at no other. */
  lemma {:induction false} ScanHeaderIsFirstMatch(headers: seq<(string, HeaderValue)>, key: string, i: nat)
    requires i < |headers| && headers[i].0 == key
    requires forall j :: 0 <= j < i ==> headers[j].0 != key
    ensures ScanHeader(headers, key) == if headers[i].1.Utf8? then Found(headers[i].1.text) else Raises
  {
    if i > 0 {
      ScanHeaderIsFirstMatch(headers[1..], key, i - 1);
    }
  }

  lemma {:induction false} ScanHeaderAbsent(headers: seq<(string, HeaderValue)>, key: string)
    ensures ScanHeader(headers, key) == Absent <==> forall j :: 0 <= j < |headers| ==> headers[j].0 != key
  {
    if headers != [] && headers[0].0 != key {
      ScanHeaderAbsent(headers[1..], key);
      assert forall j :: 1 <= j < |headers| ==> headers[j] == headers[1..][j - 1];
    }
  }

  method Header(headers: seq<(string, HeaderValue)>, key: string) returns (scan: HeaderScan)
    ensures scan == ScanHeader(headers, key)
  {
    for i := 0 to |headers|
      invariant forall j :: 0 <= j < i ==> headers[j].0 != key
    {
      if headers[i].0 == key {
        ScanHeaderIsFirstMatch(headers, key, i);
        match headers[i].1 {
          case Utf8(text) => return Found(text);
          case Undecodable => return Raises;
        }
      }
    }
    ScanHeaderAbsent(headers, key);
    return Absent;
  }

  /** Extra fields are ignored, so a reply body is also accepted as a request body. */
  function DecodeRequest(value: Payload): Option<EnrichRequest> {
    match value
    case RequestJson(request) => Some(request)
    case ReplyJson(reply) => Some(EnrichRequest(reply.id, reply.name, reply.email))
    case Malformed => None
  }

  /** `displayName` is mandatory, so a request body is not a reply body. */
  function DecodeReply(value: Payload): Option<EnrichReply> {
    match value
    case ReplyJson(reply) => Some(reply)
    case RequestJson(_) => None
    case Malformed => None
  }

  function CorrelationOf(m: Message): Option<string> {
    match ScanHeader(m.headers, CORRELATION_ID)
    case Found(text) => Some(text)
    case Absent => None
    case Raises => None
  }

  function RequestMessage(request: EnrichRequest, correlationId: string, replyTopic: string): Message {
    Message([(CORRELATION_ID, Utf8(correlationId)), (REPLY_TOPIC, Utf8(replyTopic))], RequestJson(request))
  }

  function ReplyMessage(reply: EnrichReply, correlationId: string): Message {
    Message([(CORRELATION_ID, Utf8(correlationId))], ReplyJson(reply))
  }

  /** A request-topic message as the handler loop reads it: skipped unless it decodes and is correlated. */
  function ReadRequest(m: Message): Option<(string, EnrichRequest)> {
    match (DecodeRequest(m.value), CorrelationOf(m))
    case (Some(request), Some(correlationId)) => Some((correlationId, request))
    case _ => None
  }

  /** A reply-topic message as the reply loop reads it. */
  function ReadReply(m: Message): Option<(string, EnrichReply)> {
    match (DecodeReply(m.value), CorrelationOf(m))
    case (Some(reply), Some(correlationId)) => Some((correlationId, reply))
    case _ => None
  }

  /** What was sent is what is read, on both topics, whatever the strings are. */
  lemma WireRoundTrip(request: EnrichRequest, reply: EnrichReply, correlationId: string, replyTopic: string)
    ensures ReadRequest(RequestMessage(request, correlationId, replyTopic)) == Some((correlationId, request))
    ensures ReadReply(ReplyMessage(reply, correlationId)) == Some((correlationId, reply))
    ensures ReadReply(RequestMessage(request, correlationId, replyTopic)) == None
  {
    var h := RequestMessage(request, correlationId, replyTopic).headers;
    ScanHeaderIsFirstMatch(h, CORRELATION_ID, 0);
    ScanHeaderIsFirstMatch(ReplyMessage(reply, correlationId).headers, CORRELATION_ID, 0);
  }

  /** A request names the topic to reply on, and a reply put on the request topic reads as a request. */
  lemma WireExtras(request: EnrichRequest, reply: EnrichReply, correlationId: string, replyTopic: string)
    ensures ScanHeader(RequestMessage(request, correlationId, replyTopic).headers, REPLY_TOPIC) == Found(replyTopic)
    ensures ReadRequest(ReplyMessage(reply, correlationId))
            == Some((correlationId, EnrichRequest(reply.id, reply.name, reply.email)))
  {
    assert CORRELATION_ID[0] != REPLY_TOPIC[0];
    ScanHeaderIsFirstMatch(RequestMessage(request, correlationId, replyTopic).headers, REPLY_TOPIC, 1);
    ScanHeaderIsFirstMatch(ReplyMessage(reply, correlationId).headers, CORRELATION_ID, 0);
  }

  /** Which messages are read: those with a body of the topic's kind and a decodable correlation id first. */
  lemma ReadExactly(m: Message, i: nat)
    requires i < |m.headers| && m.headers[i].0 == CORRELATION_ID
    requires forall j :: 0 <= j < i ==> m.headers[j].0 != CORRELATION_ID
    ensures ReadReply(m).Some? <==> m.value.ReplyJson? && m.headers[i].1.Utf8?
    ensures ReadRequest(m).Some? <==> !m.value.Malformed? && m.headers[i].1.Utf8?
    ensures ReadReply(m).Some? ==> ReadReply(m).value == (m.headers[i].1.text, m.value.reply)
    ensures ReadRequest(m).Some? ==> ReadRequest(m).value.0 == m.headers[i].1.text
  {
    ScanHeaderIsFirstMatch(m.headers, CORRELATION_ID, i);
  }

  /** And without one, none is. */
  lemma NoHeaderNoRead(m: Message)
    requires forall j :: 0 <= j < |m.headers| ==> m.headers[j].0 != CORRELATION_ID
    ensures ReadReply(m).None? && ReadRequest(m).None?
  {
    ScanHeaderAbsent(m.headers, CORRELATION_ID);
  }

  /**
   * An enrichment repeats its request, which can be read back from it, and its display name is the
   * name, a space, and the address in angle brackets.
   */
  lemma EnrichmentRepeatsRequest(request: EnrichRequest)
    ensures var reply := ComputeEnrichment(request);
            && EnrichRequest(reply.id, reply.name, reply.email) == request
            && |reply.displayName| == |request.name| + |request.email| + 3
            && reply.displayName[..|request.name|] == request.name
            && reply.displayName[|request.name|..|request.name| + 2] == " <"
            && reply.displayName[|request.name| + 2..|reply.displayName| - 1] == request.email
            && reply.displayName[|reply.displayName| - 1] == '>'
  {
  }
}
