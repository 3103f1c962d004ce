/** The in-memory log buffer behind `tail_logs`. */
module RingBuffer {
  import opened Common

  datatype LogEvent = LogEvent(
    timestamp: int, level: string, logger: string, message: string, requestId: Option<string>, traceId: Option<string>)

  /** A record whose message cannot be formatted (`message` is None) makes the conversion raise. */
  datatype LogRecord = LogRecord(
    created: int, levelname: string, name: string, message: Option<string>,
    requestId: Option<string>, traceId: Option<string>)

  function ToEvent(r: LogRecord): Option<LogEvent> {
    match r.message
    case Some(message) => Some(LogEvent(r.created, r.levelname, r.name, message, r.requestId, r.traceId))
    case None => None
  }

  /** The events of the records that could be converted, in emission order. */
  function Converted(records: seq<LogRecord>): seq<LogEvent> {
    if records == [] then []
    else
      Converted(records[..|records| - 1]) +
      match ToEvent(records[|records| - 1]) case Some(e) => [e] case None => []
  }

  /** `str.upper` on ASCII. */
  function Upper(s: string): string {
    seq(|s|, i requires 0 <= i < |s| => if 'a' <= s[i] <= 'z' then s[i] - 'a' + 'A' else s[i])
  }

  function WantedLevel(level: Option<string>): Option<string> {
    if level.Some? && level.value != "" then Some(Upper(level.value)) else None
  }

  /** An absent or empty level filters nothing; a request id filters by equality, even when empty. */
  function Matcher(level: Option<string>, requestId: Option<string>): LogEvent -> bool {
    (e: LogEvent) =>
      && (WantedLevel(level).Some? ==> e.level == WantedLevel(level).value)
      && (requestId.Some? ==> e.requestId == requestId)
  }

  /** A record converts unless its message cannot be formatted, field by field. */
  lemma EventExactly(r: LogRecord)
    ensures ToEvent(r).None? <==> r.message.None?
    ensures ToEvent(r).Some? ==>
              var e := ToEvent(r).value;
              && e.timestamp == r.created && e.level == r.levelname && e.logger == r.name
              && Some(e.message) == r.message && e.requestId == r.requestId && e.traceId == r.traceId
  {
  }

  /** Equal up to the case of ASCII letters. */
  ghost predicate SameLetters(a: string, b: string) {
    && |a| == |b|
    && forall i :: 0 <= i < |a| ==>
         || a[i] == b[i]
         || ('a' <= a[i] <= 'z' && b[i] as int == a[i] as int - 32)
         || ('a' <= b[i] <= 'z' && a[i] as int == b[i] as int - 32)
  }

  /** An event passes when its level is the wanted one in capitals, and its request id the wanted one. */
  lemma MatchesExactly(level: string, requestId: string, e: LogEvent)
    ensures Matcher(None, None)(e) && Matcher(Some(""), None)(e)
    ensures Matcher(None, Some(requestId))(e) <==> e.requestId == Some(requestId)
    ensures level != "" && e.level == Upper(e.level) ==>
              (Matcher(Some(level), None)(e) <==> SameLetters(level, e.level))
    ensures level != "" ==> (Matcher(Some(level), None)(e) <==> e.level == Upper(level))
    ensures Matcher(Some(level), Some(requestId))(e) <==>
              Matcher(Some(level), None)(e) && Matcher(None, Some(requestId))(e)
  {
    UpperExactly(level, e.level);
  }

  lemma UpperExactly(a: string, b: string)
    ensures b == Upper(b) ==> (b == Upper(a) <==> SameLetters(a, b))
    ensures SameLetters(a, Upper(a)) && Upper(Upper(a)) == Upper(a)
  {
    if b == Upper(b) && SameLetters(a, b) {
      forall i | 0 <= i < |a| ensures b[i] == Upper(a)[i] {
        assert b[i] == Upper(b)[i];
      }
    }
  }

  function Reverse<T>(s: seq<T>): (r: seq<T>)
    ensures |r| == |s|
  {
    if s == [] then [] else [s[|s| - 1]] + Reverse(s[..|s| - 1])
  }

  lemma ReverseAppend<T>(s: seq<T>, x: T)
    ensures Reverse(s + [x]) == [x] + Reverse(s)
  {
    assert (s + [x])[..|s|] == s;
  }

  /** The last `n` of all matches are the matches of any suffix that holds `n` of them. */
  lemma SuffixHoldsLast(p: LogEvent -> bool, s: seq<LogEvent>, i: nat, n: nat)
    requires i <= |s| && |Filter(p, s[i..])| == n
    ensures LastN(Filter(p, s), n) == Filter(p, s[i..])
  {
    assert s == s[..i] + s[i..];
    FilterConcat(p, s[..i], s[i..]);
    var a, b := Filter(p, s[..i]), Filter(p, s[i..]);
    if |a| == 0 {
      assert a + b == b;
    } else {
      assert (a + b)[|a + b| - n..] == b;
    }
  }

  /** One step of the backward walk. */
  lemma WalkStep(p: LogEvent -> bool, s: seq<LogEvent>, i: nat, result: seq<LogEvent>)
    requires i < |s| && Reverse(result) == Filter(p, s[i + 1..])
    ensures Reverse(if p(s[i]) then result + [s[i]] else result) == Filter(p, s[i..])
  {
    assert s[i..] == [s[i]] + s[i + 1..];
    ReverseAppend(result, s[i]);
  }

  /** What a full deque does with one more entry, and what a failed conversion does with none. */
  function Appended(capacity: nat, buffer: seq<LogEvent>, record: LogRecord): seq<LogEvent>
    requires capacity > 0
  {
    match ToEvent(record)
    case Some(e) => (if |buffer| == capacity then buffer[1..] else buffer) + [e]
    case None => buffer
  }

  function EmitAll(capacity: nat, records: seq<LogRecord>): seq<LogEvent>
    requires capacity > 0
  {
    if records == [] then []
    else Appended(capacity, EmitAll(capacity, records[..|records| - 1]), records[|records| - 1])
  }

  /** Evicting as one goes keeps the last `capacity` converted events of the whole history. */
  lemma {:induction false} EmitAllKeepsTheLast(capacity: nat, records: seq<LogRecord>)
    requires capacity > 0
    ensures EmitAll(capacity, records) == LastN(Converted(records), capacity)
  {
    if records != [] {
      var init, last := records[..|records| - 1], records[|records| - 1];
      EmitAllKeepsTheLast(capacity, init);
      match ToEvent(last)
      case Some(e) =>
        LastNAppend(Converted(init), e, capacity);
        AppendedIsLast(capacity, LastN(Converted(init), capacity), last, e);
      case None => assert Converted(init) + [] == Converted(init);
    }
  }

  lemma AppendedIsLast(capacity: nat, buffer: seq<LogEvent>, record: LogRecord, e: LogEvent)
    requires 0 < capacity && |buffer| <= capacity && ToEvent(record) == Some(e)
    ensures Appended(capacity, buffer, record) == LastN(buffer + [e], capacity)
  {
    if |buffer| == capacity {
      assert (buffer + [e])[1..] == buffer[1..] + [e];
    }
  }

  class RingBufferHandler {
    const capacity: nat
    var buffer: seq<LogEvent>
    ghost var emitted: seq<LogRecord>

    ghost predicate Valid()
      reads this
    {
      capacity > 0 && buffer == EmitAll(capacity, emitted)
    }

    constructor (capacity: nat)
      requires capacity > 0
      ensures Valid() && this.capacity == capacity && emitted == []
    {
      this.capacity := capacity;
      buffer, emitted := [], [];
    }

    method Emit(record: LogRecord)
      requires Valid()
      modifies this
      ensures Valid() && emitted == old(emitted) + [record]
      ensures buffer == Appended(capacity, old(buffer), record)
    {
      assert (emitted + [record])[..|emitted|] == emitted;
      var event := ToEvent(record);
      if event.Some? {
        if |buffer| == capacity {
          buffer := buffer[1..];
        }
        buffer := buffer + [event.value];
      }
      emitted := emitted + [record];
    }

    /** The walk from the newest entry back, cut short at `n` matches and then turned round. */
    method Snapshot(n: int, level: Option<string>, requestId: Option<string>) returns (events: seq<LogEvent>)
      requires Valid()
      ensures events == if n <= 0 then [] else LastN(Filter(Matcher(level, requestId), buffer), n)
    {
      if n <= 0 {
        return [];
      }
      ghost var p := Matcher(level, requestId);
      var wanted := WantedLevel(level);
      var result: seq<LogEvent> := [];
      for i := |buffer| downto 0
        invariant |result| < n
        invariant Reverse(result) == Filter(p, buffer[i..])
      {
        var event := buffer[i];
        WalkStep(p, buffer, i, result);
        if (wanted.None? || event.level == wanted.value) && (requestId.None? || event.requestId == requestId) {
          result := result + [event];
          if |result| >= n {
            SuffixHoldsLast(p, buffer, i, n);
            return Reverse(result);
          }
        }
      }
      assert buffer[0..] == buffer;
      return Reverse(result);
    }

    /** The tool clamps `n` to what the buffer can hold. */
    method TailLogs(n: int, level: Option<string>, requestId: Option<string>) returns (events: seq<LogEvent>)
      requires Valid()
      ensures events == LastN(Filter(Matcher(level, requestId), LastN(Converted(emitted), capacity)),
                              Max(1, Min(n, capacity)))
    {
      EmitAllKeepsTheLast(capacity, emitted);
      events := Snapshot(Max(1, Min(n, capacity)), level, requestId);
    }
  }

  /** Every event of a tail was emitted and matches, and no later match is missing from it. */
  lemma TailIsRecent(s: seq<LogEvent>, p: LogEvent -> bool, n: nat, i: nat)
    requires i < |s| && p(s[i]) && |Filter(p, s[i + 1..])| < n
    ensures s[i] in LastN(Filter(p, s), n)
  {
    assert s == s[..i] + s[i..] && s[i..] == [s[i]] + s[i + 1..];
    FilterConcat(p, s[..i], s[i..]);
    var a, b := Filter(p, s[..i]), Filter(p, s[i..]);
    assert (a + b)[|a|] == s[i];
    if |a + b| > n {
      assert LastN(a + b, n)[|a| - (|a + b| - n)] == s[i];
    }
  }
}
