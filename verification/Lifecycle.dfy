/**
 * Start and stop of the Kafka singletons. Every await may raise, which leaves the module's
 * variables as they then are; `Step` says at which await a start or a stop raises, if it does.
 */
module Lifecycle {
  import opened Common

  /** The module's variables, as far as they are set; `tasks` is the length of the task list. */
  datatype State = State(producer: bool, requestConsumer: bool, replyConsumer: bool, service: bool, tasks: nat)

  const Stopped := State(false, false, false, false, 0)
  const Running := State(true, true, true, true, 2)

  /** The awaits of a start, or of a stop, in order; `Completes` when none raises. */
  datatype StartOutcome = ProducerRaises | RequestConsumerRaises | ReplyConsumerRaises | StartCompletes
  datatype StopOutcome = RequestStopRaises | ReplyStopRaises | ProducerStopRaises | StopCompletes

  datatype Step = Start(start: StartOutcome) | Stop(stop: StopOutcome)

  function AfterStart(s: State, outcome: StartOutcome): State {
    if s.producer then s
    else
      match outcome
      case ProducerRaises => s.(producer := true)
      case RequestConsumerRaises => s.(producer := true, service := true, requestConsumer := true)
      case ReplyConsumerRaises =>
        s.(producer := true, service := true, requestConsumer := true, replyConsumer := true)
      case StartCompletes => State(true, true, true, true, s.tasks + 2)
  }

  /** A stop raises only where there is something to stop. */
  function AfterStop(s: State, outcome: StopOutcome): State {
    if s.requestConsumer && outcome.RequestStopRaises? then s.(tasks := 0)
    else if s.replyConsumer && outcome.ReplyStopRaises? then s.(tasks := 0, requestConsumer := false)
    else if s.producer && outcome.ProducerStopRaises?
    then s.(tasks := 0, requestConsumer := false, replyConsumer := false)
    else Stopped
  }

  /** Which variables a start that raises leaves set, when it found none: everything made so far. */
  lemma RaisedStartExactly(outcome: StartOutcome)
    requires outcome != StartCompletes
    ensures var t := AfterStart(Stopped, outcome);
            && t.producer && t.tasks == 0
            && (t.service <==> outcome != ProducerRaises)
            && (t.requestConsumer <==> outcome != ProducerRaises)
            && (t.replyConsumer <==> outcome == ReplyConsumerRaises)
  {
  }

  /** Which a stop that raises leaves set, when it found all: what it had not yet got round to. */
  lemma RaisedStopExactly(outcome: StopOutcome)
    requires outcome != StopCompletes
    ensures var t := AfterStop(Running, outcome);
            && t.producer && t.service && t.tasks == 0
            && (t.requestConsumer <==> outcome == RequestStopRaises)
            && (t.replyConsumer <==> outcome != ProducerStopRaises)
  {
  }

  /** A stop never sets anything, ends the tasks first, and gives up the service only when it comes through. */
  lemma StopOnlyClears(s: State, outcome: StopOutcome)
    ensures var t := AfterStop(s, outcome);
            && t.tasks == 0
            && (t.producer ==> s.producer) && (t.requestConsumer ==> s.requestConsumer)
            && (t.replyConsumer ==> s.replyConsumer)
            && (t.service == s.service || t == Stopped)
            && (t != Stopped ==>
                  t.requestConsumer || t.replyConsumer || t.producer)
  {
  }

  class KafkaClient {
    var producer: bool
    var requestConsumer: bool
    var replyConsumer: bool
    var service: bool
    var tasks: nat

    ghost function Variables(): State
      reads this
    {
      State(producer, requestConsumer, replyConsumer, service, tasks)
    }

    constructor ()
      ensures Variables() == Stopped
    {
      producer, requestConsumer, replyConsumer, service, tasks := false, false, false, false, 0;
    }

    method StartKafka(outcome: StartOutcome)
      modifies this
      ensures Variables() == AfterStart(old(Variables()), outcome)
    {
      if producer { return; }
      producer := true;
      if outcome.ProducerRaises? { return; }
      service := true;
      requestConsumer := true;
      if outcome.RequestConsumerRaises? { return; }
      replyConsumer := true;
      if outcome.ReplyConsumerRaises? { return; }
      tasks := tasks + 1;
      tasks := tasks + 1;
    }

    method StopKafka(outcome: StopOutcome)
      modifies this
      ensures Variables() == AfterStop(old(Variables()), outcome)
    {
      tasks := 0;
      if requestConsumer {
        if outcome.RequestStopRaises? { return; }
        requestConsumer := false;
      }
      if replyConsumer {
        if outcome.ReplyStopRaises? { return; }
        replyConsumer := false;
      }
      if producer {
        if outcome.ProducerStopRaises? { return; }
        producer := false;
      }
      service := false;
    }
  }

  function Run(steps: seq<Step>): State {
    if steps == [] then Stopped
    else
      var s := Run(steps[..|steps| - 1]);
      match steps[|steps| - 1]
      case Start(outcome) => AfterStart(s, outcome)
      case Stop(outcome) => AfterStop(s, outcome)
  }

  /** Consumer tasks come in one pair at most, and the variables are set in the order of a start. */
  lemma {:induction false} NeverTwoPairsOfTasks(steps: seq<Step>)
    ensures var s := Run(steps);
            && (s.tasks == 0 || s == Running)
            && (s.requestConsumer || s.replyConsumer || s.service ==> s.producer)
            && (s.requestConsumer || s.replyConsumer ==> s.service)
  {
    if steps != [] {
      NeverTwoPairsOfTasks(steps[..|steps| - 1]);
    }
  }

  /**
   * A start brings the consumers up if and only if they are up already, or the variables are all
   * clear and none of its own awaits raises.
   */
  lemma StartWorksExactlyFromStopped(steps: seq<Step>, outcome: StartOutcome)
    ensures Run(steps + [Start(outcome)]) == Running <==>
              Run(steps) == Running || (Run(steps) == Stopped && outcome == StartCompletes)
  {
    NeverTwoPairsOfTasks(steps);
    assert (steps + [Start(outcome)])[..|steps|] == steps;
  }

  /** After a start that failed, starts alone never recover: each one changes nothing. */
  lemma {:induction false} FailedStartStays(steps: seq<Step>, outcome: StartOutcome, more: seq<Step>)
    requires Run(steps) == Stopped && outcome != StartCompletes
    requires forall i :: 0 <= i < |more| ==> more[i].Start?
    ensures Run(steps + [Start(outcome)] + more) == AfterStart(Stopped, outcome)
    ensures Run(steps + [Start(outcome)] + more).tasks == 0
  {
    var failed := steps + [Start(outcome)];
    assert failed[..|steps|] == steps;
    if more == [] {
      assert failed + more == failed;
    } else {
      assert (failed + more)[..|failed + more| - 1] == failed + more[..|more| - 1];
      FailedStartStays(steps, outcome, more[..|more| - 1]);
    }
  }

  /** A stop that comes through forgets the past: what follows goes as it would from a fresh process. */
  lemma {:induction false} CompletedStopForgets(before: seq<Step>, outcome: StopOutcome, more: seq<Step>)
    requires outcome == StopCompletes || AfterStop(Run(before), outcome) == Stopped
    ensures Run(before + [Stop(outcome)] + more) == Run(more)
  {
    var stopped := before + [Stop(outcome)];
    if more == [] {
      assert stopped + more == stopped && stopped[..|before|] == before;
    } else {
      assert (stopped + more)[..|stopped + more| - 1] == stopped + more[..|more| - 1];
      CompletedStopForgets(before, outcome, more[..|more| - 1]);
    }
  }

  /** The number of steps after which all was last clear: since then no stop has come through. */
  function LastClear(steps: seq<Step>): (k: nat)
    ensures k <= |steps| && Run(steps[..k]) == Stopped
    ensures forall i :: k < i <= |steps| ==> Run(steps[..i]) != Stopped
  {
    if Run(steps) == Stopped then
      assert steps[..|steps|] == steps;
      |steps|
    else
      var init := steps[..|steps| - 1];
      assert forall i :: 0 <= i < |steps| ==> steps[..i] == init[..i];
      assert steps[..|steps|] == steps;
      LastClear(init)
  }

  ghost predicate StoppedSince(steps: seq<Step>, k: nat) {
    exists i :: k < i < |steps| && steps[i].Stop?
  }

  /** How an instance that is not clear came to be as it is: by a start, and perhaps stops that raised. */
  lemma {:induction false} SinceLastClear(steps: seq<Step>)
    requires LastClear(steps) < |steps|
    ensures var k := LastClear(steps);
            && steps[k].Start?
            && (Run(steps).service <==> steps[k].start != ProducerRaises)
            && (Run(steps).tasks > 0 <==> steps[k].start == StartCompletes && !StoppedSince(steps, k))
  {
    var k, init, last := LastClear(steps), steps[..|steps| - 1], steps[|steps| - 1];
    NeverTwoPairsOfTasks(init);
    assert steps[..|steps|] == steps;
    if Run(init) == Stopped {
      assert steps[..|init|] == init;
      assert !StoppedSince(steps, k);
    } else {
      SinceLastClear(init);
      assert steps[k] == init[k];
      assert StoppedSince(steps, k) <==> StoppedSince(init, k) || last.Stop? by {
        if StoppedSince(init, k) {
          var i :| k < i < |init| && init[i].Stop?;
          assert steps[i].Stop?;
        }
        if i :| k < i < |steps| && steps[i].Stop? && i < |init| {
          assert init[i].Stop?;
        }
      }
    }
  }

  /**
   * The service is handed out with no consumer behind it if and only if, since all was last clear, the
   * start failed past the producer, or it completed and a stop raised after it.
   */
  lemma ServiceWithoutConsumers(steps: seq<Step>)
    ensures var k := LastClear(steps);
            Run(steps).service && Run(steps).tasks == 0 <==>
              && k < |steps| && steps[k].Start?
              && (steps[k].start == RequestConsumerRaises || steps[k].start == ReplyConsumerRaises
                  || (steps[k].start == StartCompletes && StoppedSince(steps, k)))
  {
    if LastClear(steps) < |steps| {
      SinceLastClear(steps);
    } else {
      assert steps[..|steps|] == steps;
    }
  }
}
