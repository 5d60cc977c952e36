/** The fake executor: a second implementation of the executor interface, held to
    the same event protocol. */
module PipelineFake {
  import opened PipelineModel
  import opened PipelineExecutor

  /** What step j finds: the context while the fake sleeps before it, and when it
      is about to start. */
  datatype FakeEnv = FakeEnv(delayErr: CtxError, ctxErr: CtxError)

  function Okay(st: PipelineStep, output: string): StepEvent { StepEvent(st.name, Succeeded, output, 0) }

  function Okays(steps: seq<PipelineStep>, output: string): (r: seq<StepEvent>)
    ensures |r| == |steps|
  {
    seq(|steps|, j requires 0 <= j < |steps| => Okay(steps[j], output))
  }

  /** The emitter was called for a prefix of the events of a run of that shape, and
      for all of them if it never failed. */
  ghost predicate Follows(steps: seq<PipelineStep>, p: Play, calls: seq<StepEvent>, failed: bool) {
    ValidPlay(steps, p) && calls <= Events(steps, p) && (!failed ==> calls == Events(steps, p))
  }

  class Fake {
    const failStep: string
    const delays: bool
    const blocks: bool
    var events: seq<StepEvent>
    var canceled: bool

    constructor (failStep: string, delays: bool, blocks: bool)
      ensures this.failStep == failStep && this.delays == delays && this.blocks == blocks && events == [] && !canceled
    {
      this.failStep, this.delays, this.blocks := failStep, delays, blocks;
      events, canceled := [], false;
    }

    /** Step j lets the run go on; n is the number of its first call. */
    ghost predicate PassesAt(st: PipelineStep, e: FakeEnv, accept: nat -> bool, n: nat) {
      && (delays ==> e.delayErr == NoError) && e.ctxErr == NoError
      && (failStep == "" || st.name != failStep)
      && accept(n) && accept(n + 1)
    }

    /** The step that was told to fail. */
    ghost predicate SimulatedFailure(steps: seq<PipelineStep>, k: nat, end: Ending) {
      && k < |steps| && failStep != "" && steps[k].name == failStep
      && end == FailedWith(StepEvent(failStep, Failed, "simulated failure", 1))
    }

    /** Execute; blockErr is the context while it waits on Block. */
    method Execute(steps: seq<PipelineStep>, env: seq<FakeEnv>, blockErr: CtxError, sink: EventSink)
      returns (err: ExecError, ghost p: Play, ghost refused: bool)
      requires |env| == |steps| && sink.Valid() && ReadyAll(sink.base, sink.run, steps)
      modifies this, sink, sink.store
      ensures sink.Valid()
      ensures |sink.calls| >= |old(sink.calls)| && sink.calls[..|old(sink.calls)|] == old(sink.calls)
      ensures Follows(steps, p, sink.calls[|old(sink.calls)|..], refused)
      ensures refused ==> err == Fault && Refused(sink.accept, |old(sink.calls)|, |sink.calls|)
      ensures err == NoError ==> p.ending == Completed && !refused
      ensures err == NoError ==> events == old(events) + SuccessEvents(steps, Okays(steps, ""), |steps|)
      ensures err == NoError <==> (steps == [] ||
          ((blocks ==> blockErr == NoError) &&
           forall j :: 0 <= j < |steps| ==> PassesAt(steps[j], env[j], sink.accept, |old(sink.calls)| + 2 * j)))
      ensures canceled <==> old(canceled) || (steps != [] && blocks && blockErr != NoError) || p.ending == CancelledHere(false)
      ensures p.k <= |steps| && |p.results| == p.k
      ensures forall j :: 0 <= j < p.k ==> p.results[j] == StepEvent(steps[j].name, Succeeded, "ok", 0)
      ensures p.ending.FailedWith? ==> SimulatedFailure(steps, p.k, p.ending)
    {
      hide Follows, SuccessEvents, EndingEvents, Okays, PassesAt, EventSink.Valid, ReadyAll, SimulatedFailure;
      ghost var before, log := sink.calls, events;
      Nothing(steps);
      if |steps| == 0 {
        p := FollowsUpTo(steps, 0, Completed, before, [], false, sink.calls);
        return NoError, p, false;
      }
      if blocks && blockErr != NoError {
        canceled := true;
        p := FollowsUpTo(steps, 0, Silent(false), before, [], false, sink.calls);
        return blockErr, p, false;
      }
      var i := 0;
      while i < |steps|
        invariant 0 <= i <= |steps|
        invariant sink.calls == before + SuccessEvents(steps, Okays(steps, "ok"), i)
        invariant events == log + SuccessEvents(steps, Okays(steps, ""), i)
        invariant forall j :: 0 <= j < i ==> PassesAt(steps[j], env[j], sink.accept, |before| + 2 * j)
        invariant sink.Valid() && canceled == old(canceled)
      {
        ghost var k, end, tail, late;
        err, k, end, tail, late := Turn(steps, env, i, sink);
        OneMore(steps, i);
        if err != NoError {
          if k == i {
            assert sink.calls == before + SuccessEvents(steps, Okays(steps, "ok"), i) + tail;
          } else {
            assert sink.calls == before + SuccessEvents(steps, Okays(steps, "ok"), i + 1) + tail;
          }
          p := FollowsUpTo(steps, k, end, before, tail, late, sink.calls);
          return err, p, late;
        }
        i := i + 1;
      }
      p := FollowsUpTo(steps, i, Completed, before, [], false, sink.calls);
      return NoError, p, false;
    }

    /** One turn of the loop. It goes on to the next step exactly if err is NoError;
        otherwise the calls so far are those of k successful steps and tail, the
        part of the ending that was emitted. */
    method Turn(steps: seq<PipelineStep>, env: seq<FakeEnv>, i: nat, sink: EventSink)
      returns (err: ExecError, ghost k: nat, ghost end: Ending, ghost tail: seq<StepEvent>, ghost refused: bool)
      requires i < |steps| == |env| && sink.Valid() && ReadyAll(sink.base, sink.run, steps)
      modifies this, sink, sink.store
      ensures sink.Valid()
      ensures err == NoError <==> PassesAt(steps[i], env[i], sink.accept, |old(sink.calls)|)
      ensures canceled <==> old(canceled) || (err != NoError && end == CancelledHere(false))
      ensures err == NoError ==> Passed(steps[i], old(sink.calls), sink.calls, old(events), events)
      ensures err != NoError ==> Stopped(steps, i, k, end, tail, refused, old(sink.calls), sink.calls)
      ensures refused ==> err == Fault && Refused(sink.accept, |old(sink.calls)|, |sink.calls|)
      ensures err != NoError && end.FailedWith? ==> SimulatedFailure(steps, k, end)
    {
      EndingsAt(steps, i, FailedEvent(steps[i], "simulated failure", 1));
      assert Ready(sink.base, sink.run, steps[i].name);
      hide EndingEvents, EventSink.Valid, ReadyAll, Passed;
      if delays && env[i].delayErr != NoError {
        return env[i].delayErr, i, Silent(false), [], false;
      }
      if env[i].ctxErr != NoError {
        canceled := true;
        var _ := sink.Emit(CancelledEvent(steps[i]));
        return env[i].ctxErr, i, CancelledHere(false), [CancelledEvent(steps[i])], false;
      }
      err, k, end, tail, refused := RunStep(steps, i, sink);
    }

    /** A step that has come to start. */
    method RunStep(steps: seq<PipelineStep>, i: nat, sink: EventSink)
      returns (err: ExecError, ghost k: nat, ghost end: Ending, ghost tail: seq<StepEvent>, ghost refused: bool)
      requires i < |steps| && sink.Valid() && ReadyAll(sink.base, sink.run, steps)
      modifies this`events, sink, sink.store
      ensures sink.Valid() && end != CancelledHere(false)
      ensures err == NoError <==>
        (failStep == "" || steps[i].name != failStep) && sink.accept(|old(sink.calls)|) && sink.accept(|old(sink.calls)| + 1)
      ensures err == NoError ==> Passed(steps[i], old(sink.calls), sink.calls, old(events), events)
      ensures err != NoError ==> Stopped(steps, i, k, end, tail, refused, old(sink.calls), sink.calls)
      ensures refused ==> err == Fault && Refused(sink.accept, |old(sink.calls)|, |sink.calls|)
      ensures err != NoError && end.FailedWith? ==> SimulatedFailure(steps, k, end)
    {
      StepEvents(steps, i, FailedEvent(steps[i], "simulated failure", 1));
      hide *;
      ghost var before := sink.calls;
      k, end, tail, refused := i, Silent(false), [], false;
      var ok := sink.Emit(RunningEvent(steps[i]));
      RefusedNow(sink.accept, |before|, |before|);
      if !ok {
        end, tail, refused := Silent(true), [RunningEvent(steps[i])], true;
        StopsAt(steps, i, end, tail, refused, before, sink.calls);
        return Fault, k, end, tail, refused;
      }
      if failStep != "" && steps[i].name == failStep {
        end, tail, refused := Fail(steps, i, sink, before);
        return Fault, k, end, tail, refused;
      }
      err, k, end, tail, refused := Succeed(steps, i, sink, before);
    }

    method Fail(steps: seq<PipelineStep>, i: nat, sink: EventSink, ghost before: seq<StepEvent>)
      returns (ghost end: Ending, ghost tail: seq<StepEvent>, ghost refused: bool)
      requires i < |steps| && sink.Valid() && ReadyAll(sink.base, sink.run, steps)
      requires sink.calls == before + [RunningEvent(steps[i])] && failStep != "" && steps[i].name == failStep
      modifies this`events, sink, sink.store
      ensures sink.Valid() && end.FailedWith? && SimulatedFailure(steps, i, end)
      ensures Stopped(steps, i, i, end, tail, refused, before, sink.calls)
      ensures refused ==> Refused(sink.accept, |before|, |sink.calls|)
    {
      var failure := FailedEvent(steps[i], "simulated failure", 1);
      StepEvents(steps, i, failure);
      assert SimulatedFailure(steps, i, FailedWith(failure));
      hide *;
      ghost var skips;
      skips, refused := FailAt(steps, i, failure, sink);
      if refused { RefusedLater(sink.accept, |before|, |sink.calls|); }
      end, tail := FailedWith(failure), [RunningEvent(steps[i])] + skips;
      FailStops(steps, i, failure, skips, refused, before, sink.calls);
    }

    method Succeed(steps: seq<PipelineStep>, i: nat, sink: EventSink, ghost before: seq<StepEvent>)
      returns (err: ExecError, ghost k: nat, ghost end: Ending, ghost tail: seq<StepEvent>, ghost refused: bool)
      requires i < |steps| && sink.Valid() && Ready(sink.base, sink.run, steps[i].name)
      requires sink.calls == before + [RunningEvent(steps[i])]
      modifies this`events, sink, sink.store
      ensures sink.Valid() && end != CancelledHere(false) && !end.FailedWith?
      ensures err == NoError <==> sink.accept(|before| + 1)
      ensures err == NoError ==> Passed(steps[i], before, sink.calls, old(events), events)
      ensures err != NoError ==> Stopped(steps, i, k, end, tail, refused, before, sink.calls)
      ensures refused ==> err == Fault && Refused(sink.accept, |before|, |sink.calls|)
    {
      assert Okay(steps[i], "ok").step == steps[i].name;
      hide *;
      k, end, tail, refused := i, Silent(false), [], false;
      var ok := sink.Emit(Okay(steps[i], "ok"));
      assert sink.calls == before + [RunningEvent(steps[i]), Okay(steps[i], "ok")];
      PassedIs(steps[i], before, sink.calls, events, events + [RunningEvent(steps[i]), Okay(steps[i], "")]);
      RefusedNow(sink.accept, |before|, |before| + 1);
      if !ok {
        k, end, tail, refused := i + 1, if i + 1 == |steps| then Completed else Silent(false), [], true;
        StopsAfter(steps, i, before, sink.calls);
        return Fault, k, end, tail, refused;
      }
      events := events + [RunningEvent(steps[i]), Okay(steps[i], "")];
      return NoError, k, end, tail, refused;
    }

    /** The failing step: its failure and the skips after it, until the emitter
        refuses one. */
    method FailAt(steps: seq<PipelineStep>, i: nat, failure: StepEvent, sink: EventSink)
      returns (ghost tail: seq<StepEvent>, ghost refused: bool)
      requires i < |steps| && failure.step == steps[i].name && sink.Valid() && ReadyAll(sink.base, sink.run, steps)
      modifies this`events, sink, sink.store
      ensures sink.Valid()
      ensures sink.calls == old(sink.calls) + tail && tail <= [failure] + SkipEvents(steps[i + 1..])
      ensures !refused ==> tail == [failure] + SkipEvents(steps[i + 1..])
      ensures refused ==> Refused(sink.accept, |old(sink.calls)|, |sink.calls|)
    {
      hide EventSink.Valid;
      assert Ready(sink.base, sink.run, steps[i].name);
      ghost var before := sink.calls;
      ghost var skips := SkipEvents(steps[i + 1..]);
      tail, refused := [failure], true;
      var ok := sink.Emit(failure);
      if !ok {
        return;
      }
      events := events + [RunningEvent(steps[i]), FailedEvent(steps[i], "", 0)];
      var j := i + 1;
      while j < |steps|
        invariant i + 1 <= j <= |steps| && sink.Valid()
        invariant tail == [failure] + skips[..j - i - 1] && sink.calls == before + tail
      {
        assert Ready(sink.base, sink.run, steps[j].name);
        ok := sink.Emit(SkippedEvent(steps[j]));
        assert skips[..j - i] == skips[..j - i - 1] + [SkippedEvent(steps[j])];
        tail := tail + [SkippedEvent(steps[j])];
        if !ok {
          return;
        }
        events := events + [SkippedEvent(steps[j])];
        j := j + 1;
      }
      refused := false;
    }
  }

  /** One of the calls from number lo on, below hi, was refused. */
  ghost predicate Refused(accept: nat -> bool, lo: nat, hi: nat) {
    exists n: nat :: lo <= n < hi && !accept(n)
  }

  lemma RefusedNow(accept: nat -> bool, lo: nat, n: nat)
    requires lo <= n
    ensures !accept(n) ==> Refused(accept, lo, n + 1)
  {
  }

  lemma RefusedLater(accept: nat -> bool, lo: nat, hi: nat)
    requires Refused(accept, lo + 1, hi)
    ensures Refused(accept, lo, hi)
  {
  }

  lemma StepEvents(steps: seq<PipelineStep>, i: nat, failure: StepEvent)
    requires i < |steps| && failure == FailedEvent(steps[i], "simulated failure", 1)
    ensures failure.step == RunningEvent(steps[i]).step == steps[i].name && failure.status == Failed
    ensures EndingEvents(steps, i, Silent(true)) == [RunningEvent(steps[i])]
    ensures EndingEvents(steps, i, FailedWith(failure)) == [RunningEvent(steps[i])] + ([failure] + SkipEvents(steps[i + 1..]))
    ensures forall db, run :: ReadyAll(db, run, steps) ==> Ready(db, run, steps[i].name)
  {
  }

  ghost predicate Passed(st: PipelineStep, calls: seq<StepEvent>, calls1: seq<StepEvent>,
                         events: seq<StepEvent>, events1: seq<StepEvent>) {
    && calls1 == calls + [RunningEvent(st), Okay(st, "ok")]
    && events1 == events + [RunningEvent(st), Okay(st, "")]
  }

  ghost predicate Stopped(steps: seq<PipelineStep>, i: nat, k: nat, end: Ending, tail: seq<StepEvent>, refused: bool,
                          calls: seq<StepEvent>, calls1: seq<StepEvent>)
    requires i < |steps|
  {
    && i <= k <= i + 1 && FitsEnding(steps, k, end) && tail <= EndingEvents(steps, k, end)
    && calls1 == calls + (if k == i then [] else [RunningEvent(steps[i]), Okay(steps[i], "ok")]) + tail
    && (!refused ==> tail == EndingEvents(steps, k, end))
  }

  lemma PassedIs(st: PipelineStep, calls: seq<StepEvent>, calls1: seq<StepEvent>, events: seq<StepEvent>, events1: seq<StepEvent>)
    requires calls1 == calls + [RunningEvent(st), Okay(st, "ok")] && events1 == events + [RunningEvent(st), Okay(st, "")]
    ensures Passed(st, calls, calls1, events, events1)
  {
  }

  lemma StopsAt(steps: seq<PipelineStep>, i: nat, end: Ending, tail: seq<StepEvent>, refused: bool,
                calls: seq<StepEvent>, calls1: seq<StepEvent>)
    requires i < |steps| && end != Completed
    requires end.FailedWith? ==> end.event.step == steps[i].name && end.event.status == Failed
    requires tail <= EndingEvents(steps, i, end)
    requires calls1 == calls + tail && (!refused ==> tail == EndingEvents(steps, i, end))
    ensures Stopped(steps, i, i, end, tail, refused, calls, calls1)
  {
    assert calls + [] + tail == calls + tail;
  }

  lemma FailStops(steps: seq<PipelineStep>, i: nat, failure: StepEvent, skips: seq<StepEvent>, refused: bool,
                  calls: seq<StepEvent>, calls1: seq<StepEvent>)
    requires i < |steps| && failure.step == steps[i].name && failure.status == Failed
    requires skips <= [failure] + SkipEvents(steps[i + 1..])
    requires !refused ==> skips == [failure] + SkipEvents(steps[i + 1..])
    requires calls1 == calls + [RunningEvent(steps[i])] + skips
    ensures Stopped(steps, i, i, FailedWith(failure), [RunningEvent(steps[i])] + skips, refused, calls, calls1)
  {
    var tail := [RunningEvent(steps[i])] + skips;
    assert calls1 == calls + tail;
    assert EndingEvents(steps, i, FailedWith(failure)) == [RunningEvent(steps[i])] + ([failure] + SkipEvents(steps[i + 1..]));
    hide EndingEvents, SkipEvents, RunningEvent;
    StopsAt(steps, i, FailedWith(failure), tail, refused, calls, calls1);
  }

  lemma StopsAfter(steps: seq<PipelineStep>, i: nat, calls: seq<StepEvent>, calls1: seq<StepEvent>)
    requires i < |steps| && calls1 == calls + [RunningEvent(steps[i]), Okay(steps[i], "ok")]
    ensures Stopped(steps, i, i + 1, if i + 1 == |steps| then Completed else Silent(false), [], true, calls, calls1)
  {
    assert calls1 + [] == calls1;
  }

  predicate FitsEnding(steps: seq<PipelineStep>, k: nat, end: Ending) {
    && k <= |steps| && (end == Completed <==> k == |steps|)
    && (end.FailedWith? ==> end.event.step == steps[k].name && end.event.status == Failed)
  }

  lemma Nothing(steps: seq<PipelineStep>)
    ensures SuccessEvents(steps, Okays(steps, "ok"), 0) == [] && SuccessEvents(steps, Okays(steps, ""), 0) == []
    ensures EndingEvents(steps, |steps|, Completed) == []
    ensures |steps| > 0 ==> EndingEvents(steps, 0, Silent(false)) == []
  {
  }

  lemma EndingsAt(steps: seq<PipelineStep>, i: nat, failure: StepEvent)
    requires i < |steps|
    ensures EndingEvents(steps, i, Silent(false)) == []
    ensures EndingEvents(steps, i, Silent(true)) == [RunningEvent(steps[i])]
    ensures EndingEvents(steps, i, CancelledHere(false)) == [CancelledEvent(steps[i])]
    ensures EndingEvents(steps, i, FailedWith(failure)) == [RunningEvent(steps[i])] + ([failure] + SkipEvents(steps[i + 1..]))
    ensures if i + 1 == |steps| then EndingEvents(steps, i + 1, Completed) == [] else EndingEvents(steps, i + 1, Silent(false)) == []
  {
  }

  lemma OneMore(steps: seq<PipelineStep>, i: nat)
    requires i < |steps|
    ensures SuccessEvents(steps, Okays(steps, "ok"), i + 1) ==
            SuccessEvents(steps, Okays(steps, "ok"), i) + [RunningEvent(steps[i]), Okay(steps[i], "ok")]
    ensures SuccessEvents(steps, Okays(steps, ""), i + 1) ==
            SuccessEvents(steps, Okays(steps, ""), i) + [RunningEvent(steps[i]), Okay(steps[i], "")]
  {
  }

  lemma OkayPlay(steps: seq<PipelineStep>, k: nat, end: Ending)
    requires FitsEnding(steps, k, end)
    ensures var p := Play(k, Okays(steps, "ok")[..k], end);
      ValidPlay(steps, p) && Events(steps, p) == SuccessEvents(steps, Okays(steps, "ok"), k) + EndingEvents(steps, k, end)
  {
    hide EndingEvents;
    SuccessEventsPrefix(steps, Okays(steps, "ok")[..k], Okays(steps, "ok"), k);
  }

  /** The calls of k successful steps and then part of an ending follow the play of
      that shape. */
  lemma FollowsUpTo(steps: seq<PipelineStep>, k: nat, end: Ending,
                    before: seq<StepEvent>, tail: seq<StepEvent>, failed: bool,
                    calls: seq<StepEvent>)
    returns (p: Play)
    requires FitsEnding(steps, k, end) && tail <= EndingEvents(steps, k, end)
    requires !failed ==> tail == EndingEvents(steps, k, end)
    requires calls == before + SuccessEvents(steps, Okays(steps, "ok"), k) + tail
    ensures |p.results| == p.k == k && forall j :: 0 <= j < k ==> p.results[j] == StepEvent(steps[j].name, Succeeded, "ok", 0)
    ensures p.ending == end && calls[..|before|] == before && Follows(steps, p, calls[|before|..], failed)
  {
    OkayPlay(steps, k, end);
    assert forall j :: 0 <= j < k ==> Okays(steps, "ok")[..k][j] == StepEvent(steps[j].name, Succeeded, "ok", 0);
    p := Play(k, Okays(steps, "ok")[..k], end);
    hide EndingEvents, SuccessEvents, ValidPlay, Events, Okays, Okay, FitsEnding;
    PartOf(before, SuccessEvents(steps, Okays(steps, "ok"), k), tail, EndingEvents(steps, k, end));
  }

  lemma PartOf(before: seq<StepEvent>, done: seq<StepEvent>, tail: seq<StepEvent>, all: seq<StepEvent>)
    requires tail <= all
    ensures var calls := before + done + tail;
      calls[..|before|] == before && calls[|before|..] == done + tail && done + tail <= done + all
  {
  }

  /** So the rules of the protocol hold for the fake too, wherever its emitter
      stopped it: a step runs only after every earlier step has succeeded. */
  lemma FakeRunsInOrder(steps: seq<PipelineStep>, p: Play, calls: seq<StepEvent>, failed: bool, i: nat, u: nat, j: nat)
    requires Follows(steps, p, calls, failed) && DistinctNames(steps) && j < u < |steps| && i < |calls|
    requires calls[i].status == Running && calls[i].step == steps[u].name
    ensures exists q :: 0 <= q < i && calls[q].step == steps[j].name && calls[q].status == Succeeded
  {
    assert calls[i] == Events(steps, p)[i];
    RunsOnlyAfterSuccess(steps, p, i, u, j);
    var q :| 0 <= q < i && Events(steps, p)[q].step == steps[j].name && Events(steps, p)[q].status == Succeeded;
    assert calls[q] == Events(steps, p)[q];
  }
}
