/** The local executor, run against an emitter that records step events while the
    repository serves it, and an arbitrary environment (context, shell). */
module PipelineExecutor {
  import opened GoStrings
  import opened Integers
  import opened PipelineModel
  import opened PipelineRows
  import opened PipelineSteps

  type CtxError = e: ExecError | e != Fault witness NoError

  datatype ShellResult = ShellResult(output: string, exitCode: int, err: ExecError)

  /** What step j finds: the state of ctx.Done() when it is about to start
      (NoError when still live), and what the command will do. */
  datatype StepEnv = StepEnv(ctxErr: CtxError, command: ShellResult)

  // ---- the emitter ----

  /** How the repository serves the n-th call of the emitter: wholly, or only up to the
      ensured row, or not at all; and when. */
  datatype Served = Served(accept: nat -> bool, half: nat -> bool, clock: nat -> int)

  /** The store after the emitter's n-th call. */
  ghost function Recorded(db: Db, run: string, n: nat, e: StepEvent, v: Served): Db {
    if v.accept(n) then Record(db, run, e, v.clock(n))
    else if v.half(n) then Do(db, Ensure(run, e.step))
    else db
  }

  ghost function Replay(base: Db, run: string, calls: seq<StepEvent>, v: Served): Db {
    if calls == [] then base else
      var last := |calls| - 1;
      Recorded(Replay(base, run, calls[..last], v), run, last, calls[last], v)
  }

  /** A row for the step can be made: the run exists, and the step's order is primed
      or its pipeline is there. */
  ghost predicate Ready(db: Db, run: string, step: string) {
    run in db.pipelineOf && OrderIn(PrimedFor(db, run, step), db.pipelineOf[run], step).Some?
  }

  ghost predicate ReadyAll(db: Db, run: string, steps: seq<PipelineStep>) {
    forall i :: 0 <= i < |steps| ==> Ready(db, run, steps[i].name)
  }

  /** On a consistent store recordStepEvent itself never fails. */
  lemma RecordSucceeds(db: Db, run: string, e: StepEvent)
    requires Consistent(db) && RunId(run) && Ready(db, run, e.step)
    ensures var (db1, ok) := Ensured(db, run, e.step); ok && HasRow(db1, run, e.step)
  {
    EnsureKeepsConsistent(db, run, e.step);
  }

  lemma RecordedKeeps(db: Db, run: string, n: nat, e: StepEvent, v: Served)
    requires Consistent(db) && RunId(run)
    ensures var t := Recorded(db, run, n, e, v); Consistent(t) && t.pipelineOf == db.pipelineOf && t.orders == db.orders
  {
    var first, second := Ensure(run, e.step), Update(run, e, v.clock(n));
    assert first.run == second.run == run;
    var mid, t := Do(db, first), Recorded(db, run, n, e, v);
    assert t == db || t == mid || t == Do(mid, second);
    hide *;
    KeepsOrders(db, first);
    KeepsOrders(mid, second);
    DoKeepsConsistent(db, first);
    DoKeepsConsistent(mid, second);
  }

  lemma KeepsOrders(db: Db, a: Act)
    requires !a.Prime?
    ensures Do(db, a).orders == db.orders
  {
  }

  lemma {:induction false} ReplayKeeps(base: Db, run: string, calls: seq<StepEvent>, v: Served)
    requires Consistent(base) && RunId(run)
    ensures var t := Replay(base, run, calls, v);
      Consistent(t) && t.pipelineOf == base.pipelineOf && t.orders == base.orders
  {
    if calls != [] {
      hide Consistent, Recorded;
      var last := |calls| - 1;
      ReplayKeeps(base, run, calls[..last], v);
      RecordedKeeps(Replay(base, run, calls[..last], v), run, last, calls[last], v);
    }
  }

  /** The emitter of a run: recordStepEvent bound to its ID. */
  class EventSink {
    const store: StepStore
    const run: string
    const served: Served
    const accept: nat -> bool
    var calls: seq<StepEvent>
    ghost const base: Db

    ghost predicate Valid()
      reads this, store
    {
      Consistent(base) && RunId(run) && accept == served.accept && store.Contents() == Replay(base, run, calls, served)
    }

    constructor (store: StepStore, run: string, served: Served)
      requires Consistent(store.Contents()) && RunId(run)
      ensures Valid() && calls == [] && base == store.Contents()
      ensures this.store == store && this.run == run && this.served == served && accept == served.accept
    {
      this.store, this.run, this.served, accept := store, run, served, served.accept;
      calls, base := [], store.Contents();
    }

    /** The emitter answers as the repository does; recording adds no failure. */
    method Emit(e: StepEvent) returns (ok: bool)
      requires Valid() && Ready(base, run, e.step)
      modifies this, store
      ensures Valid() && calls == old(calls) + [e]
      ensures ok == accept(|old(calls)|)
    {
      hide Consistent, Replay, Record;
      ReplayKeeps(base, run, calls, served);
      ReplaySnoc(base, run, calls, e, served);
      RecordSucceeds(store.Contents(), run, e);
      ok := accept(|calls|);
      if ok {
        ok := store.RecordStepEvent(run, e, served.clock(|calls|));
      } else if served.half(|calls|) {
        var _, _ := store.EnsureStepRun(run, e.step);
      }
      calls := calls + [e];
    }

    /** Emits a skip for steps[from..], whatever the emitter answers. */
    method SkipFrom(steps: seq<PipelineStep>, from: nat)
      requires from <= |steps| && Valid() && ReadyAll(base, run, steps)
      modifies this, store
      ensures Valid() && calls == old(calls) + SkipEvents(steps[from..])
    {
      hide Valid;
      var j := from;
      while j < |steps|
        invariant from <= j <= |steps| && Valid()
        invariant calls == old(calls) + SkipEvents(steps[from..])[..j - from]
      {
        assert Ready(base, run, steps[j].name);
        var _ := Emit(SkippedEvent(steps[j]));
        j := j + 1;
      }
    }
  }

  lemma ReplaySnoc(base: Db, run: string, calls: seq<StepEvent>, e: StepEvent, v: Served)
    ensures Replay(base, run, calls + [e], v) == Recorded(Replay(base, run, calls, v), run, |calls|, e, v)
  {
    assert (calls + [e])[..|calls|] == calls;
  }

  predicate Blank(s: string) {
    forall i :: 0 <= i < |s| ==> IsSpace(s[i])
  }

  function Truncate(s: string, max: int): string {
    if max <= 0 || |s| <= max then s else s[..max]
  }

  function TypeName(t: StepType): string {
    match t
    case Shell => "shell"
    case K8sApply => "k8s-apply"
    case Terraform => "terraform"
    case Http => "http"
  }

  /** A step without a command fails before any process is started. */
  function RunShell(st: PipelineStep, command: ShellResult): ShellResult {
    var cmd := if "cmd" in st.config && st.config["cmd"].Text? then st.config["cmd"].text else "";
    if Blank(cmd) then ShellResult("step config is missing 'cmd'", -1, Fault) else command
  }

  function FailedEvent(st: PipelineStep, output: string, exitCode: int): StepEvent {
    StepEvent(st.name, Failed, output, exitCode)
  }

  /** The closing event of a step that has started. */
  function Closing(st: PipelineStep, command: ShellResult, max: int): (e: StepEvent)
    ensures e.step == st.name && e.status in {Succeeded, Failed, Cancelled}
    ensures e.status == Succeeded <==>
      st.kind == Shell && RunShell(st, command).err == NoError && RunShell(st, command).exitCode == 0
    ensures e.status == Cancelled ==> RunShell(st, command).err.Canceled? || RunShell(st, command).err.DeadlineExceeded?
  {
    if st.kind != Shell then
      FailedEvent(st, "step type \"" + TypeName(st.kind) + "\" is not implemented in v1", -1)
    else
      var r := RunShell(st, command);
      if r.err == Fault then FailedEvent(st, Truncate(r.output, max), r.exitCode)
      else if r.err != NoError then CancelledEvent(st)
      else if r.exitCode != 0 then FailedEvent(st, Truncate(r.output, max), r.exitCode)
      else StepEvent(st.name, Succeeded, Truncate(r.output, max), 0)
  }

  ghost function Closings(steps: seq<PipelineStep>, env: seq<StepEnv>, max: int): seq<StepEvent>
    requires |steps| == |env|
  {
    seq(|steps|, j requires 0 <= j < |steps| => Closing(steps[j], env[j].command, max))
  }

  /** Step j is passed over successfully by a run whose first emit is call
      number base. Only the answer to a running event is looked at. */
  ghost predicate Passes(steps: seq<PipelineStep>, env: seq<StepEnv>, max: int, accept: nat -> bool, base: nat, j: nat)
    requires j < |steps| == |env|
  {
    && env[j].ctxErr == NoError
    && accept(base + 2 * j)
    && Closing(steps[j], env[j].command, max).status == Succeeded
  }

  /** The way a Local run ends at step k, and the error it returns. */
  ghost function LocalEnding(steps: seq<PipelineStep>, env: seq<StepEnv>, max: int, accept: nat -> bool, base: nat, k: nat)
    : (Ending, ExecError)
    requires k <= |steps| == |env|
  {
    if k == |steps| then (Completed, NoError)
    else if env[k].ctxErr != NoError then (CancelledHere(false), env[k].ctxErr)
    else if !accept(base + 2 * k) then (Silent(true), Fault)
    else
      var e := Closing(steps[k], env[k].command, max);
      if e.status == Cancelled then (CancelledHere(true), RunShell(steps[k], env[k].command).err)
      else (FailedWith(e), Fault)
  }

  // ---- the report of a step, in terms of its command ----

  /** The step's config has a command, that is some text other than white space. */
  ghost predicate HasCommand(st: PipelineStep) {
    "cmd" in st.config && st.config["cmd"].Text? &&
      exists i :: 0 <= i < |st.config["cmd"].text| && NotWhite(st.config["cmd"].text[i])
  }

  predicate NotWhite(c: char) { c != ' ' && (c < '\t' || '\r' < c) }

  /** The output up to the cap, which a cap of 0 or less lifts. */
  ghost predicate CappedTo(shown: string, output: string, max: int) {
    shown <= output && |shown| == if max > 0 then Min(|output|, max) else |output|
  }

  /** What the closing event of a started step says: a command's own answer if there is
      a command and the step is a shell step, a failure with exit code -1 otherwise. */
  ghost predicate Reports(st: PipelineStep, answer: ShellResult, max: int, e: StepEvent) {
    && e.step == st.name
    && (st.kind != Shell || !HasCommand(st) ==> e.status == Failed && e.exitCode == -1)
    && (st.kind == Shell && !HasCommand(st) ==> CappedTo(e.output, "step config is missing 'cmd'", max))
    && (st.kind == Shell && HasCommand(st) ==>
         && (e.status == Succeeded <==> answer.err == NoError && answer.exitCode == 0)
         && (e.status == Cancelled <==> answer.err == Canceled || answer.err == DeadlineExceeded)
         && (e.status == Failed <==> answer.err == Fault || (answer.err == NoError && answer.exitCode != 0))
         && (e.status == Cancelled ==> e.output == "" && e.exitCode == 0)
         && (e.status != Cancelled ==> CappedTo(e.output, answer.output, max) && e.exitCode == if e.status == Failed then answer.exitCode else 0))
  }

  lemma BlankOrNot(st: PipelineStep, answer: ShellResult)
    ensures RunShell(st, answer) ==
      if HasCommand(st) then answer else ShellResult("step config is missing 'cmd'", -1, Fault)
  {
    if "cmd" in st.config && st.config["cmd"].Text? {
      var cmd := st.config["cmd"].text;
      if !Blank(cmd) {
        var i :| 0 <= i < |cmd| && !IsSpace(cmd[i]);
        assert NotWhite(cmd[i]);
      } else {
        forall i | 0 <= i < |cmd| ensures !NotWhite(cmd[i]) {
          assert IsSpace(cmd[i]);
        }
      }
    }
  }

  lemma TruncateCaps(s: string, max: int)
    ensures CappedTo(Truncate(s, max), s, max)
  {
  }

  /** Which steps run, and what their closing events carry. */
  lemma ClosingReports(st: PipelineStep, answer: ShellResult, max: int)
    ensures Reports(st, answer, max, Closing(st, answer, max))
  {
    BlankOrNot(st, answer);
    TruncateCaps(RunShell(st, answer).output, max);
    hide HasCommand, CappedTo, Truncate, TypeName, Blank, RunShell;
  }

  /** The whole transcript of a local run, event by event, and its error: every step
      passed was found live, accepted and reported succeeded; then the run is over, or
      its next step was found cancelled, refused by the emitter, cancelled by its command,
      or reported failed and the rest skipped. */
  ghost predicate Transcript(steps: seq<PipelineStep>, env: seq<StepEnv>, max: int, accept: nat -> bool, base: nat,
                             k: nat, es: seq<StepEvent>, err: ExecError)
    requires |steps| == |env|
  {
    && k <= |steps| && |es| >= 2 * k
    && (forall j :: 0 <= j < k ==> StepPassed(steps[j], env[j], max, accept, base, j, es))
    && (if k == |steps| then es[2 * k..] == [] && err == NoError
        else StepStopped(steps[k], env[k], max, accept(base + 2 * k), steps[k + 1..], es[2 * k..], err))
  }

  /** The step at which a run stops: its events, those of the steps after it, and the
      error. */
  ghost predicate StepStopped(st: PipelineStep, e: StepEnv, max: int, accepted: bool, rest: seq<PipelineStep>,
                              tail: seq<StepEvent>, err: ExecError) {
    if e.ctxErr != NoError then tail == [StepEvent(st.name, Cancelled, "", 0)] && err == e.ctxErr
    else if !accepted then tail == [StepEvent(st.name, Running, "", 0)] && err == Fault
    else
      && |tail| >= 2
      && tail[0] == StepEvent(st.name, Running, "", 0)
      && Reports(st, e.command, max, tail[1]) && tail[1].status != Succeeded
      && (tail[1].status == Cancelled ==> |tail| == 2 && err == e.command.err)
      && (tail[1].status == Failed ==>
           && err == Fault && |tail| == 2 + |rest|
           && forall j :: 0 <= j < |rest| ==> tail[2 + j] == StepEvent(rest[j].name, Skipped, "", 0))
  }

  ghost predicate StepPassed(st: PipelineStep, e: StepEnv, max: int, accept: nat -> bool, base: nat, j: nat, es: seq<StepEvent>)
    requires |es| >= 2 * j + 2
  {
    && e.ctxErr == NoError && accept(base + 2 * j)
    && es[2 * j] == StepEvent(st.name, Running, "", 0)
    && Reports(st, e.command, max, es[2 * j + 1]) && es[2 * j + 1].status == Succeeded
  }

  // ---- the outcomes of step i, one by one ----

  lemma EndsBefore(max: int, steps: seq<PipelineStep>, env: seq<StepEnv>, accept: nat -> bool, base: nat, i: nat)
    requires i < |steps| == |env| && env[i].ctxErr != NoError
    ensures var end := LocalEnding(steps, env, max, accept, base, i);
      && !Passes(steps, env, max, accept, base, i)
      && end.1 == env[i].ctxErr && EndingEvents(steps, i, end.0) == [CancelledEvent(steps[i])]
  {
  }

  lemma EndsRefused(max: int, steps: seq<PipelineStep>, env: seq<StepEnv>, accept: nat -> bool, base: nat, i: nat)
    requires i < |steps| == |env| && env[i].ctxErr == NoError && !accept(base + 2 * i)
    ensures var end := LocalEnding(steps, env, max, accept, base, i);
      && !Passes(steps, env, max, accept, base, i)
      && end.1 == Fault && EndingEvents(steps, i, end.0) == [RunningEvent(steps[i])]
  {
  }

  lemma EndsStarted(max: int, steps: seq<PipelineStep>, env: seq<StepEnv>, accept: nat -> bool, base: nat, i: nat)
    requires i < |steps| == |env| && env[i].ctxErr == NoError && accept(base + 2 * i)
    ensures var end := LocalEnding(steps, env, max, accept, base, i);
      var e := Closing(steps[i], env[i].command, max);
      && (Passes(steps, env, max, accept, base, i) <==> e.status == Succeeded)
      && (e.status == Cancelled ==> end.1 == RunShell(steps[i], env[i].command).err)
      && (e.status == Failed ==> end.1 == Fault)
      && (e.status != Succeeded ==>
           EndingEvents(steps, i, end.0) == [RunningEvent(steps[i]), e] + if e.status == Failed then SkipEvents(steps[i + 1..]) else [])
  {
  }

  /** One turn of the loop of Local.Execute. */
  method LocalStep(max: int, steps: seq<PipelineStep>, env: seq<StepEnv>, ghost base: nat, i: nat, sink: EventSink)
    returns (passed: bool, err: ExecError, closing: StepEvent)
    requires i < |steps| == |env| && |sink.calls| == base + 2 * i
    requires sink.Valid() && ReadyAll(sink.base, sink.run, steps)
    modifies sink, sink.store
    ensures sink.Valid()
    ensures passed == Passes(steps, env, max, sink.accept, base, i)
    ensures passed ==> closing == Closing(steps[i], env[i].command, max)
    ensures passed ==> sink.calls == old(sink.calls) + [RunningEvent(steps[i]), closing]
    ensures !passed ==> err == LocalEnding(steps, env, max, sink.accept, base, i).1
    ensures !passed ==>
      sink.calls == old(sink.calls) + EndingEvents(steps, i, LocalEnding(steps, env, max, sink.accept, base, i).0)
  {
    assert Ready(sink.base, sink.run, steps[i].name);
    assert RunningEvent(steps[i]).step == CancelledEvent(steps[i]).step == steps[i].name;
    hide *;
    ghost var before := sink.calls;
    closing := CancelledEvent(steps[i]);
    if env[i].ctxErr != NoError {
      EndsBefore(max, steps, env, sink.accept, base, i);
      var _ := sink.Emit(closing);
      return false, env[i].ctxErr, closing;
    }
    var ok := sink.Emit(RunningEvent(steps[i]));
    if !ok {
      EndsRefused(max, steps, env, sink.accept, base, i);
      return false, Fault, closing;
    }
    EndsStarted(max, steps, env, sink.accept, base, i);
    closing := Closing(steps[i], env[i].command, max);
    CloseStep(steps, i, closing, sink);
    Joined(before, RunningEvent(steps[i]), closing, if closing.status == Failed then SkipEvents(steps[i + 1..]) else []);
    if closing.status == Cancelled {
      return false, RunShell(steps[i], env[i].command).err, closing;
    }
    if closing.status == Failed {
      return false, Fault, closing;
    }
    return true, NoError, closing;
  }

  lemma Joined(calls: seq<StepEvent>, a: StepEvent, b: StepEvent, rest: seq<StepEvent>)
    ensures calls + [a] + [b] + rest == calls + ([a, b] + rest)
    ensures rest == [] ==> calls + [a] + [b] + rest == calls + [a, b]
  {
  }

  /** The closing event of a step, and the skips after a failure. */
  method CloseStep(steps: seq<PipelineStep>, i: nat, closing: StepEvent, sink: EventSink)
    requires i < |steps| && closing.step == steps[i].name && sink.Valid() && ReadyAll(sink.base, sink.run, steps)
    modifies sink, sink.store
    ensures sink.Valid()
    ensures sink.calls == old(sink.calls) + [closing] + (if closing.status == Failed then SkipEvents(steps[i + 1..]) else [])
  {
    assert Ready(sink.base, sink.run, steps[i].name);
    hide *;
    var _ := sink.Emit(closing);
    if closing.status == Failed {
      sink.SkipFrom(steps, i + 1);
    }
  }

  /** What a run of Local.Execute must be: it leaves its loop at the first step
      that does not pass, with the ending and error of that step. */
  ghost predicate IsLocalRun(steps: seq<PipelineStep>, env: seq<StepEnv>, max: int, accept: nat -> bool, base: nat,
                             p: Play, err: ExecError)
    requires |steps| == |env|
  {
    && p.k <= |steps| && p.results == Closings(steps, env, max)[..p.k]
    && (forall j :: 0 <= j < p.k ==> Passes(steps, env, max, accept, base, j))
    && (p.k < |steps| ==> !Passes(steps, env, max, accept, base, p.k))
    && (p.ending, err) == LocalEnding(steps, env, max, accept, base, p.k)
  }

  lemma LocalRunEvents(before: seq<StepEvent>, steps: seq<PipelineStep>, env: seq<StepEnv>, max: int,
                       accept: nat -> bool, base: nat, p: Play, err: ExecError)
    requires |steps| == |env| && IsLocalRun(steps, env, max, accept, base, p, err)
    ensures ValidPlay(steps, p)
    ensures Reached(before, steps, env, max, p.k) + EndingEvents(steps, p.k, p.ending) == before + Events(steps, p)
  {
    hide SuccessEvents, EndingEvents, RunShell, RunningEvent, CancelledEvent;
    SuccessEventsPrefix(steps, p.results, Closings(steps, env, max), p.k);
    forall j | 0 <= j < p.k
      ensures p.results[j].step == steps[j].name && p.results[j].status == Succeeded
    {
      assert Passes(steps, env, max, accept, base, j);
      assert p.results[j] == Closing(steps[j], env[j].command, max);
    }
  }

  /** The emitter's log when the loop of Local.Execute stands at step i. */
  ghost function Reached(before: seq<StepEvent>, steps: seq<PipelineStep>, env: seq<StepEnv>, max: int, i: nat)
    : (calls: seq<StepEvent>)
    requires i <= |steps| == |env|
    ensures |calls| == |before| + 2 * i
  {
    before + SuccessEvents(steps, Closings(steps, env, max), i)
  }

  lemma ReachNext(before: seq<StepEvent>, steps: seq<PipelineStep>, env: seq<StepEnv>, max: int, i: nat)
    requires i < |steps| == |env|
    ensures Reached(before, steps, env, max, i + 1) ==
            Reached(before, steps, env, max, i) + [RunningEvent(steps[i]), Closing(steps[i], env[i].command, max)]
  {
  }

  /** Local.Execute. */
  method LocalExecute(max: int, steps: seq<PipelineStep>, env: seq<StepEnv>, sink: EventSink)
    returns (err: ExecError, ghost p: Play)
    requires |env| == |steps| && sink.Valid() && ReadyAll(sink.base, sink.run, steps)
    modifies sink, sink.store
    ensures sink.Valid()
    ensures IsLocalRun(steps, env, max, sink.accept, |old(sink.calls)|, p, err)
    ensures ValidPlay(steps, p) && sink.calls == old(sink.calls) + Events(steps, p)
    ensures Transcript(steps, env, max, sink.accept, |old(sink.calls)|, p.k, sink.calls[|old(sink.calls)|..], err)
  {
    hide *;
    ghost var before := sink.calls;
    var i := 0;
    NothingReached(before, steps, env, max);
    while i < |steps|
      invariant 0 <= i <= |steps| && sink.Valid()
      invariant forall j :: 0 <= j < i ==> Passes(steps, env, max, sink.accept, |before|, j)
      invariant sink.calls == Reached(before, steps, env, max, i)
    {
      var passed, e, closing := LocalStep(max, steps, env, |before|, i, sink);
      if !passed {
        p := LeftAt(before, steps, env, max, sink.accept, i, e, sink.calls);
        return e, p;
      }
      ReachNext(before, steps, env, max, i);
      i := i + 1;
    }
    LeftAtEnd(steps, env, max, sink.accept, |before|);
    assert sink.calls + [] == sink.calls;
    p := LeftAt(before, steps, env, max, sink.accept, i, NoError, sink.calls);
    return NoError, p;
  }

  lemma NothingReached(before: seq<StepEvent>, steps: seq<PipelineStep>, env: seq<StepEnv>, max: int)
    requires |steps| == |env|
    ensures Reached(before, steps, env, max, 0) == before
  {
  }

  lemma LeftAtEnd(steps: seq<PipelineStep>, env: seq<StepEnv>, max: int, accept: nat -> bool, base: nat)
    requires |steps| == |env|
    ensures LocalEnding(steps, env, max, accept, base, |steps|) == (Completed, NoError)
    ensures EndingEvents(steps, |steps|, Completed) == []
  {
  }

  /** The run that left the loop at step i. */
  lemma LeftAt(before: seq<StepEvent>, steps: seq<PipelineStep>, env: seq<StepEnv>, max: int, accept: nat -> bool,
               i: nat, err: ExecError, calls: seq<StepEvent>) returns (p: Play)
    requires i <= |steps| == |env|
    requires forall j :: 0 <= j < i ==> Passes(steps, env, max, accept, |before|, j)
    requires i < |steps| ==> !Passes(steps, env, max, accept, |before|, i)
    requires err == LocalEnding(steps, env, max, accept, |before|, i).1
    requires calls == Reached(before, steps, env, max, i) +
                      EndingEvents(steps, i, LocalEnding(steps, env, max, accept, |before|, i).0)
    ensures IsLocalRun(steps, env, max, accept, |before|, p, err)
    ensures ValidPlay(steps, p) && calls == before + Events(steps, p)
    ensures Transcript(steps, env, max, accept, |before|, p.k, calls[|before|..], err)
  {
    p := Play(i, Closings(steps, env, max)[..i], LocalEnding(steps, env, max, accept, |before|, i).0);
    LocalRunEvents(before, steps, env, max, accept, |before|, p, err);
    LocalTranscript(steps, env, max, accept, |before|, p, err);
    hide *;
    assert calls == before + Events(steps, p);
    assert calls[|before|..] == Events(steps, p);
  }

  /** What LocalExecute emits and returns, spelled out. */
  lemma LocalTranscript(steps: seq<PipelineStep>, env: seq<StepEnv>, max: int, accept: nat -> bool, base: nat,
                        p: Play, err: ExecError)
    requires |steps| == |env| && IsLocalRun(steps, env, max, accept, base, p, err)
    ensures ValidPlay(steps, p) && Transcript(steps, env, max, accept, base, p.k, Events(steps, p), err)
  {
    LocalRunEvents([], steps, env, max, accept, base, p, err);
    var es := Events(steps, p);
    TailIs(steps, p);
    forall j | 0 <= j < p.k ensures StepPassed(steps[j], env[j], max, accept, base, j, es) {
      PassedStep(steps, env, max, accept, base, p, err, j);
    }
    if p.k < |steps| {
      StoppedStep(steps, env, max, accept, base, p.k);
      hide Events, ValidPlay, StepPassed, StepStopped, EndingEvents, LocalEnding;
    } else {
      hide Events, ValidPlay, StepPassed, StepStopped;
    }
  }

  lemma TailIs(steps: seq<PipelineStep>, p: Play)
    requires ValidPlay(steps, p)
    ensures |Events(steps, p)| >= 2 * p.k && Events(steps, p)[2 * p.k..] == EndingEvents(steps, p.k, p.ending)
  {
    hide EndingEvents;
  }

  lemma PassedStep(steps: seq<PipelineStep>, env: seq<StepEnv>, max: int, accept: nat -> bool, base: nat,
                   p: Play, err: ExecError, j: nat)
    requires |steps| == |env| && IsLocalRun(steps, env, max, accept, base, p, err) && ValidPlay(steps, p) && j < p.k
    requires |Events(steps, p)| >= 2 * p.k
    ensures StepPassed(steps[j], env[j], max, accept, base, j, Events(steps, p))
  {
    assert Passes(steps, env, max, accept, base, j);
    assert p.results[j] == Closing(steps[j], env[j].command, max);
    EventAt(steps, p, 2 * j);
    EventAt(steps, p, 2 * j + 1);
    ClosingReports(steps[j], env[j].command, max);
    hide Events, Closing, Reports, LocalEnding, ValidPlay;
  }

  lemma StoppedStep(steps: seq<PipelineStep>, env: seq<StepEnv>, max: int, accept: nat -> bool, base: nat, k: nat)
    requires k < |steps| == |env| && !Passes(steps, env, max, accept, base, k)
    ensures var end := LocalEnding(steps, env, max, accept, base, k);
      StepStopped(steps[k], env[k], max, accept(base + 2 * k), steps[k + 1..], EndingEvents(steps, k, end.0), end.1)
  {
    hide LocalEnding, EndingEvents, Passes, Closing, RunShell, HasCommand, CappedTo;
    if env[k].ctxErr != NoError {
      EndsBefore(max, steps, env, accept, base, k);
    } else if !accept(base + 2 * k) {
      EndsRefused(max, steps, env, accept, base, k);
    } else {
      EndsStarted(max, steps, env, accept, base, k);
      ClosingReports(steps[k], env[k].command, max);
      BlankOrNot(steps[k], env[k].command);
    }
  }

  lemma {:induction false} SuccessEventsPrefix(steps: seq<PipelineStep>, r1: seq<StepEvent>, r2: seq<StepEvent>, n: nat)
    requires n <= |steps| && n <= |r1| && n <= |r2| && r1[..n] == r2[..n]
    ensures SuccessEvents(steps, r1, n) == SuccessEvents(steps, r2, n)
  {
    if n > 0 {
      assert r1[..n - 1] == r1[..n][..n - 1] == r2[..n][..n - 1] == r2[..n - 1];
      SuccessEventsPrefix(steps, r1, r2, n - 1);
      assert r1[n - 1] == r1[..n][n - 1] == r2[n - 1];
    }
  }
}
