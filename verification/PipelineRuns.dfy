/** The run row: the repository's writes to it, and the protocol in which one
    executeRun goroutine and any number of Cancel calls race on it. */
module PipelineRuns {
  import opened Options
  import M = PipelineModel

  datatype RunStatus = Pending | Running | Succeeded | Failed | Cancelled {
    predicate Terminal() {
      Succeeded? || Failed? || Cancelled?
    }
  }

  datatype RunRow = RunRow(status: RunStatus, startedAt: Option<int>, finishedAt: Option<int>,
                           durationMs: int, errorMessage: string)

  // ---- the row writes of the repository ----

  function NewRow(): RunRow { RunRow(Pending, None, None, 0, "") }

  function WithStarted(r: RunRow, at: int): RunRow { r.(startedAt := Some(at), status := Running) }

  function WithStatus(r: RunRow, status: RunStatus, durationMs: int, msg: string, now: int): RunRow {
    RunRow(status, r.startedAt, if status.Terminal() then Some(now) else r.finishedAt, durationMs, msg)
  }

  function WithFinished(r: RunRow, status: RunStatus, durationMs: int, msg: string, now: int): RunRow {
    RunRow(status, r.startedAt, Some(now), durationMs, msg)
  }

  /** The pipeline_runs table. A write to a missing row affects nothing and is
      reported. */
  class Repository {
    var runs: map<string, RunRow>

    constructor ()
      ensures runs == map[]
    {
      runs := map[];
    }

    method CreateRun(id: string)
      requires id !in runs
      modifies this
      ensures runs == old(runs)[id := RunRow(Pending, None, None, 0, "")]
    {
      runs := runs[id := RunRow(Pending, None, None, 0, "")];
    }

    method UpdateRunStartedAt(id: string, at: int) returns (found: bool)
      modifies this
      ensures found == (id in old(runs))
      ensures runs == if found then old(runs)[id := old(runs)[id].(status := Running, startedAt := Some(at))] else old(runs)
    {
      if id !in runs { return false; }
      var r := runs[id];
      runs := runs[id := RunRow(Running, Some(at), r.finishedAt, r.durationMs, r.errorMessage)];
      return true;
    }

    method UpdateRunStatus(id: string, status: RunStatus, durationMs: int, msg: string, now: int) returns (found: bool)
      modifies this
      ensures found == (id in old(runs))
      ensures found ==>
        var r := old(runs)[id];
        var finishedAt := if status in {Succeeded, Failed, Cancelled} then Some(now) else r.finishedAt;
        runs == old(runs)[id := RunRow(status, r.startedAt, finishedAt, durationMs, msg)]
      ensures !found ==> runs == old(runs)
    {
      if id !in runs { return false; }
      var r := runs[id].(status := status, durationMs := durationMs, errorMessage := msg);
      if status == Succeeded || status == Failed || status == Cancelled {
        r := r.(finishedAt := Some(now));
      }
      runs := runs[id := r];
      return true;
    }

    method UpdateRunFinished(id: string, status: RunStatus, durationMs: int, msg: string, now: int) returns (found: bool)
      modifies this
      ensures found == (id in old(runs))
      ensures runs ==
        if found then old(runs)[id := RunRow(status, old(runs)[id].startedAt, Some(now), durationMs, msg)] else old(runs)
    {
      if id !in runs { return false; }
      runs := runs[id := RunRow(status, runs[id].startedAt, Some(now), durationMs, msg)];
      return true;
    }
  }

  // ---- the protocol, for one run ----

  datatype Verdict = Verdict(err: M.ExecError, msg: string)

  /** The switch at the end of executeRun. */
  function FinalStatus(err: M.ExecError): RunStatus {
    match err
    case NoError => Succeeded
    case Canceled => Cancelled
    case _ => Failed
  }

  function TruncateMsg(s: string): string {
    if |s| <= 1024 then s else s[..1024]
  }

  /** Trigger, then the goroutine it spawns, by the last action taken. */
  datatype Driver =
    | Idle | RowStored | Registered | Spawned
    | MarkedStarted(startedAt: int) | MarkedRunning(startedAt: int)
    | Executed(startedAt: int, verdict: Verdict)
    | Finished(verdict: Verdict) | Unregistered(verdict: Verdict)

  /** One Cancel call; row is what its GetRun returned. */
  datatype Caller = HasRead(row: RunRow) | LookedUp(row: RunRow, found: bool) | Signalled(row: RunRow) | Returned

  /** inFlight and lateWrite only remember history: the Cancel calls that had
      read the row but not yet returned when the goroutine wrote its final
      status, and whether one of them wrote after that. */
  datatype State = State(row: Option<RunRow>, registered: bool, ctxCancelled: bool,
                         driver: Driver, callers: map<nat, Caller>,
                         inFlight: set<nat>, lateWrite: bool)

  const INITIAL := State(None, false, false, Idle, map[], {}, false)

  /** The atomic actions: each repository call, map access and cancel() is one.
      Times and the executor's verdict are arbitrary. */
  datatype Action =
    | StoreRow | Register | Spawn
    | MarkStarted(now: int) | MarkRunning(now: int) | Execute(verdict: Verdict) | Finish(now: int) | Unregister
    | CancelRead(c: nat) | CancelLookup(c: nat) | CancelSignal(c: nat) | CancelWrite(c: nat, now: int)

  predicate DriverDone(d: Driver) { d.Finished? || d.Unregistered? }

  predicate InFlight(c: Caller) { !c.Returned? }

  predicate Enabled(s: State, a: Action) {
    match a
    case StoreRow => s.driver.Idle?
    case Register => s.driver.RowStored?
    case Spawn => s.driver.Registered?
    case MarkStarted(_) => s.driver.Spawned? && s.row.Some?
    case MarkRunning(_) => s.driver.MarkedStarted? && s.row.Some?
    // a context reports Canceled only after its cancel function was called
    case Execute(v) => s.driver.MarkedRunning? && (v.err.Canceled? ==> s.ctxCancelled)
    case Finish(_) => s.driver.Executed? && s.row.Some?
    case Unregister => s.driver.Finished?
    case CancelRead(c) => c !in s.callers
    case CancelLookup(c) => c in s.callers && s.callers[c].HasRead?
    case CancelSignal(c) => c in s.callers && s.callers[c].LookedUp?
    case CancelWrite(c, _) => c in s.callers && s.callers[c].Signalled? && s.row.Some?
  }

  function Effect(s: State, a: Action): State
    requires Enabled(s, a)
  {
    match a
    case StoreRow => s.(row := Some(NewRow()), driver := RowStored)
    case Register => s.(registered := true, driver := Registered)
    case Spawn => s.(driver := Spawned)
    case MarkStarted(now) => s.(row := Some(WithStarted(s.row.value, now)), driver := MarkedStarted(now))
    case MarkRunning(now) =>
      s.(row := Some(WithStatus(s.row.value, Running, 0, "", now)), driver := MarkedRunning(s.driver.startedAt))
    case Execute(v) => s.(driver := Executed(s.driver.startedAt, v))
    case Finish(now) =>
      var v := s.driver.verdict;
      var msg := if v.err.NoError? || v.err.Canceled? then "" else TruncateMsg(v.msg);
      s.(row := Some(WithFinished(s.row.value, FinalStatus(v.err), now - s.driver.startedAt, msg, now)),
         driver := Finished(v),
         inFlight := set c | c in s.callers && InFlight(s.callers[c]))
    case Unregister => s.(registered := false, driver := Unregistered(s.driver.verdict))
    case CancelRead(c) =>
      // a missing run is NotFound, a finished one needs nothing: both return
      s.(callers := s.callers[c :=
           if s.row.Some? && !s.row.value.status.Terminal() then HasRead(s.row.value) else Returned])
    case CancelLookup(c) => s.(callers := s.callers[c := LookedUp(s.callers[c].row, s.registered)])
    case CancelSignal(c) =>
      s.(ctxCancelled := s.ctxCancelled || s.callers[c].found, callers := s.callers[c := Signalled(s.callers[c].row)])
    case CancelWrite(c, now) =>
      var read := s.callers[c].row;
      var durationMs := if read.startedAt.Some? then now - read.startedAt.value else 0;
      s.(row := Some(WithFinished(s.row.value, Cancelled, durationMs, "", now)),
         callers := s.callers[c := Returned],
         lateWrite := s.lateWrite || DriverDone(s.driver))
  }

  /** Actions that are not enabled are skipped, so every action sequence is a
      schedule and every interleaving is one of them. */
  function Next(s: State, a: Action): State {
    if Enabled(s, a) then Effect(s, a) else s
  }

  function After(schedule: seq<Action>): State {
    if schedule == [] then INITIAL else Next(After(schedule[..|schedule| - 1]), schedule[|schedule| - 1])
  }

  ghost predicate Invariant(s: State) {
    && (s.row.Some? <==> !s.driver.Idle?)
    && (s.registered <==> !(s.driver.Idle? || s.driver.RowStored? || s.driver.Unregistered?))
    && (forall c :: c in s.callers && InFlight(s.callers[c]) ==> !s.callers[c].row.status.Terminal() && s.row.Some?)
    && (forall c :: c in s.callers && s.callers[c].LookedUp? && s.callers[c].found ==>
         !(s.driver.Idle? || s.driver.RowStored?))
    && (s.ctxCancelled ==> !(s.driver.Idle? || s.driver.RowStored?))
    && (s.driver.Executed? || DriverDone(s.driver) ==> (s.driver.verdict.err.Canceled? ==> s.ctxCancelled))
    && (!DriverDone(s.driver) ==> s.inFlight == {} && !s.lateWrite)
    && (!DriverDone(s.driver) && s.row.Some? && s.row.value.status.Terminal() ==> s.row.value.status == Cancelled)
    && (DriverDone(s.driver) ==>
         && s.row.value.status == (if s.lateWrite then Cancelled else FinalStatus(s.driver.verdict.err))
         && (forall c :: c in s.callers && InFlight(s.callers[c]) ==> c in s.inFlight)
         && (s.lateWrite ==> exists c :: c in s.inFlight && c in s.callers && s.callers[c].Returned?))
  }

  predicate ByCaller(a: Action) { a.CancelRead? || a.CancelLookup? || a.CancelSignal? || a.CancelWrite? }

  lemma DriverKeepsInvariant(s: State, a: Action)
    requires Invariant(s) && Enabled(s, a) && !ByCaller(a)
    ensures Invariant(Effect(s, a))
  {
    if s.lateWrite {
      var c :| c in s.inFlight && c in s.callers && s.callers[c].Returned?;
    }
  }

  lemma CallerKeepsInvariant(s: State, a: Action)
    requires Invariant(s) && Enabled(s, a) && ByCaller(a)
    ensures Invariant(Effect(s, a))
  {
    var t := Effect(s, a);
    assert t.driver == s.driver && t.inFlight == s.inFlight;
    if s.lateWrite {
      var c :| c in s.inFlight && c in s.callers && s.callers[c].Returned?;
      assert c in t.callers && t.callers[c].Returned?;
    } else if a.CancelWrite? && DriverDone(s.driver) {
      assert a.c in t.inFlight && a.c in t.callers && t.callers[a.c].Returned?;
    }
  }

  lemma {:induction false} InvariantHolds(schedule: seq<Action>)
    ensures Invariant(After(schedule))
  {
    if schedule != [] {
      InvariantHolds(schedule[..|schedule| - 1]);
      var s, a := After(schedule[..|schedule| - 1]), schedule[|schedule| - 1];
      if Enabled(s, a) {
        if ByCaller(a) { CallerKeepsInvariant(s, a); } else { DriverKeepsInvariant(s, a); }
      }
    }
  }

  // ---- uninterrupted calls ----

  /** A whole Cancel with nothing in between. */
  function Cancelling(s: State, c: nat, now: int): State {
    Next(Next(Next(Next(s, CancelRead(c)), CancelLookup(c)), CancelSignal(c)), CancelWrite(c, now))
  }

  /** The whole goroutine with nothing in between. */
  function Executing(s: State, t0: int, t1: int, v: Verdict, t2: int): State {
    Next(Next(Next(Next(Next(s, MarkStarted(t0)), MarkRunning(t1)), Execute(v)), Finish(t2)), Unregister)
  }

  // ---- what holds in every interleaving ----

  ghost predicate Quiescent(s: State) {
    s.driver.Unregistered? && forall c :: c in s.callers ==> s.callers[c].Returned?
  }

  /** From the goroutine's final write on, and so in every quiescent state, the
      row is terminal: it shows the executor's verdict, or Cancelled if a Cancel
      that was already under way at that write has written since. */
  lemma TerminalAfterFinish(schedule: seq<Action>)
    ensures var s := After(schedule); DriverDone(s.driver) ==>
      && s.row.Some? && s.row.value.status.Terminal()
      && s.row.value.status == (if s.lateWrite then Cancelled else FinalStatus(s.driver.verdict.err))
    ensures var s := After(schedule); DriverDone(s.driver) && s.lateWrite ==>
      exists c :: c in s.inFlight && c in s.callers && s.callers[c].Returned?
    ensures Quiescent(After(schedule)) ==> After(schedule).row.Some? && After(schedule).row.value.status.Terminal()
  {
    InvariantHolds(schedule);
  }

  /** If no Cancel is under way when the goroutine writes, its verdict stays,
      whatever is called afterwards. */
  lemma VerdictStands(before: seq<Action>, now: int, rest: seq<Action>)
    requires After(before).driver.Executed?
    requires forall c :: c in After(before).callers ==> After(before).callers[c].Returned?
    ensures var s := After(before + [Finish(now)] + rest);
      && DriverDone(s.driver) && s.driver.verdict == After(before).driver.verdict
      && s.row.Some? && s.row.value.status == FinalStatus(s.driver.verdict.err)
  {
    InvariantHolds(before);
    NothingLate(before, now, rest);
    InvariantHolds(before + [Finish(now)] + rest);
  }

  lemma {:induction false} NothingLate(before: seq<Action>, now: int, rest: seq<Action>)
    requires After(before).driver.Executed? && After(before).row.Some?
    requires forall c :: c in After(before).callers ==> After(before).callers[c].Returned?
    ensures var s := After(before + [Finish(now)] + rest);
      DriverDone(s.driver) && s.inFlight == {} && s.driver.verdict == After(before).driver.verdict
  {
    var all := before + [Finish(now)] + rest;
    if rest == [] {
      assert all[..|all| - 1] == before && all[|all| - 1] == Finish(now);
    } else {
      assert all[..|all| - 1] == before + [Finish(now)] + rest[..|rest| - 1];
      assert all[|all| - 1] == rest[|rest| - 1];
      NothingLate(before, now, rest[..|rest| - 1]);
    }
  }

  /** A Cancel that reads a terminal row changes neither the row nor the context,
      then or later: it has returned. */
  lemma CancelOfFinishedRun(schedule: seq<Action>, c: nat, rest: seq<Action>)
    requires var s := After(schedule); c !in s.callers && s.row.Some? && s.row.value.status.Terminal()
    ensures var s, t := After(schedule), After(schedule + [CancelRead(c)]);
      t.row == s.row && t.ctxCancelled == s.ctxCancelled && t.driver == s.driver
    ensures var t := After(schedule + [CancelRead(c)] + rest);
      c in t.callers && t.callers[c].Returned?
  {
    var first := schedule + [CancelRead(c)];
    assert first[..|first| - 1] == schedule;
    ReturnedStays(first, c, rest);
  }

  lemma {:induction false} ReturnedStays(schedule: seq<Action>, c: nat, rest: seq<Action>)
    requires c in After(schedule).callers && After(schedule).callers[c].Returned?
    ensures c in After(schedule + rest).callers && After(schedule + rest).callers[c].Returned?
  {
    var all := schedule + rest;
    if rest == [] {
      assert all == schedule;
    } else {
      assert all[..|all| - 1] == schedule + rest[..|rest| - 1];
      ReturnedStays(schedule, c, rest[..|rest| - 1]);
      NextKeepsReturned(After(schedule + rest[..|rest| - 1]), rest[|rest| - 1], c);
    }
  }

  lemma NextKeepsReturned(s: State, a: Action, c: nat)
    requires c in s.callers && s.callers[c].Returned?
    ensures c in Next(s, a).callers && Next(s, a).callers[c].Returned?
  {
  }

  /** Without a cancel signal the run ends succeeded or failed, unless a Cancel
      wrote after the final write. */
  lemma CancelledNeedsCancel(schedule: seq<Action>)
    ensures var s := After(schedule);
      DriverDone(s.driver) && s.row.Some? && s.row.value.status == Cancelled ==> s.ctxCancelled || s.lateWrite
  {
    InvariantHolds(schedule);
  }

  /** What the row shows before the final write: pending until the goroutine marks it,
      then running since that moment, except that a Cancel may have written cancelled. */
  ghost predicate ShowsProgress(s: State) {
    && (s.driver.RowStored? || s.driver.Registered? || s.driver.Spawned? ==>
         s.row.Some? && s.row.value.startedAt == None && s.row.value.status in {Pending, Cancelled})
    && (s.driver.MarkedStarted? || s.driver.MarkedRunning? || s.driver.Executed? ==>
         s.row.Some? && s.row.value.startedAt == Some(s.driver.startedAt) && s.row.value.status in {Running, Cancelled})
    && (s.row.Some? && s.row.value.status == Cancelled && !DriverDone(s.driver) ==>
         exists c :: c in s.callers && s.callers[c].Returned?)
  }

  lemma NextShowsProgress(s: State, a: Action)
    requires ShowsProgress(s)
    ensures ShowsProgress(Next(s, a))
  {
    if Enabled(s, a) && !a.StoreRow? && !a.Finish? {
      var t := Effect(s, a);
      assert a.CancelWrite? ==> a.c in t.callers && t.callers[a.c].Returned?;
      assert forall c :: c in s.callers && s.callers[c].Returned? ==> c in t.callers && t.callers[c].Returned?;
    }
  }

  lemma {:induction false} ProgressShown(schedule: seq<Action>)
    ensures ShowsProgress(After(schedule))
  {
    if schedule != [] {
      ProgressShown(schedule[..|schedule| - 1]);
      hide ShowsProgress, Next;
      NextShowsProgress(After(schedule[..|schedule| - 1]), schedule[|schedule| - 1]);
    }
  }

  /** The final write, in any interleaving: the status of the executor's error, the time
      since the goroutine's start, and a message for a failure only. */
  lemma FinalWrite(schedule: seq<Action>, now: int)
    requires After(schedule).driver.Executed?
    ensures var s, t := After(schedule), After(schedule + [Finish(now)]);
      var err, msg := s.driver.verdict.err, s.driver.verdict.msg;
      var failed := err == M.DeadlineExceeded || err == M.Fault;
      t.row == Some(RunRow(if err == M.NoError then Succeeded else if failed then Failed else Cancelled,
                           Some(s.driver.startedAt), Some(now), now - s.driver.startedAt,
                           if !failed then "" else if |msg| <= 1024 then msg else msg[..1024]))
  {
    ProgressShown(schedule);
    AfterLast(schedule, Finish(now));
    hide After;
  }

  lemma AfterLast(schedule: seq<Action>, a: Action)
    ensures After(schedule + [a]) == Next(After(schedule), a)
  {
    assert (schedule + [a])[..|schedule|] == schedule;
  }

  // ---- when a terminal status is final ----

  /** When an action takes a terminal row to another status: the goroutine's two
      running marks undo any early Cancel, its final write replaces a Cancelled
      that is not its verdict, and a Cancel replaces a Succeeded or Failed. */
  lemma TerminalIsOverwritten(schedule: seq<Action>, a: Action)
    requires var s := After(schedule); s.row.Some? && s.row.value.status.Terminal() && Enabled(s, a)
    ensures var s := After(schedule);
      Effect(s, a).row.value.status != s.row.value.status <==>
        || a.MarkStarted? || a.MarkRunning?
        || (a.Finish? && !s.driver.verdict.err.Canceled?)
        || (a.CancelWrite? && DriverDone(s.driver) && s.row.value.status != Cancelled)
  {
    InvariantHolds(schedule);
  }

  /** No continuation changes the status. */
  ghost predicate IsFinal(schedule: seq<Action>) {
    forall more :: Shown(After(schedule + more)) == Shown(After(schedule))
  }

  function Shown(s: State): Option<RunStatus> {
    match s.row case None => None case Some(r) => Some(r.status)
  }

  /** Who may still write: nobody; or Cancel calls only, on a row that is cancelled
      anyway; or they and a goroutine about to write cancelled. */
  ghost predicate Settled(s: State) {
    || (DriverDone(s.driver) && (Shown(s) == Some(Cancelled) || forall c :: c in s.callers ==> s.callers[c].Returned?))
    || (s.driver.Executed? && s.driver.verdict.err.Canceled?)
  }

  /** A terminal status is final exactly if the goroutine has written and no Cancel
      that could change it is in flight, or the goroutine has been told to stop and is
      yet to write. In all other cases some continuation changes it. */
  lemma FinalExactly(schedule: seq<Action>)
    requires var s := After(schedule); s.row.Some? && s.row.value.status.Terminal()
    ensures IsFinal(schedule) <==> Settled(After(schedule))
  {
    if Settled(After(schedule)) {
      forall more ensures Shown(After(schedule + more)) == Shown(After(schedule)) {
        SettledStays(schedule, more);
      }
    } else {
      InvariantHolds(schedule);
      var more := Upset(schedule);
      assert Shown(After(schedule + more)) != Shown(After(schedule));
    }
  }

  lemma {:induction false} SettledStays(schedule: seq<Action>, more: seq<Action>)
    requires var s := After(schedule); s.row.Some? && s.row.value.status.Terminal() && Settled(s)
    ensures var t := After(schedule + more); Settled(t) && Shown(t) == Shown(After(schedule))
  {
    var all := schedule + more;
    if more == [] {
      assert all == schedule;
    } else {
      var front := schedule + more[..|more| - 1];
      assert all[..|all| - 1] == front;
      SettledStays(schedule, more[..|more| - 1]);
      InvariantHolds(front);
      hide After;
      NextKeepsSettled(After(front), more[|more| - 1]);
    }
  }

  lemma NextKeepsSettled(s: State, a: Action)
    requires Invariant(s) && s.row.Some? && s.row.value.status.Terminal() && Settled(s)
    ensures Settled(Next(s, a)) && Shown(Next(s, a)) == Shown(s)
  {
  }

  /** A continuation that changes a status that is not settled. */
  lemma Upset(schedule: seq<Action>) returns (more: seq<Action>)
    requires var s := After(schedule);
      Invariant(s) && s.row.Some? && s.row.value.status.Terminal() && !Settled(s)
    ensures Shown(After(schedule + more)) != Shown(After(schedule))
  {
    var s := After(schedule);
    hide After;
    var a, b, c := ContinueWith(s);
    var q := Three(schedule, a, b, c);
    more := [a, b, c];
  }

  lemma ContinueWith(s: State) returns (a: Action, b: Action, c: Action)
    requires Invariant(s) && s.row.Some? && s.row.value.status.Terminal() && !Settled(s)
    ensures Shown(Next(Next(Next(s, a), b), c)) != Shown(s)
  {
    if DriverDone(s.driver) {
      var k :| k in s.callers && !s.callers[k].Returned?;
      a, b, c := CancelLookup(k), CancelSignal(k), CancelWrite(k, 0);
    } else if s.driver.MarkedRunning? || s.driver.Executed? {
      a, b, c := Execute(OK), Finish(0), Unregister;
    } else if s.driver.MarkedStarted? {
      a, b, c := MarkRunning(0), MarkRunning(0), MarkRunning(0);
    } else {
      a, b, c := Register, Spawn, MarkStarted(0);
    }
  }

  // ---- what does not hold ----

  const OK := Verdict(M.NoError, "")

  /** A Cancel may run to its end, signal and all, and the run still end as
      succeeded. */
  lemma CancelCanBeLost()
    ensures exists schedule :: var s := After(schedule);
      Quiescent(s) && 0 in s.callers && s.ctxCancelled && s.row.Some? && s.row.value.status == Succeeded
  {
    hide After;
    var p2 := CancelledBeforeStart();
    var p3 := Three(p2, Spawn, MarkStarted(2), MarkRunning(2));
    var p4 := Three(p3, Execute(OK), Finish(3), Unregister);
    assert Quiescent(After(p4));
  }

  /** A Cancel that is over before the goroutine starts. */
  lemma CancelledBeforeStart() returns (p: seq<Action>)
    ensures var s := After(p);
      && s.row.Some? && s.row.value.status == Cancelled && s.driver.Registered? && s.ctxCancelled
      && s.callers.Keys == {0} && s.callers[0].Returned?
  {
    assert After([]) == INITIAL;
    hide After;
    p := Three([], StoreRow, Register, CancelRead(0));
    p := Three(p, CancelLookup(0), CancelSignal(0), CancelWrite(0, 1));
  }

  /** A run that was shown as succeeded may end as cancelled. */
  lemma SucceededCanBeLost()
    ensures exists schedule, more :: var s, t := After(schedule), After(schedule + more);
      && s.row.Some? && s.row.value.status == Succeeded
      && Quiescent(t) && t.row.Some? && t.row.value.status == Cancelled
  {
    var p := SucceededWithCallerInside();
    var q := Three(p, CancelSignal(0), CancelWrite(0, 3), Unregister);
    assert q == p + [CancelSignal(0), CancelWrite(0, 3), Unregister];
    assert Quiescent(After(q));
  }

  lemma SucceededWithCallerInside() returns (p: seq<Action>)
    ensures var s := After(p);
      && s.row.Some? && s.row.value.status == Succeeded && s.driver.Finished?
      && s.callers.Keys == {0} && s.callers[0].LookedUp?
  {
    hide After;
    p := JustExecuted();
    p := Three(p, CancelRead(0), Finish(2), CancelLookup(0));
  }

  lemma JustExecuted() returns (p: seq<Action>)
    ensures var s := After(p);
      && s.row.Some? && s.row.value.status == RunStatus.Running && s.driver == Executed(1, OK)
      && s.callers == map[]
  {
    assert After([]) == INITIAL;
    hide After;
    p := Three([], StoreRow, Register, Spawn);
    assert After(p) == State(Some(NewRow()), true, false, Spawned, map[], {}, false);
    p := Three(p, MarkStarted(1), MarkRunning(1), Execute(OK));
  }

  lemma Three(p: seq<Action>, a: Action, b: Action, c: Action) returns (q: seq<Action>)
    ensures q == p + [a, b, c]
    ensures After(q) == Next(Next(Next(After(p), a), b), c)
  {
    q := p + [a, b, c];
    assert q[..|q| - 1] == p + [a, b];
    assert (p + [a, b])[..|p| + 1] == p + [a];
    assert (p + [a])[..|p|] == p;
    assert After(p + [a]) == Next(After(p), a);
    assert After(p + [a, b]) == Next(After(p + [a]), b);
  }
}
