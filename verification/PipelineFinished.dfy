/** Executor, caches and rows together: any number of runs, each driven by the local
    executor through its emitter, their store acts interleaved in any way. */
module PipelineFinished {
  import opened Options
  import opened PipelineModel
  import opened PipelineSteps
  import opened PipelineRows
  import opened PipelineExecutor

  /** One run as the executor plays it: what it works on, what it met, and the play
      and error that come of it. */
  datatype Driven = Driven(steps: seq<PipelineStep>, env: seq<StepEnv>, max: int, clock: nat -> int,
                           play: Play, err: ExecError)

  const ALWAYS: nat -> bool := n => true

  /** The play is the one of Local.Execute with an emitter that never fails. */
  ghost predicate IsDriven(d: Driven) {
    |d.steps| == |d.env| && IsLocalRun(d.steps, d.env, d.max, ALWAYS, 0, d.play, d.err)
  }

  lemma DrivenIsPlay(d: Driven)
    requires IsDriven(d)
    ensures ValidPlay(d.steps, d.play)
  {
    LocalRunEvents([], d.steps, d.env, d.max, ALWAYS, 0, d.play, d.err);
  }

  /** The acts of the run on the store: priming, then ensuring and updating a row for
      every event. */
  ghost function Script(run: string, d: Driven): seq<Act>
    requires IsDriven(d)
  {
    DrivenIsPlay(d);
    Standing(run, d.steps, Events(d.steps, d.play), d.clock, None)
  }

  /** Runs known to the repository, every one of them following its script, as far
      as it has come. */
  ghost predicate Interleaving(pipelineOf: map<string, Option<seq<PipelineStep>>>, runs: map<string, Driven>, acts: seq<Act>) {
    && (forall r :: r in runs ==> RunId(r) && r in pipelineOf && IsDriven(runs[r]))
    && (forall i :: 0 <= i < |acts| ==> acts[i].run in runs)
    && (forall r :: r in runs ==> IsDriven(runs[r]) && ActsOf(acts, r) <= Script(r, runs[r]))
  }

  // ---- where a run stands ----

  lemma {:induction false} RecordActsLength(run: string, es: seq<StepEvent>, clock: nat -> int)
    ensures |RecordActs(run, es, clock)| == 2 * |es|
  {
    if es != [] { RecordActsLength(run, es[..|es| - 1], clock); }
  }

  /** The acts so far: nothing, or whole events, or whole events and one ensured row. */
  ghost predicate StandsAt(prefix: seq<Act>, run: string, steps: seq<PipelineStep>, es: seq<StepEvent>, clock: nat -> int,
                           m: nat, ensured: Option<string>) {
    && m <= |es| && prefix == Standing(run, steps, es[..m], clock, ensured)
    && (ensured.Some? ==> m < |es| && ensured.value == es[m].step)
  }

  lemma {:induction false} ScriptPrefix(run: string, steps: seq<PipelineStep>, es: seq<StepEvent>, clock: nat -> int, n: nat)
    returns (m: nat, ensured: Option<string>)
    requires 1 <= n <= |Standing(run, steps, es, clock, None)|
    ensures StandsAt(Standing(run, steps, es, clock, None)[..n], run, steps, es, clock, m, ensured)
    ensures n < |Standing(run, steps, es, clock, None)| ==>
      && m < |es|
      && Standing(run, steps, es, clock, None)[n] ==
         if ensured.None? then Ensure(run, es[m].step) else Update(run, es[m], clock(m))
  {
    var all := Standing(run, steps, es, clock, None);
    RecordActsLength(run, es, clock);
    if n == |all| {
      m, ensured := |es|, None;
      assert es[..m] == es && all[..n] == all;
    } else {
      var front, e := es[..|es| - 1], es[|es| - 1];
      assert es == front + [e];
      RecordsStanding(run, steps, front, e, clock);
      var before := Standing(run, steps, front, clock, None);
      RecordActsLength(run, front, clock);
      if n < |before| {
        m, ensured := ScriptPrefix(run, steps, front, clock, n);
        assert all[..n] == before[..n] && all[n] == before[n] && es[..m] == front[..m] && es[m] == front[m];
      } else {
        m := |front|;
        ensured := if n == |before| then None else Some(e.step);
        assert es[..m] == front;
        assert all[..n] == Standing(run, steps, front, clock, ensured);
      }
    }
  }

  lemma NamedPrefix(steps: seq<PipelineStep>, es: seq<StepEvent>, m: nat)
    requires AllNamed(steps, es) && m <= |es|
    ensures AllNamed(steps, es[..m]) && (m < |es| ==> Named(steps, es[m].step))
  {
    forall i | 0 <= i < m ensures Named(steps, es[..m][i].step) {
      assert es[..m][i] == es[i];
    }
  }

  lemma InterleavingKnown(pipelineOf: map<string, Option<seq<PipelineStep>>>, runs: map<string, Driven>, acts: seq<Act>)
    requires Interleaving(pipelineOf, runs, acts)
    ensures KnownRuns(pipelineOf, acts)
  {
  }

  /** At any moment of any interleaving: the rows of a run that has started are those
      of a prefix of its events, and perhaps one more row just ensured, still pending. */
  lemma RowsAtAnyTime(pipelineOf: map<string, Option<seq<PipelineStep>>>, runs: map<string, Driven>, acts: seq<Act>,
                      r: string) returns (m: nat, ensured: Option<string>)
    requires Interleaving(pipelineOf, runs, acts) && r in runs && ActsOf(acts, r) != []
    ensures ValidPlay(runs[r].steps, runs[r].play)
    ensures var d := runs[r]; var es := Events(d.steps, d.play); var db := DoAll(EmptyDb(pipelineOf), acts);
      && m <= |es| && (ensured.Some? ==> m < |es| && ensured.value == es[m].step)
      && Consistent(db)
      && forall s :: RunRowIs(db, r, d.steps, es[..m], d.clock, ensured, s)
  {
    var d := runs[r];
    DrivenIsPlay(d);
    InterleavingKnown(pipelineOf, runs, acts);
    var es := Events(d.steps, d.play);
    var n := |ActsOf(acts, r)|;
    assert Script(r, d)[..n] == ActsOf(acts, r);
    m, ensured := ScriptPrefix(r, d.steps, es, d.clock, n);
    assert KnownRuns(pipelineOf, acts) && RunId(r) && r in pipelineOf;
    PlayEventsNamed(d.steps, d.play);
    NamedPrefix(d.steps, es, m);
    RunsDoNotInterfere(pipelineOf, acts, r);
    hide *;
    forall s ensures RunRowIs(DoAll(EmptyDb(pipelineOf), acts), r, d.steps, es[..m], d.clock, ensured, s) {
      RowsFollowEvents(pipelineOf, acts, r, d.steps, es[..m], d.clock, ensured, s);
    }
  }

  // ---- the emitter never fails ----

  /** The next act of a run, by where it stands. */
  lemma NextAct(pipelineOf: map<string, Option<seq<PipelineStep>>>, runs: map<string, Driven>, front: seq<Act>, a: Act)
    returns (m: nat, ensured: Option<string>)
    requires Interleaving(pipelineOf, runs, front + [a]) && !a.Prime?
    ensures a.run in runs && IsDriven(runs[a.run]) && ValidPlay(runs[a.run].steps, runs[a.run].play)
    ensures var d := runs[a.run]; var es := Events(d.steps, d.play);
      && StandsAt(ActsOf(front, a.run), a.run, d.steps, es, d.clock, m, ensured)
      && m < |es|
      && a == if ensured.None? then Ensure(a.run, es[m].step) else Update(a.run, es[m], d.clock(m))
  {
    var acts, r := front + [a], a.run;
    assert acts[..|front|] == front && acts[|front|] == a;
    var d := runs[r];
    DrivenIsPlay(d);
    var n := |ActsOf(front, r)|;
    assert ActsOf(acts, r) == ActsOf(front, r) + [a];
    var script := Script(r, d);
    assert script[..n] == ActsOf(front, r) && script[n] == a;
    assert script[0] == Prime(r, d.steps);
    m, ensured := ScriptPrefix(r, d.steps, Events(d.steps, d.play), d.clock, n);
  }

  lemma StandingIsServed(pipelineOf: map<string, Option<seq<PipelineStep>>>, front: seq<Act>, r: string,
                         steps: seq<PipelineStep>, es: seq<StepEvent>, clock: nat -> int, m: nat, ensured: Option<string>)
    requires KnownRuns(pipelineOf, front) && RunId(r) && r in pipelineOf && AllNamed(steps, es) && m < |es|
    requires StandsAt(ActsOf(front, r), r, steps, es, clock, m, ensured)
    ensures var db := DoAll(EmptyDb(pipelineOf), front);
      if ensured.None? then Ensured(db, r, es[m].step).1 else HasRow(db, r, es[m].step)
  {
    var s := es[m].step;
    var db := DoAll(EmptyDb(pipelineOf), front);
    NamedPrefix(steps, es, m);
    RunsDoNotInterfere(pipelineOf, front, r);
    ViewOfEvents(pipelineOf[r], r, steps, es[..m], clock, ensured, s);
    NamedIsPrimed(steps, s);
    hide Standing, DoAll, ViewAfter, ActsOf, KnownRuns, RowShown;
    var v := ViewAfter(pipelineOf[r], EMPTY_VIEW, ActsOf(front, r));
    assert ShowsStep(db, r, v, s);
    if ensured.Some? { ShownIfEnsured(es[..m], clock, s); }
  }

  /** In no interleaving does recordStepEvent fail by itself: an ensure finds or makes
      its row, and an update finds the row its ensure left, whatever other runs did in
      between. */
  lemma RecordingNeverFails(pipelineOf: map<string, Option<seq<PipelineStep>>>, runs: map<string, Driven>,
                            front: seq<Act>, a: Act)
    requires Interleaving(pipelineOf, runs, front + [a])
    ensures var db := DoAll(EmptyDb(pipelineOf), front);
      match a
      case Prime(_, _) => true
      case Ensure(r, s) => Ensured(db, r, s).1
      case Update(r, e, _) => HasRow(db, r, e.step)
  {
    if !a.Prime? {
      InterleavingKnown(pipelineOf, runs, front + [a]);
      KnownFront(pipelineOf, front, a);
      var m, ensured := NextAct(pipelineOf, runs, front, a);
      var d := runs[a.run];
      PlayEventsNamed(d.steps, d.play);
      hide *;
      StandingIsServed(pipelineOf, front, a.run, d.steps, Events(d.steps, d.play), d.clock, m, ensured);
    }
  }

  lemma KnownFront(pipelineOf: map<string, Option<seq<PipelineStep>>>, front: seq<Act>, a: Act)
    requires KnownRuns(pipelineOf, front + [a])
    ensures KnownRuns(pipelineOf, front)
  {
    forall i | 0 <= i < |front| ensures RunId(front[i].run) && front[i].run in pipelineOf {
      assert (front + [a])[i] == front[i];
    }
  }

  // ---- what a finished run reads ----

  ghost function StatusOf(db: Db, run: string, step: string): Option<StepStatus> {
    if HasRow(db, run, step) then Some(db.rows[db.cache[CacheKey(run, step)]].row.status) else None
  }

  /** Succeeded up to step k, then by the error: nothing more, or failed and all the
      rest skipped, or cancelled and nothing after it. */
  ghost predicate ReadsFinished(db: Db, run: string, steps: seq<PipelineStep>, k: nat, err: ExecError) {
    && k <= |steps|
    && (forall j :: 0 <= j < k ==> StatusOf(db, run, steps[j].name) == Some(Succeeded))
    && (err.NoError? <==> k == |steps|)
    && (err.Fault? ==>
         && StatusOf(db, run, steps[k].name) == Some(Failed)
         && forall j :: k < j < |steps| ==> StatusOf(db, run, steps[j].name) == Some(Skipped))
    && (err.Canceled? || err.DeadlineExceeded? ==>
         && StatusOf(db, run, steps[k].name) == Some(Cancelled)
         && forall j :: k < j < |steps| ==> StatusOf(db, run, steps[j].name) == None)
  }

  /** With an emitter that never fails the executor ends in one of three ways. */
  lemma DrivenEnding(d: Driven)
    requires IsDriven(d)
    ensures !d.play.ending.Silent?
    ensures d.err.NoError? <==> d.play.ending.Completed?
    ensures d.err.Fault? <==> d.play.ending.FailedWith?
    ensures d.err.Canceled? || d.err.DeadlineExceeded? <==> d.play.ending.CancelledHere?
  {
    if d.play.k < |d.steps| && d.env[d.play.k].ctxErr == NoError {
      var e := Closing(d.steps[d.play.k], d.env[d.play.k].command, d.max);
      assert ALWAYS(2 * d.play.k);
    }
  }

  /** However its acts interleave with those of any other runs: the rows of a finished
      run read succeeded throughout, or succeeded, one failed and the rest skipped, or
      succeeded and one cancelled, as the error of its executor says. */
  lemma FinishedRunReads(pipelineOf: map<string, Option<seq<PipelineStep>>>, runs: map<string, Driven>, acts: seq<Act>, r: string)
    requires Interleaving(pipelineOf, runs, acts) && r in runs
    requires ActsOf(acts, r) == Script(r, runs[r]) && DistinctNames(runs[r].steps)
    ensures ReadsFinished(DoAll(EmptyDb(pipelineOf), acts), r, runs[r].steps, runs[r].play.k, runs[r].err)
    ensures forall j :: 0 <= j < |runs[r].steps| ==> OrderIs(DoAll(EmptyDb(pipelineOf), acts), r, runs[r].steps[j].name, j)
  {
    var d := runs[r];
    var db := DoAll(EmptyDb(pipelineOf), acts);
    DrivenIsPlay(d);
    DrivenEnding(d);
    InterleavingKnown(pipelineOf, runs, acts);
    RowsOfFinishedRun(pipelineOf, acts, r, d.steps, d.play, d.clock);
    hide *;
    forall j | 0 <= j < |d.steps|
      ensures StatusOf(db, r, d.steps[j].name) == ClosingStatus(d.steps, d.play, j) && OrderIs(db, r, d.steps[j].name, j)
    {
      ReadsRow(db, r, j, d.steps[j].name, ClosingEvent(d.steps, d.play, j));
      ClosingStatusIs(d.steps, d.play, j);
    }
    ReadsByClosing(db, r, d);
  }

  ghost predicate OrderIs(db: Db, run: string, step: string, order: int) {
    forall id :: id in db.rows && db.rows[id].run == run && db.rows[id].step == step ==> db.rows[id].row.order == order
  }

  ghost function ClosingStatus(steps: seq<PipelineStep>, p: Play, j: nat): Option<StepStatus>
    requires ValidPlay(steps, p) && j < |steps|
  {
    match ClosingEvent(steps, p, j) case None => None case Some(e) => Some(e.status)
  }

  lemma ClosingStatusIs(steps: seq<PipelineStep>, p: Play, j: nat)
    requires ValidPlay(steps, p) && j < |steps|
    ensures ClosingStatus(steps, p, j) == match ClosingEvent(steps, p, j) { case None => None case Some(e) => Some(e.status) }
  {
  }

  lemma ReadsRow(db: Db, run: string, order: int, step: string, last: Option<StepEvent>)
    requires Consistent(db) && RowIs(db, run, order, step, last)
    ensures StatusOf(db, run, step) == match last { case None => None case Some(e) => Some(e.status) }
    ensures OrderIs(db, run, step, order)
  {
    forall id | id in db.rows && db.rows[id].run == run && db.rows[id].step == step ensures db.rows[id].row.order == order {
      assert CacheKey(db.rows[id].run, db.rows[id].step) in db.cache;
    }
  }

  lemma ReadsByClosing(db: Db, run: string, d: Driven)
    requires IsDriven(d) && ValidPlay(d.steps, d.play)
    requires forall j :: 0 <= j < |d.steps| ==> StatusOf(db, run, d.steps[j].name) == ClosingStatus(d.steps, d.play, j)
    ensures ReadsFinished(db, run, d.steps, d.play.k, d.err)
  {
    DrivenEnding(d);
    hide StatusOf, IsDriven;
  }

  /** The sequential executor follows the script: with an emitter that is always
      served, priming and running it performs exactly the acts of Script. */
  lemma {:induction false} ReplayIsScript(db: Db, run: string, steps: seq<PipelineStep>, es: seq<StepEvent>,
                                          v: Served)
    requires forall n :: 0 <= n < |es| ==> v.accept(n)
    ensures Replay(Do(db, Prime(run, steps)), run, es, v) == DoAll(db, Standing(run, steps, es, v.clock, None))
  {
    var clock := v.clock;
    var acts := Standing(run, steps, es, clock, None);
    if es == [] {
      assert acts == [Prime(run, steps)] && acts[..0] == [];
      assert DoAll(db, []) == db;
    } else {
      var front, e := es[..|es| - 1], es[|es| - 1];
      ReplayIsScript(db, run, steps, front, v);
      assert es == front + [e];
      RecordsStanding(run, steps, front, e, clock);
      var mid := Standing(run, steps, front, clock, Some(e.step));
      assert mid == Standing(run, steps, front, clock, None) + [Ensure(run, e.step)];
      hide Do, Standing;
      DoAllSnoc(db, Standing(run, steps, front, clock, None), Ensure(run, e.step));
      DoAllSnoc(db, mid, Update(run, e, clock(|front|)));
    }
  }

  lemma DoAllSnoc(db: Db, acts: seq<Act>, a: Act)
    ensures DoAll(db, acts + [a]) == Do(DoAll(db, acts), a)
  {
    assert (acts + [a])[..|acts|] == acts;
  }
}
