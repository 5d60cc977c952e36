/** What the step rows show after any interleaving of any number of runs. */
module PipelineRows {
  import opened PipelineModel
  import opened PipelineSteps
  import opened Options

  /** One run seen on its own: private maps keyed by step name alone. */
  datatype RunView = RunView(orders: map<string, int>, rows: map<string, StepRow>)

  const EMPTY_VIEW := RunView(map[], map[])

  function ViewPrimed(orders: map<string, int>, steps: seq<PipelineStep>, n: nat): map<string, int>
    requires n <= |steps|
  {
    if n == 0 then orders else ViewPrimed(orders, steps, n - 1)[steps[n - 1].name := n - 1]
  }

  function ViewStep(pipeline: Option<seq<PipelineStep>>, v: RunView, a: Act): RunView {
    match a
    case Prime(_, steps) => v.(orders := ViewPrimed(v.orders, steps, |steps|))
    case Ensure(_, step) =>
      if step in v.rows then v else
        var order := OrderIn(if step in v.orders then v.orders[step] else -1, pipeline, step);
        if order.None? then v else v.(rows := v.rows[step := PendingRow(order.value)])
    case Update(_, e, now) =>
      if e.step !in v.rows then v else v.(rows := v.rows[e.step := UpdatedRow(v.rows[e.step], e, now)])
  }

  function ViewAfter(pipeline: Option<seq<PipelineStep>>, v: RunView, acts: seq<Act>): RunView {
    if acts == [] then v
    else ViewStep(pipeline, ViewAfter(pipeline, v, acts[..|acts| - 1]), acts[|acts| - 1])
  }

  /** The acts of one run, in order. */
  function ActsOf(acts: seq<Act>, run: string): seq<Act> {
    if acts == [] then [] else
      ActsOf(acts[..|acts| - 1], run) + if acts[|acts| - 1].run == run then [acts[|acts| - 1]] else []
  }

  // ---- invariants of the store ----

  /** The cache and the table are inverse to each other, so no two rows belong
      to the same (run, step). */
  ghost predicate Consistent(db: Db) {
    && (forall id :: id in db.rows ==>
         && id < db.nextId && RunId(db.rows[id].run)
         && CacheKey(db.rows[id].run, db.rows[id].step) in db.cache
         && db.cache[CacheKey(db.rows[id].run, db.rows[id].step)] == id)
    && (forall k :: k in db.cache ==>
         && db.cache[k] in db.rows
         && CacheKey(db.rows[db.cache[k]].run, db.rows[db.cache[k]].step) == k)
  }

  ghost predicate ShowsStep(db: Db, run: string, v: RunView, s: string) {
    && (OrderKey(run, s) in db.orders <==> s in v.orders)
    && (s in v.orders ==> db.orders[OrderKey(run, s)] == v.orders[s])
    && (CacheKey(run, s) in db.cache <==> s in v.rows)
    && (s in v.rows ==>
         && db.cache[CacheKey(run, s)] in db.rows
         && db.rows[db.cache[CacheKey(run, s)]] == StepRun(run, s, v.rows[s]))
  }

  /** The store shows the view v for the run. */
  ghost predicate Shows(db: Db, run: string, v: RunView) {
    forall s :: ShowsStep(db, run, v, s)
  }

  lemma {:induction false} PrimedToShows(orders: map<string, int>, run: string, steps: seq<PipelineStep>, n: nat,
                                         r: string, before: map<string, int>, s: string)
    requires n <= |steps| && RunId(run) && RunId(r)
    requires OrderKey(r, s) in orders <==> s in before
    requires s in before ==> orders[OrderKey(r, s)] == before[s]
    ensures var after := if r == run then ViewPrimed(before, steps, n) else before;
      && (OrderKey(r, s) in PrimedTo(orders, run, steps, n) <==> s in after)
      && (s in after ==> PrimedTo(orders, run, steps, n)[OrderKey(r, s)] == after[s])
  {
    if n > 0 {
      PrimedToShows(orders, run, steps, n - 1, r, before, s);
      KeysInjective(run, steps[n - 1].name, r, s);
    }
  }

  lemma DoKeepsConsistent(db: Db, a: Act)
    requires Consistent(db) && RunId(a.run)
    ensures Consistent(Do(db, a)) && Do(db, a).pipelineOf == db.pipelineOf
  {
    match a
    case Prime(_, _) =>
    case Ensure(run, step) => EnsureKeepsConsistent(db, run, step);
    case Update(run, e, now) =>
      if HasRow(db, run, e.step) { UpdateKeepsConsistent(db, db.cache[CacheKey(run, e.step)], e, now); }
  }

  lemma UpdateKeepsConsistent(db: Db, id: nat, e: StepEvent, now: int)
    requires Consistent(db) && id in db.rows
    ensures Consistent(db.(rows := db.rows[id := Updated(db.rows[id], e, now)]))
  {
    hide CacheKey, RunId;
  }

  /** After ensureStepRun succeeded the row is there. */
  lemma EnsureKeepsConsistent(db: Db, run: string, step: string)
    requires Consistent(db) && RunId(run)
    ensures Consistent(Ensured(db, run, step).0)
    ensures Ensured(db, run, step).1 ==> HasRow(Ensured(db, run, step).0, run, step)
    ensures Ensured(db, run, step).0.pipelineOf == db.pipelineOf
  {
    var db1 := Ensured(db, run, step).0;
    if db1 != db {
      assert db.nextId !in db.rows;
      forall id | id in db1.rows
        ensures CacheKey(db1.rows[id].run, db1.rows[id].step) in db1.cache
        ensures db1.cache[CacheKey(db1.rows[id].run, db1.rows[id].step)] == id
      {
        if id in db.rows {
          assert CacheKey(db.rows[id].run, db.rows[id].step) in db.cache;
        }
      }
    }
  }

  /** An act of the run itself moves its view by one step. */
  lemma OwnActShows(db: Db, a: Act, v: RunView)
    requires Consistent(db) && RunId(a.run) && a.run in db.pipelineOf && Shows(db, a.run, v)
    ensures Shows(Do(db, a), a.run, ViewStep(db.pipelineOf[a.run], v, a))
  {
    var db1 := Do(db, a);
    var v1 := ViewStep(db.pipelineOf[a.run], v, a);
    forall s ensures ShowsStep(db1, a.run, v1, s) {
      assert ShowsStep(db, a.run, v, s);
      match a
      case Prime(run, steps) => PrimedToShows(db.orders, run, steps, |steps|, run, v.orders, s);
      case Ensure(run, step) =>
        assert ShowsStep(db, run, v, step);
        KeysInjective(run, step, run, s);
      case Update(run, e, now) =>
        assert ShowsStep(db, run, v, e.step);
        KeysInjective(run, e.step, run, s);
    }
  }

  /** An act of another run leaves the view alone. */
  lemma OtherActShows(db: Db, a: Act, r: string, v: RunView)
    requires Consistent(db) && RunId(a.run) && RunId(r) && a.run != r && Shows(db, r, v)
    ensures Shows(Do(db, a), r, v)
  {
    var db1 := Do(db, a);
    forall s ensures ShowsStep(db1, r, v, s) {
      assert ShowsStep(db, r, v, s);
      match a
      case Prime(run, steps) => PrimedToShows(db.orders, run, steps, |steps|, r, v.orders, s);
      case Ensure(run, step) => KeysInjective(run, step, r, s);
      case Update(run, e, now) => KeysInjective(run, e.step, r, s);
    }
  }

  ghost predicate KnownRuns(pipelineOf: map<string, Option<seq<PipelineStep>>>, acts: seq<Act>) {
    forall i :: 0 <= i < |acts| ==> RunId(acts[i].run) && acts[i].run in pipelineOf
  }

  /** Runs do not interfere: whatever the interleaving, the store shows for
      every run exactly what that run's own acts would have produced alone. */
  lemma {:induction false} RunsDoNotInterfere(pipelineOf: map<string, Option<seq<PipelineStep>>>, acts: seq<Act>, r: string)
    requires KnownRuns(pipelineOf, acts) && RunId(r) && r in pipelineOf
    ensures Consistent(DoAll(EmptyDb(pipelineOf), acts))
    ensures DoAll(EmptyDb(pipelineOf), acts).pipelineOf == pipelineOf
    ensures Shows(DoAll(EmptyDb(pipelineOf), acts), r, ViewAfter(pipelineOf[r], EMPTY_VIEW, ActsOf(acts, r)))
  {
    if acts == [] {
    } else {
      var front, a := acts[..|acts| - 1], acts[|acts| - 1];
      RunsDoNotInterfere(pipelineOf, front, r);
      var db := DoAll(EmptyDb(pipelineOf), front);
      DoKeepsConsistent(db, a);
      if a.run == r {
        OwnActShows(db, a, ViewAfter(pipelineOf[r], EMPTY_VIEW, ActsOf(front, r)));
        assert (ActsOf(front, r) + [a])[..|ActsOf(front, r)|] == ActsOf(front, r);
      } else {
        OtherActShows(db, a, r, ViewAfter(pipelineOf[r], EMPTY_VIEW, ActsOf(front, r)));
        assert ActsOf(acts, r) == ActsOf(front, r);
      }
    }
  }

  /** A (run, step) has at most one row. */
  lemma OneRowPerStep(db: Db, i: nat, j: nat)
    requires Consistent(db) && i in db.rows && j in db.rows
    requires db.rows[i].run == db.rows[j].run && db.rows[i].step == db.rows[j].step
    ensures i == j
  {
    assert db.cache[CacheKey(db.rows[i].run, db.rows[i].step)] == i;
  }

  // ---- rows of one run ----

  /** The acts of recording events one after another; clock tells when the n-th is
      written. */
  function RecordActs(run: string, es: seq<StepEvent>, clock: nat -> int): seq<Act> {
    if es == [] then [] else
      var last := |es| - 1;
      RecordActs(run, es[..last], clock) + [Ensure(run, es[last].step), Update(run, es[last], clock(last))]
  }

  function LastEvent(es: seq<StepEvent>, s: string): Option<StepEvent> {
    if es == [] then None
    else if es[|es| - 1].step == s then Some(es[|es| - 1])
    else LastEvent(es[..|es| - 1], s)
  }

  lemma {:induction false} LastEventIs(es: seq<StepEvent>, s: string, i: nat)
    requires i < |es| && es[i].step == s
    requires forall q :: i < q < |es| ==> es[q].step != s
    ensures LastEvent(es, s) == Some(es[i])
  {
    if i < |es| - 1 {
      LastEventIs(es[..|es| - 1], s, i);
    }
  }

  lemma {:induction false} NoLastEvent(es: seq<StepEvent>, s: string)
    requires forall q :: 0 <= q < |es| ==> es[q].step != s
    ensures LastEvent(es, s) == None
  {
    if es != [] {
      NoLastEvent(es[..|es| - 1], s);
    }
  }

  /** The primed order of a name is the last index that carries it. */
  lemma {:induction false} PrimedOrder(steps: seq<PipelineStep>, n: nat, j: nat)
    requires n <= |steps| && j < n
    ensures var o := ViewPrimed(map[], steps, n); steps[j].name in o && j <= o[steps[j].name] < n
    ensures steps[ViewPrimed(map[], steps, n)[steps[j].name]].name == steps[j].name
  {
    if j < n - 1 {
      PrimedOrder(steps, n - 1, j);
    }
  }

  /** When the last terminal event of the step was written. */
  function LastFinish(es: seq<StepEvent>, clock: nat -> int, s: string): Option<int> {
    if es == [] then None
    else if es[|es| - 1].step == s && es[|es| - 1].status in {Succeeded, Failed, Cancelled, Skipped} then Some(clock(|es| - 1))
    else LastFinish(es[..|es| - 1], clock, s)
  }

  /** The row of a step, if it has one, after its run recorded es and then perhaps
      ensured the row of one more event. */
  function RowShown(es: seq<StepEvent>, clock: nat -> int, ensured: Option<string>, order: int, s: string): Option<StepRow> {
    match LastEvent(es, s)
    case Some(e) => Some(StepRow(e.status, order, e.exitCode, e.output, LastFinish(es, clock, s)))
    case None => if ensured == Some(s) then Some(StepRow(Pending, order, 0, "", None)) else None
  }

  ghost predicate AllNamed(steps: seq<PipelineStep>, es: seq<StepEvent>) {
    forall i :: 0 <= i < |es| ==> Named(steps, es[i].step)
  }

  ghost predicate Named(steps: seq<PipelineStep>, s: string) { exists j :: 0 <= j < |steps| && steps[j].name == s }

  /** Where a run stands: events recorded, and perhaps one row ensured. */
  function Standing(run: string, steps: seq<PipelineStep>, es: seq<StepEvent>, clock: nat -> int, ensured: Option<string>)
    : seq<Act>
  {
    [Prime(run, steps)] + RecordActs(run, es, clock) + match ensured case None => [] case Some(s) => [Ensure(run, s)]
  }

  lemma NoFinishWithoutEvent(es: seq<StepEvent>, clock: nat -> int, s: string)
    ensures LastEvent(es, s).None? ==> LastFinish(es, clock, s).None?
  {
  }

  ghost predicate ShowsRows(v: RunView, steps: seq<PipelineStep>, es: seq<StepEvent>, clock: nat -> int,
                            ensured: Option<string>, s: string) {
    && v.orders == ViewPrimed(map[], steps, |steps|)
    && (s in v.rows <==> RowShown(es, clock, ensured, 0, s).Some?)
    && (s in v.rows ==> s in v.orders && Some(v.rows[s]) == RowShown(es, clock, ensured, v.orders[s], s))
  }

  lemma NamedIsPrimed(steps: seq<PipelineStep>, s: string)
    requires Named(steps, s)
    ensures var o := ViewPrimed(map[], steps, |steps|); s in o && o[s] >= 0
  {
    var j :| 0 <= j < |steps| && steps[j].name == s;
    PrimedOrder(steps, |steps|, j);
  }

  /** Ensuring and updating, seen by one step. */
  lemma EnsureShows(pipeline: Option<seq<PipelineStep>>, v: RunView, run: string, steps: seq<PipelineStep>,
                    es: seq<StepEvent>, clock: nat -> int, x: string, s: string)
    requires Named(steps, x) && ShowsRows(v, steps, es, clock, None, s) && ShowsRows(v, steps, es, clock, None, x)
    ensures ShowsRows(ViewStep(pipeline, v, Ensure(run, x)), steps, es, clock, Some(x), s)
    ensures x in ViewStep(pipeline, v, Ensure(run, x)).rows
  {
    NamedIsPrimed(steps, x);
  }

  lemma UpdateShows(pipeline: Option<seq<PipelineStep>>, v: RunView, run: string, steps: seq<PipelineStep>,
                    es: seq<StepEvent>, clock: nat -> int, e: StepEvent, s: string)
    requires ShowsRows(v, steps, es, clock, Some(e.step), s) && ShowsRows(v, steps, es, clock, Some(e.step), e.step)
    requires e.step in v.rows
    ensures ShowsRows(ViewStep(pipeline, v, Update(run, e, clock(|es|))), steps, es + [e], clock, None, s)
  {
    assert (es + [e])[..|es|] == es;
    NoFinishWithoutEvent(es, clock, s);
  }

  /** Events of primed steps: each step that got one has one row, with its primed
      order and the data of its last event; a row only ensured reads Pending. */
  lemma {:induction false} ViewOfEvents(pipeline: Option<seq<PipelineStep>>, run: string, steps: seq<PipelineStep>,
                                        es: seq<StepEvent>, clock: nat -> int, ensured: Option<string>, s: string)
    requires AllNamed(steps, es) && (ensured.Some? ==> Named(steps, ensured.value))
    ensures ShowsRows(ViewAfter(pipeline, EMPTY_VIEW, Standing(run, steps, es, clock, ensured)), steps, es, clock, ensured, s)
    decreases |es|, ensured.Some?
  {
    if ensured.Some? {
      var x := ensured.value;
      ViewOfEvents(pipeline, run, steps, es, clock, None, s);
      ViewOfEvents(pipeline, run, steps, es, clock, None, x);
      hide *;
      EnsureStanding(run, steps, es, clock, x);
      ViewSnoc(pipeline, Standing(run, steps, es, clock, None), Ensure(run, x));
      EnsureShows(pipeline, ViewAfter(pipeline, EMPTY_VIEW, Standing(run, steps, es, clock, None)), run, steps, es, clock, x, s);
    } else if es == [] {
      PrimeShows(pipeline, run, steps, clock, s);
    } else {
      var before, e := es[..|es| - 1], es[|es| - 1];
      assert es == before + [e] && Named(steps, e.step);
      ViewOfEvents(pipeline, run, steps, before, clock, Some(e.step), s);
      ViewOfEvents(pipeline, run, steps, before, clock, Some(e.step), e.step);
      ShownIfEnsured(before, clock, e.step);
      var v := ViewAfter(pipeline, EMPTY_VIEW, Standing(run, steps, before, clock, Some(e.step)));
      assert e.step in v.rows;
      hide *;
      RecordsStanding(run, steps, before, e, clock);
      ViewSnoc(pipeline, Standing(run, steps, before, clock, Some(e.step)), Update(run, e, clock(|before|)));
      UpdateShows(pipeline, v, run, steps, before, clock, e, s);
    }
  }

  lemma ShownIfEnsured(es: seq<StepEvent>, clock: nat -> int, s: string)
    ensures RowShown(es, clock, Some(s), 0, s).Some?
  {
  }

  lemma PrimeShows(pipeline: Option<seq<PipelineStep>>, run: string, steps: seq<PipelineStep>, clock: nat -> int, s: string)
    ensures ShowsRows(ViewAfter(pipeline, EMPTY_VIEW, Standing(run, steps, [], clock, None)), steps, [], clock, None, s)
  {
    assert Standing(run, steps, [], clock, None) == [Prime(run, steps)];
    assert [Prime(run, steps)][..0] == [];
    assert ViewAfter(pipeline, EMPTY_VIEW, []) == EMPTY_VIEW;
  }

  lemma EnsureStanding(run: string, steps: seq<PipelineStep>, es: seq<StepEvent>, clock: nat -> int, x: string)
    ensures Standing(run, steps, es, clock, Some(x)) == Standing(run, steps, es, clock, None) + [Ensure(run, x)]
  {
  }

  lemma RecordsStanding(run: string, steps: seq<PipelineStep>, es: seq<StepEvent>, e: StepEvent, clock: nat -> int)
    ensures Standing(run, steps, es + [e], clock, None) ==
            Standing(run, steps, es, clock, Some(e.step)) + [Update(run, e, clock(|es|))]
  {
    assert (es + [e])[..|es|] == es;
  }

  lemma ViewSnoc(pipeline: Option<seq<PipelineStep>>, acts: seq<Act>, a: Act)
    ensures ViewAfter(pipeline, EMPTY_VIEW, acts + [a]) == ViewStep(pipeline, ViewAfter(pipeline, EMPTY_VIEW, acts), a)
  {
    assert (acts + [a])[..|acts|] == acts;
  }

  /** The last event of step j in a play, if it has one. */
  function ClosingEvent(steps: seq<PipelineStep>, p: Play, j: nat): Option<StepEvent>
    requires ValidPlay(steps, p) && j < |steps|
  {
    if j < p.k then Some(p.results[j])
    else match p.ending
      case Completed => None
      case FailedWith(e) => Some(if j == p.k then e else SkippedEvent(steps[j]))
      case CancelledHere(_) => if j == p.k then Some(CancelledEvent(steps[j])) else None
      case Silent(started) => if j == p.k && started then Some(RunningEvent(steps[j])) else None
  }

  /** Where the last event of step j stands. */
  function ClosingAt(p: Play, count: nat, j: nat): int {
    if j < p.k then 2 * j + 1 else if p.ending.FailedWith? then 2 * p.k + 1 + (j - p.k) else count - 1
  }

  lemma ClosingEventAt(steps: seq<PipelineStep>, p: Play, j: nat)
    requires ValidPlay(steps, p) && j < |steps|
    ensures var es := Events(steps, p); var at := ClosingAt(p, |es|, j);
      && (ClosingEvent(steps, p, j).None? ==> forall q: nat :: q < |es| ==> StepAt(p, q) != j)
      && (ClosingEvent(steps, p, j).Some? ==>
           && 0 <= at < |es| && ClosingEvent(steps, p, j) == Some(es[at]) && StepAt(p, at) == j
           && forall q: nat :: at < q < |es| ==> StepAt(p, q) != j)
  {
    var es := Events(steps, p);
    var at := ClosingAt(p, |es|, j);
    if ClosingEvent(steps, p, j).Some? {
      EventAt(steps, p, at);
      if at > 2 * p.k + 1 { EventStep(steps, p, at); }
    }
  }

  lemma LastEventOfStep(steps: seq<PipelineStep>, p: Play, j: nat)
    requires ValidPlay(steps, p) && DistinctNames(steps) && j < |steps|
    ensures LastEvent(Events(steps, p), steps[j].name) == ClosingEvent(steps, p, j)
  {
    var es := Events(steps, p);
    ClosingEventAt(steps, p, j);
    hide ClosingEvent, ClosingAt, Events, ValidPlay, LastEvent, StepAt;
    forall i | 0 <= i < |es|
      ensures es[i].step == steps[j].name <==> StepAt(p, i) == j
    {
      EventStep(steps, p, i);
    }
    if ClosingEvent(steps, p, j).Some? {
      LastEventIs(es, steps[j].name, ClosingAt(p, |es|, j));
    } else {
      NoLastEvent(es, steps[j].name);
    }
  }

  /** The row of a step of the run, if any, is the one its events call for. */
  ghost predicate RunRowIs(db: Db, r: string, steps: seq<PipelineStep>, es: seq<StepEvent>, clock: nat -> int,
                           ensured: Option<string>, s: string) {
    && (RowShown(es, clock, ensured, 0, s).Some? <==> exists id :: id in db.rows && db.rows[id].run == r && db.rows[id].step == s)
    && (forall id :: id in db.rows && db.rows[id].run == r && db.rows[id].step == s ==>
         && s in ViewPrimed(map[], steps, |steps|) && CacheKey(r, s) in db.cache && id == db.cache[CacheKey(r, s)]
         && Some(db.rows[id].row) == RowShown(es, clock, ensured, ViewPrimed(map[], steps, |steps|)[s], s))
  }

  /** While a run is going or once it is over, interleaved with any other runs and
      with its rows read between any two acts: a step has a row in this run exactly
      if it got an event or its row was just ensured; the row is unique, has the
      primed order and shows the last event, Pending if there was none. */
  lemma RowsFollowEvents(pipelineOf: map<string, Option<seq<PipelineStep>>>, acts: seq<Act>, r: string,
                         steps: seq<PipelineStep>, es: seq<StepEvent>, clock: nat -> int, ensured: Option<string>, s: string)
    requires KnownRuns(pipelineOf, acts) && RunId(r) && r in pipelineOf
    requires ActsOf(acts, r) == Standing(r, steps, es, clock, ensured)
    requires AllNamed(steps, es) && (ensured.Some? ==> Named(steps, ensured.value))
    ensures var db := DoAll(EmptyDb(pipelineOf), acts); Consistent(db) && RunRowIs(db, r, steps, es, clock, ensured, s)
  {
    RunsDoNotInterfere(pipelineOf, acts, r);
    ViewOfEvents(pipelineOf[r], r, steps, es, clock, ensured, s);
    var db := DoAll(EmptyDb(pipelineOf), acts);
    var v := ViewAfter(pipelineOf[r], EMPTY_VIEW, ActsOf(acts, r));
    assert ShowsStep(db, r, v, s);
    if s in v.rows {
      var id := db.cache[CacheKey(r, s)];
      assert id in db.rows && db.rows[id].run == r && db.rows[id].step == s;
    }
  }

  /** A row reads Pending exactly between the ensuring and the updating of its first
      event. */
  lemma PendingExactly(es: seq<StepEvent>, clock: nat -> int, ensured: Option<string>, order: int, s: string)
    requires forall i :: 0 <= i < |es| ==> es[i].status != Pending
    ensures var row := RowShown(es, clock, ensured, order, s);
      row.Some? && row.value.status == Pending <==>
        ensured == Some(s) && forall i :: 0 <= i < |es| ==> es[i].step != s
  {
    if LastEvent(es, s).Some? {
      LastEventIsOne(es, s);
    } else {
      NoEventAtAll(es, s);
    }
  }

  lemma {:induction false} LastEventIsOne(es: seq<StepEvent>, s: string)
    ensures LastEvent(es, s).Some? ==> exists i :: 0 <= i < |es| && es[i].step == s && LastEvent(es, s) == Some(es[i])
  {
    if es != [] && es[|es| - 1].step != s {
      LastEventIsOne(es[..|es| - 1], s);
      if LastEvent(es, s).Some? {
        var front := es[..|es| - 1];
        var i :| 0 <= i < |front| && front[i].step == s && LastEvent(front, s) == Some(front[i]);
        assert es[i] == front[i];
      }
    }
  }

  lemma {:induction false} NoEventAtAll(es: seq<StepEvent>, s: string)
    requires LastEvent(es, s).None?
    ensures forall i :: 0 <= i < |es| ==> es[i].step != s
  {
    if es != [] { NoEventAtAll(es[..|es| - 1], s); }
  }

  /** A run that played p, interleaved with any other runs: step j has a row
      exactly if it got an event, with order j and its last event's data, and
      the run has no other rows. */
  lemma RowsOfFinishedRun(pipelineOf: map<string, Option<seq<PipelineStep>>>, acts: seq<Act>, r: string,
                          steps: seq<PipelineStep>, p: Play, clock: nat -> int)
    requires KnownRuns(pipelineOf, acts) && RunId(r) && r in pipelineOf
    requires ValidPlay(steps, p) && DistinctNames(steps)
    requires ActsOf(acts, r) == Standing(r, steps, Events(steps, p), clock, None)
    ensures var db := DoAll(EmptyDb(pipelineOf), acts);
      && Consistent(db)
      && (forall j :: 0 <= j < |steps| ==> RowIs(db, r, j, steps[j].name, ClosingEvent(steps, p, j)))
      && (forall id :: id in db.rows && db.rows[id].run == r ==> Named(steps, db.rows[id].step))
  {
    RunsDoNotInterfere(pipelineOf, acts, r);
    var db := DoAll(EmptyDb(pipelineOf), acts);
    var es := Events(steps, p);
    PlayEventsNamed(steps, p);
    forall j | 0 <= j < |steps| ensures RowIs(db, r, j, steps[j].name, ClosingEvent(steps, p, j)) {
      RowOfStep(db, pipelineOf[r], r, steps, p, clock, j);
    }
    forall id | id in db.rows && db.rows[id].run == r ensures Named(steps, db.rows[id].step) {
      var s := db.rows[id].step;
      assert ShowsStep(db, r, ViewAfter(pipelineOf[r], EMPTY_VIEW, ActsOf(acts, r)), s);
      ViewOfEvents(pipelineOf[r], r, steps, es, clock, None, s);
      LastEventIsOne(es, s);
    }
  }

  lemma PlayEventsNamed(steps: seq<PipelineStep>, p: Play)
    requires ValidPlay(steps, p)
    ensures AllNamed(steps, Events(steps, p))
  {
    var es := Events(steps, p);
    forall i | 0 <= i < |es| ensures Named(steps, es[i].step) {
      EventStep(steps, p, i);
    }
  }

  /** The row of a step shows its last event, or is not there; a terminal row has a
      finish time. */
  ghost predicate RowIs(db: Db, run: string, order: int, step: string, last: Option<StepEvent>) {
    match last
    case None => CacheKey(run, step) !in db.cache
    case Some(e) =>
      && HasRow(db, run, step)
      && var r := db.rows[db.cache[CacheKey(run, step)]];
      && r.run == run && r.step == step
      && r.row == StepRow(e.status, order, e.exitCode, e.output, r.row.finishedAt)
      && (e.status in {Succeeded, Failed, Cancelled, Skipped} ==> r.row.finishedAt.Some?)
  }

  lemma {:induction false} TerminalIsFinished(es: seq<StepEvent>, clock: nat -> int, s: string)
    ensures LastEvent(es, s).Some? && LastEvent(es, s).value.status in {Succeeded, Failed, Cancelled, Skipped} ==>
      LastFinish(es, clock, s).Some?
  {
    if es != [] && es[|es| - 1].step != s { TerminalIsFinished(es[..|es| - 1], clock, s); }
  }

  lemma RowOfStep(db: Db, pipeline: Option<seq<PipelineStep>>, r: string, steps: seq<PipelineStep>, p: Play,
                  clock: nat -> int, j: nat)
    requires ValidPlay(steps, p) && DistinctNames(steps) && j < |steps| && AllNamed(steps, Events(steps, p))
    requires Shows(db, r, ViewAfter(pipeline, EMPTY_VIEW, Standing(r, steps, Events(steps, p), clock, None)))
    ensures RowIs(db, r, j, steps[j].name, ClosingEvent(steps, p, j))
  {
    var es, s := Events(steps, p), steps[j].name;
    ViewOfEvents(pipeline, r, steps, es, clock, None, s);
    LastEventOfStep(steps, p, j);
    PrimedOrder(steps, |steps|, j);
    TerminalIsFinished(es, clock, s);
    hide Events, ValidPlay, ViewAfter, Standing, LastEvent, LastFinish, ClosingEvent;
    assert ShowsStep(db, r, ViewAfter(pipeline, EMPTY_VIEW, Standing(r, steps, es, clock, None)), s);
  }
}
