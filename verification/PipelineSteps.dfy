/** Folding step events into rows: primeStepOrder, ensureStepRun and
    UpdateStepRunStatus over the two process-wide caches and the step-run table.
    The lock is released between ensuring a row and updating it, so these are two
    acts. */
module PipelineSteps {
  import opened Options
  import opened PipelineModel

  // ---- cache keys ----

  /** Run IDs are UUIDs: hexadecimal digits and hyphens. */
  ghost predicate RunId(r: string) {
    '|' !in r && ':' !in r
  }

  function CacheKey(run: string, step: string): string { run + "|" + step }

  function OrderKey(run: string, step: string): string { run + "::order::" + step }

  lemma SeparatorSplits(r1: string, r2: string, sep: string, s1: string, s2: string)
    requires sep != "" && sep[0] !in r1 && sep[0] !in r2
    requires r1 + sep + s1 == r2 + sep + s2
    ensures r1 == r2 && s1 == s2
  {
    var k1, k2 := r1 + sep + s1, r2 + sep + s2;
    assert k1[|r1|] == sep[0] && k2[|r2|] == sep[0];
    assert forall i :: 0 <= i < |r1| ==> k1[i] == r1[i] && r1[i] in r1;
    assert forall i :: 0 <= i < |r2| ==> k2[i] == r2[i] && r2[i] in r2;
    assert |r1| == |r2|;
    assert k1[..|r1|] == r1 && k2[..|r2|] == r2;
    assert k1[|r1| + |sep|..] == s1 && k2[|r2| + |sep|..] == s2;
  }

  lemma KeysInjective(r1: string, s1: string, r2: string, s2: string)
    requires RunId(r1) && RunId(r2)
    ensures CacheKey(r1, s1) == CacheKey(r2, s2) ==> r1 == r2 && s1 == s2
    ensures OrderKey(r1, s1) == OrderKey(r2, s2) ==> r1 == r2 && s1 == s2
  {
    if CacheKey(r1, s1) == CacheKey(r2, s2) { SeparatorSplits(r1, r2, "|", s1, s2); }
    if OrderKey(r1, s1) == OrderKey(r2, s2) { SeparatorSplits(r1, r2, "::order::", s1, s2); }
  }

  // ---- the store ----

  datatype StepRow = StepRow(status: StepStatus, order: int, exitCode: int, output: string, finishedAt: Option<int>)

  function PendingRow(order: int): StepRow { StepRow(Pending, order, 0, "", None) }

  datatype StepRun = StepRun(run: string, step: string, row: StepRow)

  /** pipelineOf[r] is the step list of the pipeline that run r belongs to, None if
      that pipeline is gone; a run missing from it does not exist. Row IDs come from
      a counter. */
  datatype Db = Db(pipelineOf: map<string, Option<seq<PipelineStep>>>,
                   rows: map<nat, StepRun>,
                   cache: map<string, nat>,
                   orders: map<string, int>,
                   nextId: nat)

  datatype Act =
    | Prime(run: string, steps: seq<PipelineStep>)
    | Ensure(run: string, step: string)
    | Update(run: string, event: StepEvent, now: int)

  /** The order cache after steps[..n] of a run were primed. */
  function PrimedTo(orders: map<string, int>, run: string, steps: seq<PipelineStep>, n: nat): map<string, int>
    requires n <= |steps|
  {
    if n == 0 then orders
    else PrimedTo(orders, run, steps, n - 1)[OrderKey(run, steps[n - 1].name) := n - 1]
  }

  /** Index of the first step of that name, or -1. */
  function IndexOf(steps: seq<PipelineStep>, name: string): (i: int)
    ensures -1 <= i < |steps|
    ensures i >= 0 ==> steps[i].name == name && forall j :: 0 <= j < i ==> steps[j].name != name
    ensures i == -1 ==> forall j :: 0 <= j < |steps| ==> steps[j].name != name
  {
    IndexFrom(steps, name, 0)
  }

  function IndexFrom(steps: seq<PipelineStep>, name: string, from: nat): (i: int)
    requires from <= |steps|
    ensures i == -1 || from <= i < |steps|
    ensures i >= 0 ==> steps[i].name == name && forall j :: from <= j < i ==> steps[j].name != name
    ensures i == -1 ==> forall j :: from <= j < |steps| ==> steps[j].name != name
    decreases |steps| - from
  {
    if from == |steps| then -1
    else if steps[from].name == name then from
    else IndexFrom(steps, name, from + 1)
  }

  /** The primed order of a step, or -1. */
  function PrimedFor(db: Db, run: string, step: string): int {
    if OrderKey(run, step) in db.orders then db.orders[OrderKey(run, step)] else -1
  }

  /** The order a new row gets: the primed one, else the place in the pipeline;
      None if that would need a pipeline that is gone. */
  function OrderIn(primed: int, pipeline: Option<seq<PipelineStep>>, step: string): Option<int> {
    if primed >= 0 then Some(primed)
    else match pipeline case None => None case Some(steps) => Some(IndexOf(steps, step))
  }

  /** ensureStepRun; false stands for the error of a run or a pipeline that does not
      exist. */
  function Ensured(db: Db, run: string, step: string): (Db, bool) {
    if CacheKey(run, step) in db.cache then (db, true)
    else if run !in db.pipelineOf then (db, false)
    else match OrderIn(PrimedFor(db, run, step), db.pipelineOf[run], step)
      case None => (db, false)
      case Some(order) =>
        (db.(rows := db.rows[db.nextId := StepRun(run, step, PendingRow(order))],
             cache := db.cache[CacheKey(run, step) := db.nextId],
             nextId := db.nextId + 1), true)
  }

  /** The columns written; the finish time only for a terminal status. */
  function UpdatedRow(r: StepRow, e: StepEvent, now: int): StepRow {
    StepRow(e.status, r.order, e.exitCode, e.output, if e.status.Terminal() then Some(now) else r.finishedAt)
  }

  function Updated(r: StepRun, e: StepEvent, now: int): StepRun { r.(row := UpdatedRow(r.row, e, now)) }

  /** The update of the row that was ensured before, found by its cached ID. */
  predicate HasRow(db: Db, run: string, step: string) {
    CacheKey(run, step) in db.cache && db.cache[CacheKey(run, step)] in db.rows
  }

  function Do(db: Db, a: Act): Db {
    match a
    case Prime(run, steps) => db.(orders := PrimedTo(db.orders, run, steps, |steps|))
    case Ensure(run, step) => Ensured(db, run, step).0
    case Update(run, e, now) =>
      if !HasRow(db, run, e.step) then db else
        var id := db.cache[CacheKey(run, e.step)];
        db.(rows := db.rows[id := Updated(db.rows[id], e, now)])
  }

  /** recordStepEvent with nothing in between. */
  function Record(db: Db, run: string, e: StepEvent, now: int): Db {
    Do(Do(db, Ensure(run, e.step)), Update(run, e, now))
  }

  function DoAll(db: Db, acts: seq<Act>): Db {
    if acts == [] then db else Do(DoAll(db, acts[..|acts| - 1]), acts[|acts| - 1])
  }

  function EmptyDb(pipelineOf: map<string, Option<seq<PipelineStep>>>): Db {
    Db(pipelineOf, map[], map[], map[], 0)
  }

  // ---- the imperative form ----

  /** The service's caches and the step-run table, updated in place. */
  class StepStore {
    var pipelineOf: map<string, Option<seq<PipelineStep>>>
    var rows: map<nat, StepRun>
    var stepRunCache: map<string, nat>
    var stepOrderCache: map<string, int>
    var nextId: nat

    function Contents(): Db
      reads this
    {
      Db(pipelineOf, rows, stepRunCache, stepOrderCache, nextId)
    }

    constructor (pipelineOf: map<string, Option<seq<PipelineStep>>>)
      ensures Contents() == EmptyDb(pipelineOf)
    {
      this.pipelineOf := pipelineOf;
      rows, stepRunCache, stepOrderCache, nextId := map[], map[], map[], 0;
    }

    method PrimeStepOrder(run: string, steps: seq<PipelineStep>)
      modifies this`stepOrderCache
      ensures Contents() == Do(old(Contents()), Prime(run, steps))
    {
      for i := 0 to |steps|
        invariant stepOrderCache == PrimedTo(old(stepOrderCache), run, steps, i)
      {
        stepOrderCache := stepOrderCache[OrderKey(run, steps[i].name) := i];
      }
    }

    method EnsureStepRun(run: string, step: string) returns (id: nat, ok: bool)
      modifies this
      ensures (Contents(), ok) == Ensured(old(Contents()), run, step)
      ensures ok ==> CacheKey(run, step) in stepRunCache && id == stepRunCache[CacheKey(run, step)]
      ensures CacheKey(run, step) in old(stepRunCache) ==> ok && Contents() == old(Contents())
      ensures CacheKey(run, step) !in old(stepRunCache) && ok ==>
        id == old(nextId) && exists order :: rows == old(rows)[id := StepRun(run, step, StepRow(Pending, order, 0, "", None))]
    {
      if CacheKey(run, step) in stepRunCache {
        return stepRunCache[CacheKey(run, step)], true;
      }
      if run !in pipelineOf {
        return 0, false;
      }
      var order := -1;
      if OrderKey(run, step) in stepOrderCache {
        order := stepOrderCache[OrderKey(run, step)];
      }
      if order < 0 {
        if pipelineOf[run].None? {
          return 0, false;
        }
        var p := pipelineOf[run].value;
        order := -1;
        var i := 0;
        while i < |p|
          invariant 0 <= i <= |p|
          invariant order == -1 && forall j :: 0 <= j < i ==> p[j].name != step
        {
          if p[i].name == step {
            order := i;
            break;
          }
          i := i + 1;
        }
      }
      id := nextId;
      rows := rows[id := StepRun(run, step, StepRow(Pending, order, 0, "", None))];
      stepRunCache := stepRunCache[CacheKey(run, step) := id];
      nextId := nextId + 1;
      ok := true;
    }

    method UpdateStepRunStatus(id: nat, status: StepStatus, exitCode: int, output: string, now: int) returns (found: bool)
      modifies this`rows
      ensures found == (id in old(rows))
      ensures found ==>
        var r := old(rows)[id];
        var finishedAt := if status in {Succeeded, Failed, Cancelled, Skipped} then Some(now) else r.row.finishedAt;
        rows == old(rows)[id := StepRun(r.run, r.step, StepRow(status, r.row.order, exitCode, output, finishedAt))]
      ensures !found ==> rows == old(rows)
    {
      if id !in rows {
        return false;
      }
      var r := rows[id];
      var row := StepRow(status, r.row.order, exitCode, output, r.row.finishedAt);
      if status == Succeeded || status == Failed || status == Cancelled || status == Skipped {
        row := row.(finishedAt := Some(now));
      }
      rows := rows[id := StepRun(r.run, r.step, row)];
      return true;
    }

    /** recordStepEvent, undisturbed. */
    method RecordStepEvent(run: string, e: StepEvent, now: int) returns (ok: bool)
      modifies this
      ensures ok == (Ensured(old(Contents()), run, e.step).1 && HasRow(Ensured(old(Contents()), run, e.step).0, run, e.step))
      ensures Contents() == if ok then Record(old(Contents()), run, e, now) else Ensured(old(Contents()), run, e.step).0
    {
      var id;
      id, ok := EnsureStepRun(run, e.step);
      if ok {
        ok := UpdateStepRunStatus(id, e.status, e.exitCode, e.output, now);
      }
    }
  }

  /** The order of a new row: where the step was primed, else its place in the
      pipeline. */
  lemma NewRowOrder(db: Db, run: string, step: string)
    requires CacheKey(run, step) !in db.cache && Ensured(db, run, step).1
    ensures run in db.pipelineOf && db.nextId in Ensured(db, run, step).0.rows
    ensures var order := Ensured(db, run, step).0.rows[db.nextId].row.order;
      var key := run + "::order::" + step;
      if key in db.orders && db.orders[key] >= 0 then order == db.orders[key]
      else db.pipelineOf[run].Some? && order == IndexOf(db.pipelineOf[run].value, step)
  {
  }

  /** There is no new row only for a run that is gone, or a step never primed of a
      pipeline that is. */
  lemma EnsureFails(db: Db, run: string, step: string)
    requires CacheKey(run, step) !in db.cache
    ensures var key := run + "::order::" + step;
      Ensured(db, run, step).1 <==>
        run in db.pipelineOf && (db.pipelineOf[run].Some? || (key in db.orders && db.orders[key] >= 0))
    ensures !Ensured(db, run, step).1 ==> Ensured(db, run, step).0 == db
  {
  }
}
