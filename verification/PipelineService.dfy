/** Trigger, executeRun and Cancel as the service runs them, each uninterrupted. */
module PipelineService {
  import opened Options
  import opened PipelineRuns
  import opened PipelineRows
  import opened PipelineFinished
  import M = PipelineModel
  import E = PipelineExecutor
  import P = PipelineSteps
  import S = PipelineStrategy

  datatype Reply = Accepted | NotFound | InvalidState | Internal

  class Service {
    const repo: Repository
    const store: P.StepStore
    var running: set<string>          // runs whose cancel function is registered
    var cancelled: set<string>        // runs whose context has been cancelled

    /** The step table is consistent and knows the pipeline of every run. */
    ghost predicate Valid()
      reads this, repo, store
    {
      && Consistent(store.Contents())
      && forall r :: r in repo.runs ==> P.RunId(r) && r in store.Contents().pipelineOf
    }

    /** One run as the protocol sees it. */
    ghost function View(id: string, d: Driver): State
      reads this, repo
    {
      State(if id in repo.runs then Some(repo.runs[id]) else None, id in running, id in cancelled, d, map[], {}, false)
    }

    constructor (repo: Repository, store: P.StepStore)
      requires Consistent(store.Contents()) && repo.runs == map[]
      ensures Valid() && this.repo == repo && this.store == store && running == {} && cancelled == {}
    {
      this.repo, this.store := repo, store;
      running, cancelled := {}, {};
    }

    /** Trigger up to the spawn of the goroutine: the first two actions of the
        protocol. p is what loading the pipeline gives; id is the new run's. */
    method Trigger(p: Option<S.Pipeline>, loadFails: bool, enabled: bool, createFails: bool, id: string) returns (r: Reply)
      requires Valid() && P.RunId(id) && id !in repo.runs
      modifies this`running, repo, store
      ensures Valid()
      ensures r == if loadFails then Internal else if p.None? then NotFound else if !enabled then InvalidState
                   else if createFails then Internal else Accepted
      ensures r == Accepted ==>
        && repo.runs == old(repo.runs)[id := RunRow(Pending, None, None, 0, "")] && running == old(running) + {id}
        && store.Contents() == old(store.Contents()).(pipelineOf := old(store.pipelineOf)[id := Some(p.value.steps)])
        && (id !in old(running) ==> View(id, Registered) == Next(Next(old(View(id, Idle)), StoreRow), Register))
      ensures r != Accepted ==>
        repo.runs == old(repo.runs) && running == old(running) && store.Contents() == old(store.Contents())
    {
      if loadFails { return Internal; }
      if p.None? { return NotFound; }
      if !enabled { return InvalidState; }
      if createFails { return Internal; }
      repo.CreateRun(id);
      store.pipelineOf := store.pipelineOf[id := Some(p.value.steps)];
      running := running + {id};
      return Accepted;
    }

    /** executeRun: the writes of the run row, the order cache primed, and the executor
        run with recordStepEvent as its emitter, so the step rows are those of its
        events. A run whose row is gone does nothing. */
    method ExecuteRun(p: S.Pipeline, id: string, max: int, env: seq<E.StepEnv>, served: E.Served,
                      msg: string, t0: int, t1: int, t2: int) returns (err: M.ExecError, ghost play: M.Play)
      requires Valid() && |env| == |S.ResolvedSteps(p)|
      modifies this`running, repo, store
      ensures Valid() && running == old(running) - {id}
      ensures id !in old(repo.runs) ==> repo.runs == old(repo.runs) && store.Contents() == old(store.Contents())
      ensures id in old(repo.runs) ==> repo.runs == old(repo.runs)[id := ExecutedRow(Verdict(err, msg), t0, t2)]
      ensures id in old(repo.runs) ==>
        Recorded(old(store.Contents()), store.Contents(), id, S.ResolvedSteps(p), env, max, served, play, err)
    {
      hide Consistent, Recorded, S.ResolvedSteps, TruncateMsg, FinalStatus, WithStatus, WithStarted;
      err, play := M.NoError, M.Play(0, [], M.Completed);
      ghost var before := repo.runs;
      var found := repo.UpdateRunStartedAt(id, t0);
      if found {
        RowWrites(before, id, t0, t1);
        found := repo.UpdateRunStatus(id, RunStatus.Running, 0, "", t1);
        err, play := ExecuteSteps(p, id, max, env, served);
        FinishRun(id, err, msg, t2 - t0, t2);
        assert repo.runs == before[id := ExecutedRow(Verdict(err, msg), t0, t2)];
      }
      running := running - {id};
    }

    /** The part of executeRun on the step rows. */
    method ExecuteSteps(p: S.Pipeline, id: string, max: int, env: seq<E.StepEnv>, served: E.Served)
      returns (err: M.ExecError, ghost play: M.Play)
      requires Consistent(store.Contents()) && P.RunId(id) && id in store.Contents().pipelineOf && |env| == |S.ResolvedSteps(p)|
      modifies store
      ensures Consistent(store.Contents()) && store.Contents().pipelineOf == old(store.Contents().pipelineOf)
      ensures Recorded(old(store.Contents()), store.Contents(), id, S.ResolvedSteps(p), env, max, served, play, err)
    {
      hide *;
      ghost var before := store.Contents();
      var steps := S.ResolveSteps(p);
      PrimedIsReady(before, id, steps);
      store.PrimeStepOrder(id, steps);
      var sink := new E.EventSink(store, id, served);
      err, play := E.LocalExecute(max, steps, env, sink);
      RecordedBy(before, sink, steps, env, max, play, err);
    }

    method FinishRun(id: string, err: M.ExecError, msg: string, durationMs: int, now: int)
      requires id in repo.runs
      modifies repo
      ensures repo.runs == old(repo.runs)[id := RunRow(FinalStatus(err), old(repo.runs)[id].startedAt, Some(now), durationMs,
                             if err.NoError? || err.Canceled? then "" else TruncateMsg(msg))]
    {
      var found;
      match err {
        case Canceled => found := repo.UpdateRunFinished(id, Cancelled, durationMs, "", now);
        case NoError => found := repo.UpdateRunFinished(id, Succeeded, durationMs, "", now);
        case _ => found := repo.UpdateRunFinished(id, Failed, durationMs, TruncateMsg(msg), now);
      }
    }

    /** Cancel: the four actions of the protocol in sequence, on whatever driver; no
        other run and no step row is touched. */
    method Cancel(id: string, now: int, ghost d: Driver) returns (r: Reply)
      requires Valid()
      modifies this`cancelled, repo
      ensures Valid()
      ensures r == if id in old(repo.runs) then Accepted else NotFound
      ensures SameRun(View(id, d), Cancelling(old(View(id, d)), 0, now))
      ensures id in old(repo.runs) ==>
        var run := old(repo.runs)[id];
        if run.status in {RunStatus.Succeeded, RunStatus.Failed, RunStatus.Cancelled} then
          repo.runs[id] == run && cancelled == old(cancelled)
        else
          && repo.runs[id] == RunRow(RunStatus.Cancelled, run.startedAt, Some(now),
                                     if run.startedAt.Some? then now - run.startedAt.value else 0, "")
          && cancelled == if id in running then old(cancelled) + {id} else old(cancelled)
      ensures repo.runs.Keys == old(repo.runs).Keys && old(cancelled) <= cancelled <= old(cancelled) + {id}
      ensures forall k :: k in repo.runs && k != id ==> repo.runs[k] == old(repo.runs)[k]
    {
      hide Consistent, Next, Cancelling;
      CancellingIs(View(id, d), now);
      if id !in repo.runs { return NotFound; }
      var run := repo.runs[id];
      if run.status.Terminal() { return Accepted; }
      if id in running {
        cancelled := cancelled + {id};
      }
      var durationMs := if run.startedAt.Some? then now - run.startedAt.value else 0;
      var _ := repo.UpdateRunFinished(id, Cancelled, durationMs, "", now);
      return Accepted;
    }
  }

  /** The same row, registration and context. */
  ghost predicate SameRun(s: State, t: State) {
    s.row == t.row && s.registered == t.registered && s.ctxCancelled == t.ctxCancelled
  }

  function ExecutedRow(v: Verdict, t0: int, t2: int): RunRow {
    RunRow(FinalStatus(v.err), Some(t0), Some(t2), t2 - t0, if v.err.NoError? || v.err.Canceled? then "" else TruncateMsg(v.msg))
  }

  /** The run row that executeRun leaves, field by field. */
  lemma ExecutedRowIs(v: Verdict, t0: int, t2: int)
    ensures var r := ExecutedRow(v, t0, t2);
      && (r.status == Succeeded <==> v.err == M.NoError)
      && (r.status == Cancelled <==> v.err == M.Canceled)
      && (r.status == Failed <==> v.err == M.DeadlineExceeded || v.err == M.Fault)
      && r.startedAt == Some(t0) && r.finishedAt == Some(t2) && r.durationMs == t2 - t0
      && (r.status != Failed ==> r.errorMessage == "")
      && (r.status == Failed ==>
           r.errorMessage <= v.msg && |r.errorMessage| == if |v.msg| < 1024 then |v.msg| else 1024)
  {
  }

  lemma RowWrites(runs: map<string, RunRow>, id: string, t0: int, t1: int)
    requires id in runs
    ensures WithStatus(WithStarted(runs[id], t0), RunStatus.Running, 0, "", t1).startedAt == Some(t0)
  {
  }

  /** What a Cancel with nothing in between comes to. */
  lemma CancellingIs(s: State, now: int)
    requires s.callers == map[]
    ensures SameRun(Cancelling(s, 0, now),
      if s.row.None? || s.row.value.status.Terminal() then s else
        var read := s.row.value;
        s.(ctxCancelled := s.ctxCancelled || s.registered,
           row := Some(RunRow(Cancelled, read.startedAt, Some(now),
                              if read.startedAt.Some? then now - read.startedAt.value else 0, ""))))
  {
  }

  /** The run row of executeRun is the one its five actions of the protocol leave. */
  lemma ExecutedAlone(s: State, t0: int, t1: int, v: Verdict, t2: int)
    requires s.row.Some? && s.driver.Spawned? && (v.err.Canceled? ==> s.ctxCancelled)
    ensures var t := Executing(s, t0, t1, v, t2);
      t.driver == Unregistered(v) && t.row == Some(ExecutedRow(v, t0, t2)) && !t.registered && t.ctxCancelled == s.ctxCancelled
  {
    hide TruncateMsg;
  }

  /** The step rows are the old ones with the run primed and its events recorded, as
      far as the repository served the emitter. */
  ghost predicate Recorded(before: P.Db, after: P.Db, id: string, steps: seq<M.PipelineStep>, env: seq<E.StepEnv>, max: int,
                           served: E.Served, play: M.Play, err: M.ExecError) {
    && |steps| == |env| && E.IsLocalRun(steps, env, max, served.accept, 0, play, err) && M.ValidPlay(steps, play)
    && after == E.Replay(P.Do(before, P.Prime(id, steps)), id, M.Events(steps, play), served)
  }

  lemma {:induction false} PrimedAll(orders: map<string, int>, run: string, steps: seq<M.PipelineStep>, n: nat, j: nat)
    requires j < n <= |steps|
    ensures var key := P.OrderKey(run, steps[j].name);
      key in P.PrimedTo(orders, run, steps, n) && P.PrimedTo(orders, run, steps, n)[key] >= 0
  {
    if j < n - 1 { PrimedAll(orders, run, steps, n - 1, j); }
  }

  lemma PrimedIsReady(db: P.Db, id: string, steps: seq<M.PipelineStep>)
    requires Consistent(db) && P.RunId(id) && id in db.pipelineOf
    ensures Consistent(P.Do(db, P.Prime(id, steps))) && E.ReadyAll(P.Do(db, P.Prime(id, steps)), id, steps)
    ensures P.Do(db, P.Prime(id, steps)).pipelineOf == db.pipelineOf
  {
    DoKeepsConsistent(db, P.Prime(id, steps));
    forall j | 0 <= j < |steps| ensures E.Ready(P.Do(db, P.Prime(id, steps)), id, steps[j].name) {
      PrimedAll(db.orders, id, steps, |steps|, j);
    }
  }

  lemma RecordedBy(before: P.Db, sink: E.EventSink, steps: seq<M.PipelineStep>, env: seq<E.StepEnv>, max: int,
                   play: M.Play, err: M.ExecError)
    requires |steps| == |env| && sink.Valid() && sink.base == P.Do(before, P.Prime(sink.run, steps))
    requires E.IsLocalRun(steps, env, max, sink.accept, 0, play, err) && M.ValidPlay(steps, play)
    requires sink.calls == [] + M.Events(steps, play) && Consistent(sink.base)
    ensures Consistent(sink.store.Contents()) && sink.store.Contents().pipelineOf == sink.base.pipelineOf
    ensures Recorded(before, sink.store.Contents(), sink.run, steps, env, max, sink.served, play, err)
  {
    assert [] + M.Events(steps, play) == M.Events(steps, play);
    E.ReplayKeeps(sink.base, sink.run, sink.calls, sink.served);
  }

  /** With a repository that serves every call, executeRun performs exactly the acts of
      the run's script, so all that holds of scripts in any interleaving holds of it. */
  lemma RecordedIsScript(before: P.Db, after: P.Db, id: string, d: Driven, served: E.Served)
    requires Recorded(before, after, id, d.steps, d.env, d.max, served, d.play, d.err) && served.clock == d.clock
    requires forall n :: served.accept(n)
    ensures IsDriven(d) && after == P.DoAll(before, Script(id, d))
  {
    hide E.Closing, E.Replay, M.Events, P.DoAll, P.Do, M.ValidPlay;
    assert forall j :: 0 <= j < |d.steps| ==>
      E.Passes(d.steps, d.env, d.max, served.accept, 0, j) == E.Passes(d.steps, d.env, d.max, ALWAYS, 0, j);
    ReplayIsScript(before, id, d.steps, M.Events(d.steps, d.play), served);
  }

  /** The final status of the run row and the rows of its steps agree. */
  lemma VerdictAgreesWithRows(db: P.Db, id: string, steps: seq<M.PipelineStep>, k: nat, err: M.ExecError)
    requires ReadsFinished(db, id, steps, k, err)
    ensures FinalStatus(err) == Succeeded <==>
      forall j :: 0 <= j < |steps| ==> StatusOf(db, id, steps[j].name) == Some(M.Succeeded)
    ensures FinalStatus(err) == Cancelled ==>
      exists j :: 0 <= j < |steps| && StatusOf(db, id, steps[j].name) == Some(M.Cancelled)
    ensures FinalStatus(err) == Failed ==>
      exists j :: 0 <= j < |steps| && StatusOf(db, id, steps[j].name) in {Some(M.Failed), Some(M.Cancelled)}
  {
    if !err.NoError? {
      assert k < |steps| && StatusOf(db, id, steps[k].name) != Some(M.Succeeded);
    }
  }

  // ---- planned steps run their commands ----

  /** Every planned step has a command to run, whatever the strategy and its config. */
  lemma PlannedStepHasCommand(p: S.Pipeline, k: nat)
    requires k < |S.PlannedPhases(p)|
    ensures k < |S.ResolvedSteps(p)|
    ensures var st := S.ResolvedSteps(p)[k]; st.kind == M.Shell && E.HasCommand(st)
  {
    S.FirstStep(p, k);
    var c := S.PlannedPhases(p)[k].command;
    assert c != "" && E.NotWhite(c[0]);
    hide S.ResolvedSteps, S.PlannedPhases;
    assert S.ResolvedSteps(p)[k].config["cmd"].text == c;
  }

  /** So its closing event is its command's answer: succeeded exactly on a clean exit. */
  lemma PlannedStepReports(p: S.Pipeline, k: nat, answer: E.ShellResult, max: int)
    requires k < |S.PlannedPhases(p)|
    ensures k < |S.ResolvedSteps(p)|
    ensures var st := S.ResolvedSteps(p)[k]; var e := E.Closing(st, answer, max);
      && e.step == S.PlannedPhases(p)[k].name
      && (e.status == M.Succeeded <==> answer.err == M.NoError && answer.exitCode == 0)
      && (e.status == M.Cancelled <==> answer.err == M.Canceled || answer.err == M.DeadlineExceeded)
      && (e.status == M.Failed ==> e.exitCode == answer.exitCode && E.CappedTo(e.output, answer.output, max))
  {
    S.FirstStep(p, k);
    PlannedStepHasCommand(p, k);
    E.ClosingReports(S.ResolvedSteps(p)[k], answer, max);
    hide S.ResolvedSteps, S.PlannedPhases, E.Closing, E.HasCommand, E.CappedTo;
  }
}
