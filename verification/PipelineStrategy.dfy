/** The deployment-strategy planners, and what their plans mean once the
    executor runs them in front of the user's steps. */
module PipelineStrategy {
  import opened PipelineModel
  import opened Decimal
  import opened Integers

  datatype Phase = Phase(name: string, env: string, trafficPct: int, command: string, healthcheck: string)

  datatype BlueGreenConfig = BlueGreenConfig(activeEnv: string, inactiveEnv: string)
  datatype CanaryConfig = CanaryConfig(baseline: string, candidate: string, stages: seq<int>, healthcheck: string)
  datatype RollingConfig = RollingConfig(totalInstances: int, maxSurgePct: int)

  /** The strategy column; an unrecognised value is kept. */
  datatype Strategy = NoStrategy | BlueGreen | Canary | Rolling | Unknown(name: string)

  datatype Pipeline = Pipeline(strategy: Strategy, blueGreen: BlueGreenConfig, canary: CanaryConfig,
                               rolling: RollingConfig, steps: seq<PipelineStep>)

  // ---- blue-green ----

  function BlueGreenPlan(c: BlueGreenConfig): seq<Phase> {
    [Phase("deploy-inactive", c.inactiveEnv, 0, "deploy.sh " + c.inactiveEnv, ""),
     Phase("smoke-inactive", c.inactiveEnv, 0, "smoke.sh " + c.inactiveEnv, "/healthz"),
     Phase("switch-traffic", c.inactiveEnv, 0, "traffic-switch.sh " + c.activeEnv + " " + c.inactiveEnv, ""),
     Phase("decommission", c.activeEnv, 0, "teardown.sh " + c.activeEnv, "")]
  }

  // ---- canary ----

  ghost predicate StrictlyAscending(s: seq<int>) {
    forall i, j :: 0 <= i < j < |s| ==> s[i] < s[j]
  }

  function StagePhase(c: CanaryConfig, pct: int): Phase {
    Phase("canary-" + Show(pct) + "%", c.candidate, pct,
          "traffic-shift.sh " + Show(pct) + " " + c.candidate, c.healthcheck)
  }

  function DeployPhase(c: CanaryConfig): Phase {
    Phase("deploy-candidate", c.candidate, 0, "deploy.sh " + c.candidate, "")
  }

  ghost function CanaryPhases(c: CanaryConfig): seq<Phase> {
    [DeployPhase(c)] + seq(|c.stages|, i requires 0 <= i < |c.stages| => StagePhase(c, c.stages[i]))
  }

  /** NewCanaryStrategyValidate: comparing neighbours decides strict ascent. */
  method ValidateCanary(c: CanaryConfig) returns (ok: bool)
    ensures ok <==> c.stages != [] && StrictlyAscending(c.stages)
  {
    var i := 1;
    while i < |c.stages|
      invariant 1 <= i && (i <= |c.stages| || c.stages == [])
      invariant i <= |c.stages| ==> StrictlyAscending(c.stages[..i])
    {
      if c.stages[i] <= c.stages[i - 1] {
        assert !StrictlyAscending(c.stages);
        return false;
      }
      assert forall k :: 0 <= k < i ==> c.stages[k] <= c.stages[..i][i - 1];
      i := i + 1;
    }
    if |c.stages| == 0 {
      return false;
    }
    assert c.stages[..|c.stages|] == c.stages;
    return true;
  }

  method CanaryPlan(c: CanaryConfig) returns (phases: seq<Phase>)
    ensures phases == CanaryPhases(c)
  {
    hide StagePhase, DeployPhase;
    phases := [DeployPhase(c)];
    assert |CanaryPhases(c)| == |c.stages| + 1 && CanaryPhases(c)[0] == DeployPhase(c);
    for i := 0 to |c.stages|
      invariant phases == CanaryPhases(c)[..i + 1]
    {
      assert CanaryPhases(c)[i + 1] == StagePhase(c, c.stages[i]);
      hide CanaryPhases;
      phases := phases + [StagePhase(c, c.stages[i])];
    }
  }

  // ---- rolling ----

  /** Ceiling division, standing for math.Ceil on the float quotient. */
  function CeilDiv(a: int, b: int): int
    requires b > 0
  {
    (a + b - 1) / b
  }

  lemma CeilDivBounds(a: int, b: int)
    requires b > 0
    ensures (CeilDiv(a, b) - 1) * b < a <= CeilDiv(a, b) * b
  {
  }

  function SurgePct(c: RollingConfig): int { if c.maxSurgePct <= 0 then 20 else c.maxSurgePct }

  function BatchSize(c: RollingConfig): (size: int)
    ensures size >= 1
  {
    var size := CeilDiv(c.totalInstances * SurgePct(c), 100);
    if size <= 0 then 1 else size
  }

  /** Batch k covers the instances after BatchStart(k), up to BatchEnd(k). */
  function BatchStart(size: int, k: nat): int {
    if k == 0 then 0 else BatchStart(size, k - 1) + size
  }

  function BatchEnd(total: int, size: int, k: nat): int { Min(BatchStart(size, k) + size, total) }

  function BatchCount(total: int, size: int): nat
    requires size >= 1
    decreases total
  {
    if total <= 0 then 0 else 1 + BatchCount(total - size, size)
  }

  function RollingPhase(number: int, first: int, last: int, total: int): Phase {
    Phase("rolling-batch-" + Show(number), "production", 0,
          "rolling-update.sh " + Show(first) + "-" + Show(last) + "/" + Show(total), "")
  }

  function BatchPhase(total: int, size: int, k: nat): Phase {
    RollingPhase(k + 1, BatchStart(size, k) + 1, BatchEnd(total, size, k), total)
  }

  ghost function BatchPhases(total: int, size: int): seq<Phase>
    requires size >= 1
  {
    seq(BatchCount(total, size), k requires 0 <= k => BatchPhase(total, size, k))
  }

  ghost function RollingPhases(c: RollingConfig): seq<Phase> {
    BatchPhases(c.totalInstances, BatchSize(c))
  }

  lemma {:induction false} StartIsProduct(size: int, k: nat)
    ensures BatchStart(size, k) == k * size
  {
    if k > 0 {
      StartIsProduct(size, k - 1);
      assert k * size == (k - 1) * size + size;
    }
  }

  lemma MulMonotone(a: int, b: int, c: int)
    requires a <= b && c >= 0
    ensures a * c <= b * c
  {
  }

  lemma StartMonotone(size: int, j: nat, k: nat)
    requires size >= 0 && j <= k
    ensures BatchStart(size, j) <= BatchStart(size, k)
  {
    StartIsProduct(size, j);
    StartIsProduct(size, k);
    MulMonotone(j, k, size);
  }

  /** Batch k starts inside the fleet exactly if k is below the batch count. */
  lemma {:induction false} BatchExists(total: int, size: int, k: nat)
    requires size >= 1 && total > 0
    ensures BatchStart(size, k) < total <==> k < BatchCount(total, size)
    decreases k
  {
    if k > 0 {
      StartMonotone(size, 0, k - 1);
      if total - size > 0 { BatchExists(total - size, size, k - 1); }
    }
  }

  /** The batch count is ceil(N / size). */
  lemma CountIsCeiling(total: int, size: int)
    requires size >= 1 && total > 0
    ensures BatchCount(total, size) == CeilDiv(total, size)
  {
    var q := CeilDiv(total, size);
    CeilDivBounds(total, size);
    if q < 1 { MulMonotone(q, 0, size); }
    StartIsProduct(size, q);
    StartIsProduct(size, q - 1);
    BatchExists(total, size, q);
    BatchExists(total, size, q - 1);
  }

  /** RollingStrategy.Plan. */
  method RollingPlan(c: RollingConfig) returns (phases: seq<Phase>)
    ensures phases == RollingPhases(c)
  {
    phases := PlanBatches(c.totalInstances, BatchSize(c));
  }

  /** The loop of the rolling planner; it ends because every batch is
      non-empty. */
  method PlanBatches(total: int, size: int) returns (phases: seq<Phase>)
    requires size >= 1
    ensures phases == BatchPhases(total, size)
  {
    hide RollingPhase;
    phases := [];
    var done := 0;
    var batchNum := 0;
    while done < total
      invariant 0 <= batchNum == |phases| <= BatchCount(total, size)
      invariant phases == BatchPhases(total, size)[..batchNum]
      invariant done == if total <= 0 then 0 else Min(BatchStart(size, batchNum), total)
      decreases total - done
    {
      BatchExists(total, size, batchNum);
      batchNum := batchNum + 1;
      var end := done + size;
      if end > total {
        end := total;
      }
      phases := phases + [RollingPhase(batchNum, done + 1, end, total)];
      done := end;
    }
    if total > 0 {
      BatchExists(total, size, batchNum);
    }
  }

  lemma {:induction false} HoldingBatch(size: int, i: int, k: nat) returns (m: nat)
    requires size >= 1 && 1 <= i <= BatchStart(size, k)
    ensures m < k && BatchStart(size, m) < i <= BatchStart(size, m) + size
  {
    if i > BatchStart(size, k - 1) {
      m := k - 1;
    } else {
      m := HoldingBatch(size, i, k - 1);
    }
  }

  /** Every instance is in exactly one batch. */
  lemma BatchesPartition(c: RollingConfig, i: int)
    requires 1 <= i <= c.totalInstances
    ensures exists k: nat :: k < BatchCount(c.totalInstances, BatchSize(c)) && InBatch(c, k, i)
    ensures forall k: nat, m: nat :: InBatch(c, k, i) && InBatch(c, m, i) ==> k == m
  {
    var total, size := c.totalInstances, BatchSize(c);
    var n := BatchCount(total, size);
    BatchExists(total, size, n);
    var k := HoldingBatch(size, i, n);
    assert InBatch(c, k, i);
    forall k: nat, m: nat | InBatch(c, k, i) && InBatch(c, m, i)
      ensures k == m
    {
      if m < k { StartMonotone(size, m + 1, k); }
      if k < m { StartMonotone(size, k + 1, m); }
    }
  }

  ghost predicate InBatch(c: RollingConfig, k: nat, i: int) {
    BatchStart(BatchSize(c), k) < i <= BatchEnd(c.totalInstances, BatchSize(c), k)
  }

  /** Batches follow each other without a gap, none is empty, all but the last
      have the full size, the last ends at N, and there are at most
      ceil(100 / pct) of them. */
  lemma BatchShapes(c: RollingConfig, k: nat)
    requires k < BatchCount(c.totalInstances, BatchSize(c))
    ensures var total, size, n := c.totalInstances, BatchSize(c), BatchCount(c.totalInstances, BatchSize(c));
      && BatchStart(size, k) < BatchEnd(total, size, k) <= BatchStart(size, k) + size
      && size == CeilDiv(total * SurgePct(c), 100)
      && (k + 1 < n ==> BatchEnd(total, size, k) == BatchStart(size, k) + size == BatchStart(size, k + 1))
      && (k + 1 == n ==> BatchEnd(total, size, k) == total)
      && n == CeilDiv(total, size) <= CeilDiv(100, SurgePct(c))
  {
    CountIsCeiling(c.totalInstances, BatchSize(c));
    var total, size, pct := c.totalInstances, BatchSize(c), SurgePct(c);
    var n, bound := BatchCount(total, size), CeilDiv(100, pct);
    BatchExists(total, size, k);
    BatchExists(total, size, k + 1);
    assert total * pct >= 1 by { MulMonotone(1, total, pct); }
    CeilDivBounds(100, pct);
    CeilDivBounds(total * pct, 100);
    if bound < 1 { MulMonotone(bound, 0, pct); }
    BatchBound(total, pct, size, bound);
    StartIsProduct(size, bound);
    BatchExists(total, size, bound);
  }

  lemma BatchBound(total: int, pct: int, size: int, bound: int)
    requires total >= 1 && pct >= 1 && bound >= 1
    requires total * pct <= size * 100 && 100 <= bound * pct
    ensures total <= bound * size
  {
    // 100 * total <= bound * pct * total <= bound * size * 100
    MulMonotone(100, bound * pct, total);
    assert bound * pct * total == bound * (total * pct);
    MulMonotone(total * pct, size * 100, bound);
    assert bound * (total * pct) == (total * pct) * bound;
    assert (size * 100) * bound == 100 * (bound * size);
  }

  // ---- from plan to steps ----

  ghost function PlannedPhases(p: Pipeline): seq<Phase> {
    match p.strategy
    case BlueGreen => BlueGreenPlan(p.blueGreen)
    case Canary => CanaryPhases(p.canary)
    case Rolling => RollingPhases(p.rolling)
    case _ => []
  }

  function PhaseToStep(ph: Phase): PipelineStep {
    PipelineStep(ph.name, Shell,
                 map["cmd" := Text(ph.command), "phase" := Text(ph.name),
                     "traffic" := Number(ph.trafficPct), "health" := Text(ph.healthcheck)])
  }

  ghost function PhaseSteps(phases: seq<Phase>): seq<PipelineStep> {
    seq(|phases|, i requires 0 <= i < |phases| => PhaseToStep(phases[i]))
  }

  ghost function ResolvedSteps(p: Pipeline): seq<PipelineStep> {
    PhaseSteps(PlannedPhases(p)) + p.steps
  }

  /** PlanForPipeline; an unknown strategy is an error. */
  method PlanForPipeline(p: Pipeline) returns (phases: seq<Phase>, ok: bool)
    ensures phases == PlannedPhases(p)
    ensures ok <==> !p.strategy.Unknown?
    ensures !ok ==> phases == []
  {
    ok := true;
    match p.strategy {
      case NoStrategy => phases := [];
      case BlueGreen => phases := BlueGreenPlan(p.blueGreen);
      case Canary => phases := CanaryPlan(p.canary);
      case Rolling => phases := RollingPlan(p.rolling);
      case Unknown(_) => phases, ok := [], false;
    }
  }

  /** resolveSteps: phases first, then the user's steps; without a plan, the
      user's steps alone. */
  method ResolveSteps(p: Pipeline) returns (steps: seq<PipelineStep>)
    ensures steps == ResolvedSteps(p)
  {
    hide PlannedPhases, PhaseToStep;
    var phases, ok := PlanForPipeline(p);
    if !ok || |phases| == 0 {
      assert PhaseSteps(phases) + p.steps == p.steps;
      return p.steps;
    }
    steps := [];
    for i := 0 to |phases|
      invariant steps == PhaseSteps(phases)[..i]
    {
      steps := steps + [PhaseToStep(phases[i])];
    }
    steps := steps + p.steps;
  }

  // ---- gating ----

  lemma TextAround(prefix: string, a: string, b: string, suffix: string)
    requires prefix + a + suffix == prefix + b + suffix
    ensures a == b
  {
    assert (prefix + a + suffix)[|prefix|..|prefix| + |a|] == a;
    assert (prefix + b + suffix)[|prefix|..|prefix| + |b|] == b;
  }

  /** The planners never give two phases the same name, a canary plan provided
      its stages are ascending. */
  lemma CanaryNamesDistinct(c: CanaryConfig, i: nat, j: nat)
    requires i < j < |CanaryPhases(c)| && StrictlyAscending(c.stages)
    ensures CanaryPhases(c)[i].name != CanaryPhases(c)[j].name
  {
    hide DeployPhase, StagePhase;
    StageNames(c, c.stages[j - 1], if i == 0 then c.stages[j - 1] else c.stages[i - 1]);
  }

  lemma StageNames(c: CanaryConfig, a: int, b: int)
    ensures StagePhase(c, a).name != DeployPhase(c).name
    ensures StagePhase(c, a).name == StagePhase(c, b).name ==> a == b
  {
    assert StagePhase(c, a).name[0] == 'c' && DeployPhase(c).name[0] == 'd';
    if StagePhase(c, a).name == StagePhase(c, b).name {
      hide Show;
      TextAround("canary-", Show(a), Show(b), "%");
      ShowInjective(a, b);
    }
  }

  lemma RollingNamesDistinct(total: int, size: int, i: nat, j: nat)
    requires size >= 1 && i < j < |BatchPhases(total, size)|
    ensures BatchPhases(total, size)[i].name != BatchPhases(total, size)[j].name
  {
    if Show(i + 1) == Show(j + 1) { ShowInjective(i + 1, j + 1); }
    assert BatchPhases(total, size)[i].name == "rolling-batch-" + Show(i + 1);
    assert BatchPhases(total, size)[j].name == "rolling-batch-" + Show(j + 1);
    assert ("rolling-batch-" + Show(i + 1))[14..] == Show(i + 1);
    assert ("rolling-batch-" + Show(j + 1))[14..] == Show(j + 1);
  }

  lemma BlueGreenNamesDistinct(c: BlueGreenConfig, i: nat, j: nat)
    requires i < j < |BlueGreenPlan(c)|
    ensures BlueGreenPlan(c)[i].name != BlueGreenPlan(c)[j].name
  {
    var n := seq(4, k requires 0 <= k < 4 => BlueGreenPlan(c)[k].name);
    assert n[0][0] == 'd' && n[1][0] == 's' && n[2][0] == 's' && n[3][0] == 'd';
    assert n[1][1] == 'm' && n[2][1] == 'w' && n[0][2] == 'p' && n[3][2] == 'c';
    assert n[i] == BlueGreenPlan(c)[i].name && n[j] == BlueGreenPlan(c)[j].name;
  }

  /** Whether the planner was given a plan it accepts. */
  ghost predicate Plannable(p: Pipeline) { p.strategy.Canary? ==> StrictlyAscending(p.canary.stages) }

  lemma PhaseNamesDistinct(p: Pipeline, i: nat, j: nat)
    requires Plannable(p) && i < j < |PlannedPhases(p)|
    ensures PlannedPhases(p)[i].name != PlannedPhases(p)[j].name
  {
    hide BlueGreenPlan, CanaryPhases, BatchPhases, BatchSize;
    match p.strategy
    case BlueGreen => BlueGreenNamesDistinct(p.blueGreen, i, j);
    case Canary => CanaryNamesDistinct(p.canary, i, j);
    case Rolling => RollingNamesDistinct(p.rolling.totalInstances, BatchSize(p.rolling), i, j);
    case _ =>
  }

  /** The resolved steps have distinct names exactly if the user's have, and none is
      that of a planned phase. */
  lemma ResolvedNamesDistinct(p: Pipeline)
    requires Plannable(p)
    ensures DistinctNames(ResolvedSteps(p)) <==>
      && DistinctNames(p.steps)
      && forall k, u :: 0 <= k < |PlannedPhases(p)| && 0 <= u < |p.steps| ==> PlannedPhases(p)[k].name != p.steps[u].name
  {
    var phases := PlannedPhases(p);
    PhaseStepNames(phases);
    forall i, j | 0 <= i < j < |phases| ensures phases[i].name != phases[j].name {
      PhaseNamesDistinct(p, i, j);
    }
    assert ResolvedSteps(p) == PhaseSteps(phases) + p.steps;
    assert DistinctNames(PhaseSteps(phases));
    hide PlannedPhases, ResolvedSteps, PhaseSteps, DistinctNames;
    DistinctConcat(PhaseSteps(phases), p.steps);
  }

  lemma PhaseStepNames(phases: seq<Phase>)
    ensures |PhaseSteps(phases)| == |phases| && forall k :: 0 <= k < |phases| ==> PhaseSteps(phases)[k].name == phases[k].name
  {
  }

  lemma DistinctConcat(a: seq<PipelineStep>, b: seq<PipelineStep>)
    ensures DistinctNames(a + b) <==>
      && DistinctNames(a) && DistinctNames(b)
      && forall k, u :: 0 <= k < |a| && 0 <= u < |b| ==> a[k].name != b[u].name
  {
    var c := a + b;
    if DistinctNames(c) {
      forall i, j | 0 <= i < j < |a| ensures a[i].name != a[j].name {
        assert c[i].name != c[j].name;
      }
      forall i, j | 0 <= i < j < |b| ensures b[i].name != b[j].name {
        assert c[|a| + i].name != c[|a| + j].name;
      }
      forall k, u | 0 <= k < |a| && 0 <= u < |b| ensures a[k].name != b[u].name {
        assert c[k].name != c[|a| + u].name;
      }
    }
  }

  /** Phases first, user steps after them. */
  lemma ResolvedAt(p: Pipeline)
    ensures var steps, n := ResolvedSteps(p), |PlannedPhases(p)|;
      && |steps| == n + |p.steps|
      && (forall k :: 0 <= k < n ==> steps[k] == PhaseToStep(PlannedPhases(p)[k]))
      && (forall k :: 0 <= k < n ==> steps[k].name == PlannedPhases(p)[k].name)
      && (forall u :: 0 <= u < |p.steps| ==> steps[n + u] == p.steps[u])
  {
  }

  /** Over any run of the pipeline a user step starts only after every planned phase
      has succeeded. */
  lemma UserStepsAreGated(p: Pipeline, play: Play, i: nat, u: nat, k: nat)
    requires var steps := ResolvedSteps(p); DistinctNames(steps) && ValidPlay(steps, play) && i < |Events(steps, play)|
    requires u < |p.steps| && k < |PlannedPhases(p)|
    requires var e := Events(ResolvedSteps(p), play)[i]; e.status == Running && e.step == p.steps[u].name
    ensures var es := Events(ResolvedSteps(p), play);
      exists q :: 0 <= q < i && es[q].step == PlannedPhases(p)[k].name && es[q].status == Succeeded
  {
    ResolvedAt(p);
    hide *;
    var steps, n := ResolvedSteps(p), |PlannedPhases(p)|;
    assert steps[n + u] == p.steps[u] && steps[k].name == PlannedPhases(p)[k].name;
    RunsOnlyAfterSuccess(steps, play, i, n + u, k);
  }

  /** The traffic share recorded in a step built from a phase. */
  function Traffic(st: PipelineStep): int {
    if "traffic" in st.config && st.config["traffic"].Number? then st.config["traffic"].number else 0
  }

  lemma StepTraffic(ph: Phase)
    ensures Traffic(PhaseToStep(ph)) == ph.trafficPct
  {
  }

  lemma StageStep(p: Pipeline, a: nat)
    requires p.strategy.Canary? && a < |p.canary.stages|
    ensures var steps := ResolvedSteps(p);
      && 1 + a < |steps|
      && steps[1 + a] == PhaseToStep(StagePhase(p.canary, p.canary.stages[a])) && Traffic(steps[1 + a]) == p.canary.stages[a]
  {
    StepTraffic(StagePhase(p.canary, p.canary.stages[a]));
    StageAt(p.canary, a);
    ResolvedAt(p);
    assert PlannedPhases(p) == CanaryPhases(p.canary);
    hide *;
  }

  lemma StageAt(c: CanaryConfig, a: nat)
    requires a < |c.stages|
    ensures 1 + a < |CanaryPhases(c)| && CanaryPhases(c)[1 + a] == StagePhase(c, c.stages[a])
    ensures StagePhase(c, c.stages[a]).trafficPct == c.stages[a]
  {
  }

  /** Over any run of an accepted canary: of two stage phases that start, the one that
      starts later has the larger traffic share. */
  lemma TrafficAscends(p: Pipeline, play: Play, i: nat, j: nat, a: nat, b: nat)
    requires p.strategy.Canary? && StrictlyAscending(p.canary.stages) && a < |p.canary.stages| && b < |p.canary.stages|
    requires var steps := ResolvedSteps(p); DistinctNames(steps) && ValidPlay(steps, play) && i < j < |Events(steps, play)|
    requires var e := Events(ResolvedSteps(p), play)[i];
      e.status == Running && e.step == StagePhase(p.canary, p.canary.stages[a]).name
    requires var e := Events(ResolvedSteps(p), play)[j];
      e.status == Running && e.step == StagePhase(p.canary, p.canary.stages[b]).name
    ensures a < b && StagePhase(p.canary, p.canary.stages[a]).trafficPct < StagePhase(p.canary, p.canary.stages[b]).trafficPct
    ensures Traffic(ResolvedSteps(p)[1 + a]) < Traffic(ResolvedSteps(p)[1 + b])
  {
    var steps := ResolvedSteps(p);
    StageStep(p, a);
    StageStep(p, b);
    RunningPosition(steps, play, i);
    RunningPosition(steps, play, j);
    hide ResolvedSteps, Events, ValidPlay;
    assert i / 2 == 1 + a && j / 2 == 1 + b;
  }

  /** Once a phase fails or is cancelled, the run never starts anything but the phases
      up to it: no later phase and no user step, before or after. */
  lemma FailureStopsTheRollout(p: Pipeline, play: Play, i: nat, k: nat, q: nat) returns (m: nat)
    requires var steps := ResolvedSteps(p); DistinctNames(steps) && ValidPlay(steps, play)
    requires k < |PlannedPhases(p)| && i < |Events(ResolvedSteps(p), play)| && q < |Events(ResolvedSteps(p), play)|
    requires var e := Events(ResolvedSteps(p), play)[i]; e.status in {Failed, Cancelled} && e.step == PlannedPhases(p)[k].name
    requires Events(ResolvedSteps(p), play)[q].status == Running
    ensures m <= k && Events(ResolvedSteps(p), play)[q].step == PlannedPhases(p)[m].name
  {
    var steps := ResolvedSteps(p);
    ResolvedAt(p);
    hide ResolvedSteps, PlannedPhases;
    EventStep(steps, play, i);
    EventAt(steps, play, i);
    RunningPosition(steps, play, q);
    m := q / 2;
  }

  // ---- the commands that are run ----

  /** A shell step that runs cmd, labelled with its phase, traffic share and health
      check. */
  ghost predicate Runs(st: PipelineStep, name: string, cmd: string, traffic: int, health: string) {
    && st.name == name && st.kind == Shell
    && st.config == map["cmd" := Text(cmd), "phase" := Text(name), "traffic" := Number(traffic), "health" := Text(health)]
  }

  lemma PhaseRuns(ph: Phase)
    ensures Runs(PhaseToStep(ph), ph.name, ph.command, ph.trafficPct, ph.healthcheck)
  {
  }

  lemma FirstStep(p: Pipeline, k: nat)
    requires k < |PlannedPhases(p)|
    ensures k < |ResolvedSteps(p)|
    ensures var ph := PlannedPhases(p)[k]; Runs(ResolvedSteps(p)[k], ph.name, ph.command, ph.trafficPct, ph.healthcheck)
  {
    ResolvedAt(p);
    PhaseRuns(PlannedPhases(p)[k]);
  }

  /** Where each phase of a plan acts. */
  lemma PhaseEnvironments(p: Pipeline, k: nat)
    requires k < |PlannedPhases(p)|
    ensures var env := PlannedPhases(p)[k].env;
      && (p.strategy.BlueGreen? ==> env == if k < 3 then p.blueGreen.inactiveEnv else p.blueGreen.activeEnv)
      && (p.strategy.Canary? ==> env == p.canary.candidate)
      && (p.strategy.Rolling? ==> env == "production")
  {
  }

  /** Without a strategy, or with one that is not known, the user's steps alone. */
  lemma NoPlan(p: Pipeline)
    requires p.strategy.NoStrategy? || p.strategy.Unknown?
    ensures ResolvedSteps(p) == p.steps
  {
    assert PhaseSteps([]) + p.steps == p.steps;
  }

  /** Blue-green: deploy and smoke-test the inactive environment, switch the traffic to
      it, tear down the active one; then the user's steps. */
  lemma BlueGreenCommands(p: Pipeline)
    requires p.strategy.BlueGreen?
    ensures var steps, c := ResolvedSteps(p), p.blueGreen;
      && |steps| == 4 + |p.steps| && steps[4..] == p.steps
      && Runs(steps[0], "deploy-inactive", "deploy.sh " + c.inactiveEnv, 0, "")
      && Runs(steps[1], "smoke-inactive", "smoke.sh " + c.inactiveEnv, 0, "/healthz")
      && Runs(steps[2], "switch-traffic", "traffic-switch.sh " + c.activeEnv + " " + c.inactiveEnv, 0, "")
      && Runs(steps[3], "decommission", "teardown.sh " + c.activeEnv, 0, "")
  {
    var c := p.blueGreen;
    assert PlannedPhases(p) == BlueGreenPlan(c);
    FirstStep(p, 0);
    FirstStep(p, 1);
    FirstStep(p, 2);
    FirstStep(p, 3);
    ResolvedAt(p);
    hide ResolvedSteps, PlannedPhases, Runs;
    assert ResolvedSteps(p)[4..] == p.steps;
  }

  /** Canary: deploy the candidate, then shift the traffic stage by stage; then the
      user's steps. */
  lemma CanaryCommands(p: Pipeline)
    requires p.strategy.Canary?
    ensures var steps, c := ResolvedSteps(p), p.canary;
      && |steps| == 1 + |c.stages| + |p.steps| && steps[1 + |c.stages|..] == p.steps
      && Runs(steps[0], "deploy-candidate", "deploy.sh " + c.candidate, 0, "")
      && forall a :: 0 <= a < |c.stages| ==> StageRuns(steps[1 + a], c, c.stages[a])
  {
    var c := p.canary;
    var n := 1 + |c.stages|;
    assert PlannedPhases(p) == CanaryPhases(c) && |CanaryPhases(c)| == n && CanaryPhases(c)[0] == DeployPhase(c);
    FirstStep(p, 0);
    ResolvedAt(p);
    forall a | 0 <= a < |c.stages| ensures StageRuns(ResolvedSteps(p)[1 + a], c, c.stages[a]) {
      FirstStep(p, 1 + a);
      StageAt(c, a);
    }
    hide ResolvedSteps, PlannedPhases, Runs, StageRuns;
    assert ResolvedSteps(p)[n..] == p.steps;
  }

  ghost predicate StageRuns(st: PipelineStep, c: CanaryConfig, pct: int) {
    Runs(st, "canary-" + Show(pct) + "%", "traffic-shift.sh " + Show(pct) + " " + c.candidate, pct, c.healthcheck)
  }

  /** Rolling: the steps update ranges of instances that run from 1 to N without gap or
      overlap, each but the last of the surge share of N rounded up; then the user's
      steps. */
  lemma RollingCommands(p: Pipeline) returns (first: seq<int>, last: seq<int>)
    requires p.strategy.Rolling?
    ensures |first| == |last|
    ensures var steps, n := ResolvedSteps(p), |first|;
      && |steps| == n + |p.steps| && steps[n..] == p.steps
      && forall k :: 0 <= k < n ==> BatchRuns(steps[k], k, first[k], last[k], p.rolling.totalInstances)
    ensures p.rolling.totalInstances <= 0 <==> first == []
    ensures Ranges(first, last, p.rolling.totalInstances, if p.rolling.maxSurgePct > 0 then p.rolling.maxSurgePct else 20)
  {
    var c := p.rolling;
    first, last := Firsts(c), Lasts(c);
    RangesOf(c);
    RollingResolved(p);
    forall k | 0 <= k < |first| ensures BatchRuns(ResolvedSteps(p)[k], k, first[k], last[k], c.totalInstances) {
      BatchStepRuns(p, k);
    }
    hide *;
  }

  ghost function Firsts(c: RollingConfig): seq<int> {
    seq(BatchCount(c.totalInstances, BatchSize(c)), k requires 0 <= k => BatchStart(BatchSize(c), k) + 1)
  }

  ghost function Lasts(c: RollingConfig): seq<int> {
    seq(BatchCount(c.totalInstances, BatchSize(c)), k requires 0 <= k => BatchEnd(c.totalInstances, BatchSize(c), k))
  }

  lemma RollingResolved(p: Pipeline)
    requires p.strategy.Rolling?
    ensures var n := |Firsts(p.rolling)|;
      && |PlannedPhases(p)| == n && |ResolvedSteps(p)| == n + |p.steps| && ResolvedSteps(p)[n..] == p.steps
  {
    ResolvedAt(p);
    hide ResolvedSteps, BatchCount, BatchSize;
    var n := |Firsts(p.rolling)|;
    assert |PlannedPhases(p)| == n;
    hide PlannedPhases;
    assert ResolvedSteps(p)[n..] == p.steps;
  }

  lemma BatchStepRuns(p: Pipeline, k: nat)
    requires p.strategy.Rolling? && k < |Firsts(p.rolling)|
    ensures k < |ResolvedSteps(p)| && |Lasts(p.rolling)| == |Firsts(p.rolling)|
    ensures BatchRuns(ResolvedSteps(p)[k], k, Firsts(p.rolling)[k], Lasts(p.rolling)[k], p.rolling.totalInstances)
  {
    RollingResolved(p);
    FirstStep(p, k);
    hide ResolvedSteps, BatchCount, BatchSize, BatchStart, BatchEnd, Runs;
    var total, size := p.rolling.totalInstances, BatchSize(p.rolling);
    assert PlannedPhases(p)[k] == BatchPhase(total, size, k);
  }

  lemma RangeAt(c: RollingConfig, k: nat)
    requires k < |Firsts(c)|
    ensures var first, last, size, n := Firsts(c), Lasts(c), BatchSize(c), |Firsts(c)|;
      && |last| == n
      && (k == 0 ==> first[k] == 1)
      && first[k] <= last[k]
      && (k + 1 < n ==> first[k + 1] == last[k] + 1 && last[k] - first[k] + 1 == size)
      && (k + 1 == n ==> last[k] == c.totalInstances && last[k] - first[k] + 1 <= size)
  {
    BatchShapes(c, k);
    hide BatchCount, BatchEnd, BatchSize, SurgePct, CeilDiv;
  }

  lemma RangesOf(c: RollingConfig)
    ensures |Firsts(c)| == |Lasts(c)|
    ensures c.totalInstances <= 0 <==> Firsts(c) == []
    ensures Ranges(Firsts(c), Lasts(c), c.totalInstances, if c.maxSurgePct > 0 then c.maxSurgePct else 20)
  {
    var first, last, size, n := Firsts(c), Lasts(c), BatchSize(c), |Firsts(c)|;
    NoBatches(c.totalInstances, size);
    if n > 0 {
      SizeIs(c);
      RangeAt(c, 0);
      RangeAt(c, n - 1);
    }
    hide Firsts, Lasts, BatchSize, SurgePct, CeilDiv;
    forall k | 0 <= k < n
      ensures first[k] <= last[k]
    {
      RangeAt(c, k);
    }
    forall k | 0 <= k < n - 1
      ensures first[k + 1] == last[k] + 1
      ensures last[k] - first[k] + 1 == size
    {
      RangeAt(c, k);
    }
    assert FullBatches(first, last, size);
  }

  ghost predicate BatchRuns(st: PipelineStep, k: nat, first: int, last: int, total: int) {
    Runs(st, "rolling-batch-" + Show(k + 1), "rolling-update.sh " + Show(first) + "-" + Show(last) + "/" + Show(total), 0, "")
  }

  /** Consecutive ranges from 1 to total; size is the least whole number that is at
      least pct percent of total. */
  ghost predicate Ranges(first: seq<int>, last: seq<int>, total: int, pct: int)
    requires |first| == |last|
  {
    && (first != [] ==> first[0] == 1 && last[|last| - 1] == total)
    && (forall k :: 0 <= k < |first| ==> first[k] <= last[k])
    && (forall k :: 0 <= k < |first| - 1 ==> first[k + 1] == last[k] + 1)
    && (first != [] ==> exists size :: FullBatches(first, last, size) && 100 * (size - 1) < total * pct <= 100 * size)
  }

  ghost predicate FullBatches(first: seq<int>, last: seq<int>, size: int)
    requires |first| == |last|
  {
    && (forall k :: 0 <= k < |first| - 1 ==> last[k] - first[k] + 1 == size)
    && (first != [] ==> last[|last| - 1] - first[|first| - 1] + 1 <= size)
  }

  lemma NoBatches(total: int, size: int)
    requires size >= 1
    ensures BatchCount(total, size) == 0 <==> total <= 0
  {
  }

  lemma FirstBatch(size: int)
    ensures BatchStart(size, 0) == 0
  {
  }

  lemma SizeIs(c: RollingConfig)
    requires c.totalInstances > 0
    ensures var pct := if c.maxSurgePct > 0 then c.maxSurgePct else 20;
      100 * (BatchSize(c) - 1) < c.totalInstances * pct <= 100 * BatchSize(c)
  {
    var pct := if c.maxSurgePct > 0 then c.maxSurgePct else 20;
    assert c.totalInstances * pct >= 1 by { MulMonotone(1, c.totalInstances, pct); }
    CeilDivBounds(c.totalInstances * pct, 100);
  }

  // ---- the float behind the batch size ----

  /** Below 2^53 instance-percents the float quotient rounds up to the integer ceiling:
      the product is exact, the quotient is exact if it is an integer, and otherwise off
      by at most half a unit in the last place, which is 1/128 below 2^47. */
  lemma FloatCeilAgrees(product: int, quotient: real)
    requires 0 <= product < 0x20_0000_0000_0000
    requires product % 100 == 0 ==> quotient == (product / 100) as real
    requires -1.0 / 128.0 <= quotient - product as real / 100.0 <= 1.0 / 128.0
    ensures -((-quotient).Floor) == CeilDiv(product, 100)
  {
    var q, r := product / 100, product % 100;
    assert product as real / 100.0 == q as real + r as real / 100.0;
    assert CeilDiv(product, 100) == if r == 0 then q else q + 1;
    if r == 0 {
      assert (-quotient) == (-q) as real;
    } else {
      assert q as real < quotient < (q + 1) as real;
      assert (-(q + 1)) as real < -quotient < (-q) as real;
    }
  }
}
