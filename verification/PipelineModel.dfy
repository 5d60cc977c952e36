/** Values shared by the pipeline modules: steps, step events and the shape of
    one executor run. */
module PipelineModel {

  datatype StepType = Shell | K8sApply | Terraform | Http

  datatype ConfigValue = Text(text: string) | Number(number: int)

  datatype PipelineStep = PipelineStep(name: string, kind: StepType, config: map<string, ConfigValue>)

  datatype StepStatus = Pending | Running | Succeeded | Failed | Cancelled | Skipped {
    predicate Terminal() {
      Succeeded? || Failed? || Cancelled? || Skipped?
    }
  }

  datatype StepEvent = StepEvent(step: string, status: StepStatus, output: string, exitCode: int)

  /** What Execute returns; Go's errors.Is tells Canceled and DeadlineExceeded
      apart from every other error. */
  datatype ExecError = NoError | Canceled | DeadlineExceeded | Fault

  function RunningEvent(st: PipelineStep): StepEvent { StepEvent(st.name, Running, "", 0) }

  function CancelledEvent(st: PipelineStep): StepEvent { StepEvent(st.name, Cancelled, "", 0) }

  function SkippedEvent(st: PipelineStep): StepEvent { StepEvent(st.name, Skipped, "", 0) }

  ghost predicate DistinctNames(steps: seq<PipelineStep>) {
    forall i, j :: 0 <= i < j < |steps| ==> steps[i].name != steps[j].name
  }

  // ---- the shape of a run ----

  /** How a run leaves its step loop at index k. */
  datatype Ending =
    | Completed                       // every step succeeded
    | FailedWith(event: StepEvent)    // step k reported a failure; the rest is skipped
    | CancelledHere(started: bool)    // step k was cancelled, before or after its running event
    | Silent(started: bool)           // the loop was left without a closing event for step k

  /** results[j] is the closing event of step j, for every j < k. */
  datatype Play = Play(k: nat, results: seq<StepEvent>, ending: Ending)

  ghost predicate ValidPlay(steps: seq<PipelineStep>, p: Play) {
    && p.k <= |steps|
    && |p.results| == p.k
    && (forall j :: 0 <= j < p.k ==> p.results[j].step == steps[j].name && p.results[j].status == Succeeded)
    && (p.ending == Completed <==> p.k == |steps|)
    && (p.ending.FailedWith? ==> p.ending.event.step == steps[p.k].name && p.ending.event.status == Failed)
  }

  /** Running then succeeded, for each of the first n steps. */
  function SuccessEvents(steps: seq<PipelineStep>, results: seq<StepEvent>, n: nat): (es: seq<StepEvent>)
    requires n <= |steps| && n <= |results|
    ensures |es| == 2 * n
  {
    if n == 0 then [] else
      var front := SuccessEvents(steps, results, n - 1);
      front + [RunningEvent(steps[n - 1]), results[n - 1]]
  }

  function SkipEvents(steps: seq<PipelineStep>): (es: seq<StepEvent>)
    ensures |es| == |steps|
    ensures forall j :: 0 <= j < |steps| ==> es[j] == SkippedEvent(steps[j])
  {
    seq(|steps|, j requires 0 <= j < |steps| => SkippedEvent(steps[j]))
  }

  function EndingEvents(steps: seq<PipelineStep>, k: nat, e: Ending): seq<StepEvent>
    requires k <= |steps| && (e == Completed <==> k == |steps|)
  {
    match e
    case Completed => []
    case FailedWith(event) => [RunningEvent(steps[k]), event] + SkipEvents(steps[k + 1..])
    case CancelledHere(started) =>
      (if started then [RunningEvent(steps[k])] else []) + [CancelledEvent(steps[k])]
    case Silent(started) => if started then [RunningEvent(steps[k])] else []
  }

  /** The events of a run, in order. */
  function Events(steps: seq<PipelineStep>, p: Play): seq<StepEvent>
    requires ValidPlay(steps, p)
  {
    SuccessEvents(steps, p.results, p.k) + EndingEvents(steps, p.k, p.ending)
  }

  // ---- what every run of that shape satisfies ----

  lemma {:induction false} SuccessEventAt(steps: seq<PipelineStep>, results: seq<StepEvent>, n: nat, i: nat)
    requires n <= |steps| && n <= |results| && i < 2 * n
    ensures SuccessEvents(steps, results, n)[i] ==
            if i % 2 == 0 then RunningEvent(steps[i / 2]) else results[i / 2]
  {
    if i < 2 * (n - 1) {
      SuccessEventAt(steps, results, n - 1, i);
    }
  }

  /** Which event stands at position i. */
  lemma EventAt(steps: seq<PipelineStep>, p: Play, i: nat)
    requires ValidPlay(steps, p) && i < |Events(steps, p)|
    ensures i < 2 * p.k ==>
      Events(steps, p)[i] == if i % 2 == 0 then RunningEvent(steps[i / 2]) else p.results[i / 2]
    ensures i >= 2 * p.k ==> Events(steps, p)[i] == EndingEvents(steps, p.k, p.ending)[i - 2 * p.k]
  {
    if i < 2 * p.k {
      SuccessEventAt(steps, p.results, p.k, i);
    }
  }

  /** The step an event of a play belongs to. */
  function StepAt(p: Play, i: nat): nat {
    if i < 2 * p.k then i / 2
    else if p.ending.FailedWith? && i > 2 * p.k then p.k + (i - 2 * p.k - 1)
    else p.k
  }

  lemma EventStep(steps: seq<PipelineStep>, p: Play, i: nat)
    requires ValidPlay(steps, p) && i < |Events(steps, p)|
    ensures StepAt(p, i) < |steps| && Events(steps, p)[i].step == steps[StepAt(p, i)].name
    ensures i > 2 * p.k + 1 ==> Events(steps, p)[i] == SkippedEvent(steps[StepAt(p, i)])
  {
    EventAt(steps, p, i);
  }

  /** A running event sits at an even position 2j with j <= k and belongs to
      step j, and the closing events of all earlier steps precede it. */
  lemma RunningPosition(steps: seq<PipelineStep>, p: Play, i: nat)
    requires ValidPlay(steps, p) && i < |Events(steps, p)|
    requires Events(steps, p)[i].status == Running
    ensures i % 2 == 0 && i / 2 <= p.k && i / 2 < |steps|
    ensures Events(steps, p)[i] == RunningEvent(steps[i / 2])
    ensures forall j :: 0 <= j < i / 2 ==>
      Events(steps, p)[2 * j + 1].status == Succeeded && Events(steps, p)[2 * j + 1].step == steps[j].name
  {
    EventAt(steps, p, i);
    forall j | 0 <= j < i / 2
      ensures Events(steps, p)[2 * j + 1].status == Succeeded && Events(steps, p)[2 * j + 1].step == steps[j].name
    {
      EarlierSuccess(steps, p, j);
    }
  }

  lemma EarlierSuccess(steps: seq<PipelineStep>, p: Play, j: nat)
    requires ValidPlay(steps, p) && j < p.k
    ensures |Events(steps, p)| >= 2 * p.k
    ensures Events(steps, p)[2 * j + 1].status == Succeeded && Events(steps, p)[2 * j + 1].step == steps[j].name
  {
    EventAt(steps, p, 2 * j + 1);
  }

  /** With distinct names a step runs only after every earlier step has
      succeeded. */
  lemma RunsOnlyAfterSuccess(steps: seq<PipelineStep>, p: Play, i: nat, u: nat, j: nat)
    requires ValidPlay(steps, p) && DistinctNames(steps) && j < u < |steps|
    requires i < |Events(steps, p)|
    requires Events(steps, p)[i].status == Running && Events(steps, p)[i].step == steps[u].name
    ensures exists q :: 0 <= q < i && Events(steps, p)[q].step == steps[j].name && Events(steps, p)[q].status == Succeeded
  {
    RunningPosition(steps, p, i);
    assert i / 2 == u;
    assert Events(steps, p)[2 * j + 1].step == steps[j].name;
  }

  /** Once a step fails or is cancelled, everything that follows is a skip. */
  lemma NothingRunsAfterFailure(steps: seq<PipelineStep>, p: Play, i: nat, q: nat)
    requires ValidPlay(steps, p) && i < q < |Events(steps, p)|
    requires Events(steps, p)[i].status in {Failed, Cancelled}
    ensures Events(steps, p)[q].status == Skipped
  {
    EventAt(steps, p, i);
    EventAt(steps, p, q);
  }
}
