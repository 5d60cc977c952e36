/** The monitor and the maintenance service over the table of physical hosts.
    Each service call is one atomic step; a repository write may fail. */
module PhysicalHosts {
  import opened Options

  datatype HostState = Online | MonitoringIssue | Offline | Maintenance

  datatype Host = Host(state: HostState, lastCheckAt: Option<int>, nextCheckAt: Option<int>, consecutiveFails: int,
                       maintenanceStartedAt: Option<int>, maintenanceReason: string, maintenanceSetBy: string) {
    predicate InMaintenance() { maintenanceStartedAt.Some? }
  }

  const NEW_HOST := Host(Online, None, None, 0, None, "", "")

  datatype AuditAction = MaintenanceEnter | MaintenanceExit

  datatype AuditEvent = AuditEvent(action: AuditAction, host: string, user: string, reason: string, duration: int, at: int)

  /** A device_event on the realtime channel. */
  datatype StateChange = StateChange(host: string, previous: HostState, next: HostState)

  datatype Config = Config(consecutiveFailures: int, checkInterval: int)

  function Threshold(c: Config): int { if c.consecutiveFailures <= 0 then 3 else c.consecutiveFailures }

  function Interval(c: Config): int { if c.checkInterval <= 0 then 60 else c.checkInterval }

  datatype World = World(hosts: map<string, Host>, audit: seq<AuditEvent>, published: seq<StateChange>)

  datatype Op =
    | Check(host: string, now: int, reachable: bool, written: bool)
    | Enter(host: string, now: int, reason: string, user: string, written: bool)
    | Exit(host: string, now: int, user: string, written: bool)

  // ---- one step ----

  /** The record Check writes back. */
  function Checked(c: Config, h: Host, now: int, reachable: bool): Host {
    var seen := h.(lastCheckAt := Some(now), nextCheckAt := Some(now + Interval(c)));
    if h.InMaintenance() then seen
    else if reachable then seen.(state := Online, consecutiveFails := 0)
    else
      var fails := h.consecutiveFails + 1;
      seen.(consecutiveFails := fails,
            state := match h.state
                     case Online => MonitoringIssue
                     case MonitoringIssue => if fails >= Threshold(c) then Offline else MonitoringIssue
                     case Offline => Offline
                     case Maintenance => Maintenance)
  }

  function Entered(h: Host, now: int, reason: string, user: string): Host {
    h.(state := Maintenance, maintenanceStartedAt := Some(now), maintenanceReason := reason, maintenanceSetBy := user)
  }

  function Exited(h: Host): Host {
    h.(state := Online, maintenanceStartedAt := None, maintenanceReason := "", maintenanceSetBy := "")
  }

  function Step(c: Config, w: World, op: Op): World {
    if op.host !in w.hosts || !op.written then w else
      var h := w.hosts[op.host];
      match op
      case Check(id, now, reachable, _) =>
        var h1 := Checked(c, h, now, reachable);
        w.(hosts := w.hosts[id := h1],
           published := w.published +
             if h.state != h1.state then [StateChange(id, h.state, h1.state)] else [])
      case Enter(id, now, reason, user, _) =>
        if h.InMaintenance() then w else
          w.(hosts := w.hosts[id := Entered(h, now, reason, user)],
             audit := w.audit + [AuditEvent(MaintenanceEnter, id, user, reason, 0, now)])
      case Exit(id, now, user, _) =>
        if !h.InMaintenance() then w else
          w.(hosts := w.hosts[id := Exited(h)],
             audit := w.audit + [AuditEvent(MaintenanceExit, id, user, "", now - h.maintenanceStartedAt.value, now)])
  }

  function Run(c: Config, w: World, ops: seq<Op>): World
    decreases |ops|
  {
    if ops == [] then w else Step(c, Run(c, w, ops[..|ops| - 1]), ops[|ops| - 1])
  }

  // ---- the imperative form ----

  datatype Reply = Done | NotFound | InvalidState | Internal

  class HostTable {
    const config: Config
    var hosts: map<string, Host>
    var audit: seq<AuditEvent>
    var published: seq<StateChange>

    function Contents(): World
      reads this
    {
      World(hosts, audit, published)
    }

    constructor (config: Config, hosts: map<string, Host>)
      ensures this.config == config && Contents() == World(hosts, [], [])
    {
      this.config, this.hosts := config, hosts;
      audit, published := [], [];
    }

    /** MonitorService.Check; reachable is the probe's answer, written tells
        whether the repository accepts the update. */
    method CheckHost(id: string, now: int, reachable: bool, written: bool) returns (r: Reply)
      modifies this
      ensures Contents() == Step(config, old(Contents()), Check(id, now, reachable, written))
      ensures r == if id !in old(hosts) then NotFound else if !written then Internal else Done
    {
      if id !in hosts { return NotFound; }
      var interval := if config.checkInterval <= 0 then 60 else config.checkInterval;
      var threshold := if config.consecutiveFailures <= 0 then 3 else config.consecutiveFailures;
      var p := hosts[id].(lastCheckAt := Some(now), nextCheckAt := Some(now + interval));
      if p.InMaintenance() {
        if !written { return Internal; }
        hosts := hosts[id := p];
        return Done;
      }
      var prevState := p.state;
      if reachable {
        p := p.(state := Online, consecutiveFails := 0);
      } else {
        p := p.(consecutiveFails := p.consecutiveFails + 1);
        match p.state {
          case Online => p := p.(state := MonitoringIssue);
          case MonitoringIssue =>
            if p.consecutiveFails >= threshold {
              p := p.(state := Offline);
            }
          case _ =>
        }
      }
      if !written { return Internal; }
      hosts := hosts[id := p];
      if prevState != p.state {
        published := published + [StateChange(id, prevState, p.state)];
      }
      return Done;
    }

    method EnterMaintenance(id: string, now: int, reason: string, user: string, written: bool) returns (r: Reply)
      modifies this
      ensures Contents() == Step(config, old(Contents()), Enter(id, now, reason, user, written))
      ensures r == if id !in old(hosts) then NotFound else if old(hosts)[id].InMaintenance() then InvalidState
                   else if !written then Internal else Done
    {
      if id !in hosts { return NotFound; }
      var p := hosts[id];
      if p.InMaintenance() { return InvalidState; }
      p := p.(state := Maintenance, maintenanceStartedAt := Some(now), maintenanceReason := reason, maintenanceSetBy := user);
      if !written { return Internal; }
      hosts := hosts[id := p];
      audit := audit + [AuditEvent(MaintenanceEnter, id, user, reason, 0, now)];
      return Done;
    }

    method ExitMaintenance(id: string, now: int, user: string, written: bool) returns (r: Reply)
      modifies this
      ensures Contents() == Step(config, old(Contents()), Exit(id, now, user, written))
      ensures r == if id !in old(hosts) then NotFound else if !old(hosts)[id].InMaintenance() then InvalidState
                   else if !written then Internal else Done
    {
      if id !in hosts { return NotFound; }
      var p := hosts[id];
      if !p.InMaintenance() { return InvalidState; }
      var duration := now - p.maintenanceStartedAt.value;
      p := p.(state := Online, maintenanceStartedAt := None, maintenanceReason := "", maintenanceSetBy := "");
      if !written { return Internal; }
      hosts := hosts[id := p];
      audit := audit + [AuditEvent(MaintenanceExit, id, user, "", duration, now)];
      return Done;
    }
  }

  function IsInMaintenance(w: World, id: string): bool {
    id in w.hosts && w.hosts[id].InMaintenance()
  }

  // ---- the closed form of a host's state ----

  /** The last maintenance action on the host that was written is an Enter. */
  predicate InHold(ops: seq<Op>, id: string) {
    if ops == [] then false else
      var op := ops[|ops| - 1];
      if op.host == id && op.written && op.Enter? then true
      else if op.host == id && op.written && op.Exit? then false
      else InHold(ops[..|ops| - 1], id)
  }

  /** The last operation is a probe of the host outside maintenance. */
  predicate Probed(ops: seq<Op>, id: string)
    requires ops != []
  {
    var op := ops[|ops| - 1];
    op.Check? && op.host == id && op.written && !InHold(ops[..|ops| - 1], id)
  }

  /** Failed probes since the last successful one. */
  function FailsSinceSuccess(ops: seq<Op>, id: string): nat {
    if ops == [] then 0 else
      var before := FailsSinceSuccess(ops[..|ops| - 1], id);
      if !Probed(ops, id) then before
      else if ops[|ops| - 1].reachable then 0 else before + 1
  }

  /** Failed probes since the last successful one or the last end of a hold. */
  function FailsSinceReset(ops: seq<Op>, id: string): nat {
    if ops == [] then 0 else
      var op := ops[|ops| - 1];
      var before := FailsSinceReset(ops[..|ops| - 1], id);
      if op.Exit? && op.host == id && op.written && InHold(ops[..|ops| - 1], id) then 0
      else if !Probed(ops, id) then before
      else if op.reachable then 0 else before + 1
  }

  /** After any operations on any hosts, a host that started online with counter
      0 is in the state its own history calls for: outside a hold it goes offline once
      the failures reach the configured number, or 3 where none is configured. */
  lemma {:induction false} StateClosedForm(c: Config, w: World, ops: seq<Op>, id: string)
    requires id in w.hosts && w.hosts[id].state == Online
    requires w.hosts[id].consecutiveFails == 0 && !w.hosts[id].InMaintenance()
    ensures var t := Run(c, w, ops); var hold, fails, recent := InHold(ops, id), FailsSinceSuccess(ops, id), FailsSinceReset(ops, id);
      && id in t.hosts
      && t.hosts[id].consecutiveFails == fails
      && (t.hosts[id].maintenanceStartedAt.Some? <==> hold)
      && (t.hosts[id].state == Maintenance <==> hold)
      && (t.hosts[id].state == Online <==> !hold && recent == 0)
      && (t.hosts[id].state == Offline <==> !hold && recent >= 2 && fails >= if c.consecutiveFailures > 0 then c.consecutiveFailures else 3)
    ensures FailsSinceReset(ops, id) <= FailsSinceSuccess(ops, id)
  {
    if ops != [] {
      StateClosedForm(c, w, ops[..|ops| - 1], id);
    }
  }

  /** A check the repository accepts records its time and schedules the next one after
      the configured interval, 60 where none is configured; in or out of a hold. */
  lemma CheckTimes(c: Config, w: World, op: Op)
    requires op.Check? && op.host in w.hosts && op.written
    ensures var h := Step(c, w, op).hosts[op.host];
      && h.lastCheckAt == Some(op.now)
      && h.nextCheckAt == Some(op.now + if c.checkInterval > 0 then c.checkInterval else 60)
      && (h.maintenanceStartedAt, h.maintenanceReason, h.maintenanceSetBy) ==
           (w.hosts[op.host].maintenanceStartedAt, w.hosts[op.host].maintenanceReason, w.hosts[op.host].maintenanceSetBy)
  {
  }

  /** An enter puts the host on hold under its user and reason, an exit takes the hold
      off; neither touches the failure counter, the check times or another host. */
  lemma HoldFields(c: Config, w: World, op: Op)
    requires !op.Check? && op.host in w.hosts && op.written && (op.Enter? <==> w.hosts[op.host].maintenanceStartedAt == None)
    ensures var g, h := w.hosts[op.host], Step(c, w, op).hosts[op.host];
      && (op.Enter? ==> h.state == Maintenance && h.maintenanceStartedAt == Some(op.now))
      && (op.Enter? ==> h.maintenanceReason == op.reason && h.maintenanceSetBy == op.user)
      && (op.Exit? ==> h.state == Online && h.maintenanceStartedAt == None && h.maintenanceReason == "" && h.maintenanceSetBy == "")
      && (h.consecutiveFails, h.lastCheckAt, h.nextCheckAt) == (g.consecutiveFails, g.lastCheckAt, g.nextCheckAt)
  {
  }

  /** An operation concerns its own host alone, and nothing happens to a host that does
      not exist or without the repository's write. */
  lemma OtherHosts(c: Config, w: World, op: Op, id: string)
    requires id != op.host || id !in w.hosts || !op.written
    ensures var t := Step(c, w, op); id in t.hosts <==> id in w.hosts
    ensures var t := Step(c, w, op); id in w.hosts ==> t.hosts[id] == w.hosts[id]
    ensures !op.written || op.host !in w.hosts ==> Step(c, w, op) == w
  {
  }

  /** During a hold a Check touches nothing but the check times. */
  lemma CheckDuringHold(c: Config, w: World, op: Op)
    requires op.Check? && IsInMaintenance(w, op.host)
    ensures var t := Step(c, w, op);
      && op.host in t.hosts
      && t.audit == w.audit && t.published == w.published
      && t.hosts[op.host].(lastCheckAt := None, nextCheckAt := None) == w.hosts[op.host].(lastCheckAt := None, nextCheckAt := None)
  {
  }

  // ---- maintenance accounting ----

  function AuditOf(audit: seq<AuditEvent>, id: string): seq<AuditEvent> {
    if audit == [] then [] else
      AuditOf(audit[..|audit| - 1], id) + if audit[|audit| - 1].host == id then [audit[|audit| - 1]] else []
  }

  lemma AuditOfSnoc(audit: seq<AuditEvent>, e: AuditEvent, id: string)
    ensures AuditOf(audit + [e], id) == AuditOf(audit, id) + if e.host == id then [e] else []
  {
    assert (audit + [e])[..|audit|] == audit;
  }

  function SumDurations(audit: seq<AuditEvent>): int {
    if audit == [] then 0 else SumDurations(audit[..|audit| - 1]) + audit[|audit| - 1].duration
  }

  /** Time from the first to the last operation during which the host was held:
      each interval between operations counts if the hold was on in it. */
  function HoldTime(ops: seq<Op>, id: string): int {
    if |ops| < 2 then 0 else
      var front := ops[..|ops| - 1];
      HoldTime(front, id) + if InHold(front, id) then ops[|ops| - 1].now - front[|front| - 1].now else 0
  }

  /** Enter and exit alternate, starting with enter, and each exit carries the
      time since its enter. */
  ghost predicate Alternates(audit: seq<AuditEvent>) {
    forall i :: 0 <= i < |audit| ==> Follows(audit, i)
  }

  predicate Follows(audit: seq<AuditEvent>, i: nat)
    requires i < |audit|
  {
    if i % 2 == 0 then
      audit[i].action == MaintenanceEnter && audit[i].duration == 0
    else
      audit[i].action == MaintenanceExit && audit[i].duration == audit[i].at - audit[i - 1].at
  }

  /** What one operation does to a host's hold and audit trail. */
  lemma StepAudit(c: Config, w: World, op: Op, id: string)
    requires id in w.hosts
    ensures var t := Step(c, w, op); var a, b := AuditOf(w.audit, id), AuditOf(t.audit, id);
      && id in t.hosts
      && if op.host == id && op.written && op.Enter? && !w.hosts[id].InMaintenance() then
           && b == a + [AuditEvent(MaintenanceEnter, id, op.user, op.reason, 0, op.now)]
           && t.hosts[id].maintenanceStartedAt == Some(op.now)
         else if op.host == id && op.written && op.Exit? && w.hosts[id].InMaintenance() then
           && b == a + [AuditEvent(MaintenanceExit, id, op.user, "", op.now - w.hosts[id].maintenanceStartedAt.value, op.now)]
           && t.hosts[id].maintenanceStartedAt == None
         else
           b == a && t.hosts[id].maintenanceStartedAt == w.hosts[id].maintenanceStartedAt
  {
    var t := Step(c, w, op);
    if t.audit != w.audit {
      AuditOfSnoc(w.audit, t.audit[|t.audit| - 1], id);
      assert t.audit == w.audit + [t.audit[|t.audit| - 1]];
    }
  }

  lemma TrailSnoc(a: seq<AuditEvent>, e: AuditEvent)
    requires Alternates(a)
    requires e.action == if |a| % 2 == 0 then MaintenanceEnter else MaintenanceExit
    requires e.duration == if |a| % 2 == 0 then 0 else e.at - a[|a| - 1].at
    ensures Alternates(a + [e]) && SumDurations(a + [e]) == SumDurations(a) + e.duration
    ensures |a + [e]| % 2 == 1 - |a| % 2
  {
    AlternatesSnoc(a, e);
    hide Alternates;
    assert (a + [e])[..|a|] == a;
  }

  lemma AlternatesSnoc(a: seq<AuditEvent>, e: AuditEvent)
    requires Alternates(a)
    requires e.action == if |a| % 2 == 0 then MaintenanceEnter else MaintenanceExit
    requires e.duration == if |a| % 2 == 0 then 0 else e.at - a[|a| - 1].at
    ensures Alternates(a + [e])
  {
    var b := a + [e];
    forall i | 0 <= i < |b| ensures Follows(b, i) {
      if i < |a| { assert Follows(a, i); }
    }
  }

  /** The audit trail of a host: events alternate, one enter more than exits
      exactly during a hold, every exit's duration is the length of its window,
      and the durations add up to the time the host was held. */
  lemma {:induction false} AuditAccounts(c: Config, w: World, ops: seq<Op>, id: string)
    requires id in w.hosts && w.hosts[id] == NEW_HOST && w.audit == []
    ensures var t := Run(c, w, ops); var a := AuditOf(t.audit, id);
      && id in t.hosts && t.hosts[id].InMaintenance() == InHold(ops, id)
      && Alternates(a)
      && (InHold(ops, id) <==> |a| % 2 == 1)
      && (InHold(ops, id) ==> ops != [] && t.hosts[id].maintenanceStartedAt == Some(a[|a| - 1].at))
      && HoldTime(ops, id) ==
           SumDurations(a) + if InHold(ops, id) then ops[|ops| - 1].now - a[|a| - 1].at else 0
  {
    hide Step, Alternates, SumDurations, AuditOf;
    if ops == [] {
      EmptyTrail(id);
    } else {
      var front, op := ops[..|ops| - 1], ops[|ops| - 1];
      AuditAccounts(c, w, front, id);
      var s, t := Run(c, w, front), Run(c, w, ops);
      var a, b := AuditOf(s.audit, id), AuditOf(t.audit, id);
      StepAudit(c, s, op, id);
      if |b| > |a| {
        TrailSnoc(a, b[|b| - 1]);
      }
    }
  }

  lemma EmptyTrail(id: string)
    ensures AuditOf([], id) == [] && Alternates([]) && SumDurations([]) == 0
  {
  }

  // ---- realtime events ----

  function ChangesOf(published: seq<StateChange>, id: string): seq<StateChange> {
    if published == [] then [] else
      ChangesOf(published[..|published| - 1], id) +
        if published[|published| - 1].host == id then [published[|published| - 1]] else []
  }

  lemma ChangesOfSnoc(published: seq<StateChange>, e: StateChange, id: string)
    ensures ChangesOf(published + [e], id) == ChangesOf(published, id) + if e.host == id then [e] else []
  {
    assert (published + [e])[..|published|] == published;
  }

  /** The changes lead from one state to another without a gap or a repeat. */
  ghost predicate Chain(from: HostState, changes: seq<StateChange>, to: HostState) {
    if changes == [] then from == to else
      var last := changes[|changes| - 1];
      last.next == to && last.previous != to && Chain(from, changes[..|changes| - 1], last.previous)
  }

  /** The operations leave the host's maintenance alone. */
  ghost predicate OnlyChecks(ops: seq<Op>, id: string) {
    forall i :: 0 <= i < |ops| ==> ops[i].host == id ==> ops[i].Check?
  }

  /** What one operation that is no maintenance of the host does to its changes:
      nothing, or one change from its old state to its new one. */
  lemma StepChanges(c: Config, w: World, op: Op, id: string)
    requires id in w.hosts && (op.host == id ==> op.Check?)
    ensures var t := Step(c, w, op); var a, b := ChangesOf(w.published, id), ChangesOf(t.published, id);
      && id in t.hosts
      && var e := StateChange(id, w.hosts[id].state, t.hosts[id].state);
      && b == a + if e.previous == e.next then [] else [e]
  {
    var t := Step(c, w, op);
    if t.published != w.published {
      var e := t.published[|t.published| - 1];
      assert t.published == w.published + [e];
      ChangesOfSnoc(w.published, e, id);
    }
  }

  lemma ChainSnoc(from: HostState, changes: seq<StateChange>, e: StateChange)
    requires Chain(from, changes, e.previous) && e.previous != e.next
    ensures Chain(from, changes + [e], e.next)
  {
    assert (changes + [e])[..|changes|] == changes;
  }

  /** Between maintenance actions on a host its published changes form a chain
      from its state before to its state after. */
  lemma {:induction false} ChangesChain(c: Config, w: World, ops: seq<Op>, id: string) returns (changes: seq<StateChange>)
    requires id in w.hosts && OnlyChecks(ops, id)
    ensures var t := Run(c, w, ops);
      && id in t.hosts
      && ChangesOf(t.published, id) == ChangesOf(w.published, id) + changes
      && Chain(w.hosts[id].state, changes, t.hosts[id].state)
  {
    if ops == [] {
      changes := [];
    } else {
      hide Step, ChangesOf, Chain;
      var front, op := ops[..|ops| - 1], ops[|ops| - 1];
      changes := ChangesChain(c, w, front, id);
      var s, t := Run(c, w, front), Run(c, w, ops);
      StepChanges(c, s, op, id);
      var e := StateChange(id, s.hosts[id].state, t.hosts[id].state);
      if e.previous != e.next {
        ChainSnoc(w.hosts[id].state, changes, e);
        changes := changes + [e];
      }
    }
  }

  /** The only changes that are ever published. */
  predicate Permitted(e: StateChange) {
    || (e.previous == Online && e.next == MonitoringIssue)
    || (e.previous == MonitoringIssue && (e.next == Offline || e.next == Online))
    || (e.previous == Offline && e.next == Online)
  }

  ghost predicate Tidy(w: World) {
    && (forall id :: id in w.hosts ==> (w.hosts[id].state == Maintenance <==> w.hosts[id].InMaintenance()))
    && (forall i :: 0 <= i < |w.published| ==> Permitted(w.published[i]))
  }

  /** In any run, maintenance included, no host is ever announced to go from
      online to offline in one change, and State is maintenance exactly while
      MaintenanceStartedAt is set. */
  lemma {:induction false} OnlyPermittedChanges(c: Config, w: World, ops: seq<Op>)
    requires Tidy(w)
    ensures Tidy(Run(c, w, ops))
  {
    if ops != [] {
      OnlyPermittedChanges(c, w, ops[..|ops| - 1]);
    }
  }
}
