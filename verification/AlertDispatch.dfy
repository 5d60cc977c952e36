/** Alert dispatch and its suppression while the source host is in maintenance:
    the alert service composed with the maintenance service. */
module AlertDispatch {
  import opened Options
  import H = PhysicalHosts

  datatype SourceType = PhysicalHost | K8s | Pipeline | Custom
  datatype ChannelType = Slack | PagerDuty | Webhook | Email | Log

  predicate IsExternal(t: ChannelType) { t.Slack? || t.PagerDuty? || t.Webhook? || t.Email? }

  /** The synthetic log channel has the empty ID. */
  datatype Channel = Channel(id: string, kind: ChannelType, enabled: bool)

  const LOG_CHANNEL := Channel("", Log, true)

  datatype Alert = Alert(id: string, sourceType: SourceType, sourceId: string, suppressed: bool, reason: string)

  datatype Dispatch = Dispatch(alert: Alert, channel: Channel)

  /** The suppression decision is made against the host table as it stands. */
  predicate Suppresses(world: H.World, a: Alert) {
    a.sourceType.PhysicalHost? && H.IsInMaintenance(world, a.sourceId)
  }

  function Stamped(world: H.World, a: Alert): Alert {
    if Suppresses(world, a) then a.(suppressed := true, reason := "host_in_maintenance") else a
  }

  /** Whether a listed channel receives the alert. */
  predicate Receives(channels: map<string, Channel>, suppress: bool, id: string) {
    id in channels && channels[id].enabled && !(suppress && IsExternal(channels[id].kind))
  }

  /** The listed channels that receive the alert, in order. */
  function Receivers(channels: map<string, Channel>, suppress: bool, ids: seq<string>): seq<Channel> {
    if ids == [] then [] else
      Receivers(channels, suppress, ids[..|ids| - 1]) +
        if Receives(channels, suppress, ids[|ids| - 1]) then [channels[ids[|ids| - 1]]] else []
  }

  function SentTo(a: Alert, chs: seq<Channel>): seq<Dispatch> {
    seq(|chs|, i requires 0 <= i < |chs| => Dispatch(a, chs[i]))
  }

  function Dispatches(world: H.World, channels: map<string, Channel>, a: Alert, ids: seq<string>): seq<Dispatch> {
    SentTo(Stamped(world, a), [LOG_CHANNEL] + Receivers(channels, Suppresses(world, a), ids))
  }

  /** The hold of a physical host, and nothing else, suppresses and marks its alerts. */
  lemma StampedMeans(world: H.World, a: Alert)
    ensures var held := a.sourceType == PhysicalHost && a.sourceId in world.hosts
        && world.hosts[a.sourceId].maintenanceStartedAt.Some?;
      && (Suppresses(world, a) <==> held)
      && Stamped(world, a) == if held then a.(suppressed := true, reason := "host_in_maintenance") else a
  {
  }

  /** The receivers of a list are those of its parts, in order. */
  lemma {:induction false} ReceiversConcat(channels: map<string, Channel>, suppress: bool, ids: seq<string>, more: seq<string>)
    ensures Receivers(channels, suppress, ids + more) == Receivers(channels, suppress, ids) + Receivers(channels, suppress, more)
  {
    if more == [] {
      assert ids + more == ids;
    } else {
      assert (ids + more)[..|ids + more| - 1] == ids + more[..|more| - 1];
      ReceiversConcat(channels, suppress, ids, more[..|more| - 1]);
    }
  }

  /** One listed channel receives the alert once if it exists and is enabled, and, of a
      suppressed alert, only if it is a log channel; otherwise not at all. */
  lemma ReceiverOfOne(channels: map<string, Channel>, suppress: bool, id: string)
    ensures Receivers(channels, suppress, [id]) ==
      if id in channels && channels[id].enabled && (!suppress || channels[id].kind == Log) then [channels[id]] else []
  {
    assert [id][..0] == [] && Receivers(channels, suppress, []) == [];
  }

  // ---- the imperative form ----

  class AlertService {
    var channels: map<string, Channel>
    var alerts: map<string, Alert>
    var dispatched: seq<Dispatch>

    constructor (channels: map<string, Channel>)
      ensures this.channels == channels && alerts == map[] && dispatched == []
    {
      this.channels := channels;
      alerts, dispatched := map[], [];
    }

    /** dispatchChannels; errors of the dispatcher are only logged. */
    method DispatchChannels(a: Alert, ids: seq<string>, world: H.World) returns (stamped: Alert)
      modifies this`alerts, this`dispatched
      ensures stamped == Stamped(world, a)
      ensures dispatched == old(dispatched) + Dispatches(world, channels, a, ids)
      ensures |dispatched| > |old(dispatched)| && dispatched[|old(dispatched)|] == Dispatch(stamped, Channel("", Log, true))
      ensures alerts == if Suppresses(world, a) && a.id in old(alerts)
                        then old(alerts)[a.id := old(alerts)[a.id].(suppressed := true, reason := "host_in_maintenance")]
                        else old(alerts)
    {
      stamped := a;
      var suppress := a.sourceType.PhysicalHost? && H.IsInMaintenance(world, a.sourceId);
      if suppress {
        stamped := a.(suppressed := true, reason := "host_in_maintenance");
        if a.id in alerts {
          alerts := alerts[a.id := alerts[a.id].(suppressed := true, reason := "host_in_maintenance")];
        }
      }
      ghost var before, row := dispatched, alerts;
      dispatched := dispatched + [Dispatch(stamped, LOG_CHANNEL)];
      var i := 0;
      while i < |ids|
        invariant 0 <= i <= |ids| && alerts == row
        invariant dispatched == before + SentTo(stamped, [LOG_CHANNEL] + Receivers(channels, suppress, ids[..i]))
      {
        assert ids[..i + 1][..i] == ids[..i];
        if ids[i] in channels && channels[ids[i]].enabled && !(suppress && IsExternal(channels[ids[i]].kind)) {
          dispatched := dispatched + [Dispatch(stamped, channels[ids[i]])];
        }
        i := i + 1;
      }
      assert ids[..|ids|] == ids;
    }
  }

  // ---- every interleaving of alerts with monitoring and maintenance ----

  datatype Action = Host(op: H.Op) | Fire(alert: Alert, ids: seq<string>)

  datatype State = State(world: H.World, log: seq<Dispatch>)

  function Step(c: H.Config, channels: map<string, Channel>, s: State, a: Action): State {
    match a
    case Host(op) => s.(world := H.Step(c, s.world, op))
    case Fire(alert, ids) => s.(log := s.log + Dispatches(s.world, channels, alert, ids))
  }

  function Run(c: H.Config, channels: map<string, Channel>, s: State, actions: seq<Action>): State
    decreases |actions|
  {
    if actions == [] then s
    else Step(c, channels, Run(c, channels, s, actions[..|actions| - 1]), actions[|actions| - 1])
  }

  function HostOps(actions: seq<Action>): seq<H.Op> {
    if actions == [] then [] else
      HostOps(actions[..|actions| - 1]) + if actions[|actions| - 1].Host? then [actions[|actions| - 1].op] else []
  }

  lemma {:induction false} HostsEvolveAlone(c: H.Config, channels: map<string, Channel>, s: State, actions: seq<Action>)
    ensures Run(c, channels, s, actions).world == H.Run(c, s.world, HostOps(actions))
  {
    if actions != [] {
      var front, a := actions[..|actions| - 1], actions[|actions| - 1];
      HostsEvolveAlone(c, channels, s, front);
      if a.Host? {
        var ops := HostOps(actions);
        assert ops[..|ops| - 1] == HostOps(front);
      } else {
        assert HostOps(actions) == HostOps(front);
      }
    }
  }

  lemma {:induction false} ReceiversReceive(channels: map<string, Channel>, suppress: bool, ids: seq<string>, ch: Channel)
    ensures ch in Receivers(channels, suppress, ids) ==>
      ch.enabled && !(suppress && IsExternal(ch.kind)) && exists id :: id in ids && id in channels && channels[id] == ch
  {
    if ids != [] {
      ReceiversReceive(channels, suppress, ids[..|ids| - 1], ch);
    }
  }

  /** Whatever has happened to the hosts and however often alerts have fired: an
      alert of a physical host reaches an external channel only outside a hold,
      that is when every maintenance enter of that host in the audit trail has
      its exit; and it always starts with the log dispatch. */
  lemma ExternalOnlyOutsideHold(c: H.Config, channels: map<string, Channel>, w: H.World, actions: seq<Action>,
                                alert: Alert, ids: seq<string>, d: Dispatch)
    requires alert.sourceType.PhysicalHost? && alert.sourceId in w.hosts && w.hosts[alert.sourceId] == H.NEW_HOST && w.audit == []
    requires d in Dispatches(Run(c, channels, State(w, []), actions).world, channels, alert, ids)
    ensures IsExternal(d.channel.kind) ==> !H.InHold(HostOps(actions), alert.sourceId)
    ensures IsExternal(d.channel.kind) ==>
      |H.AuditOf(Run(c, channels, State(w, []), actions).world.audit, alert.sourceId)| % 2 == 0
    ensures d.alert.suppressed <==> alert.suppressed || H.InHold(HostOps(actions), alert.sourceId)
    ensures Dispatches(Run(c, channels, State(w, []), actions).world, channels, alert, ids)[0].channel == LOG_CHANNEL
  {
    var world := Run(c, channels, State(w, []), actions).world;
    HostsEvolveAlone(c, channels, State(w, []), actions);
    H.AuditAccounts(c, w, HostOps(actions), alert.sourceId);
    var suppress := Suppresses(world, alert);
    if IsExternal(d.channel.kind) {
      ReceiversReceive(channels, suppress, ids, d.channel);
    }
  }

  /** The firing an entry of the log comes from: the n-th action. */
  ghost predicate CameFrom(c: H.Config, channels: map<string, Channel>, s: State, actions: seq<Action>, n: nat, d: Dispatch)
    requires n < |actions|
  {
    && actions[n].Fire?
    && d in Dispatches(Run(c, channels, s, actions[..n]).world, channels, actions[n].alert, actions[n].ids)
  }

  lemma {:induction false} LogOrigin(c: H.Config, channels: map<string, Channel>, s: State, actions: seq<Action>, i: nat)
    returns (n: nat)
    requires |s.log| <= i < |Run(c, channels, s, actions).log|
    ensures n < |actions| && CameFrom(c, channels, s, actions, n, Run(c, channels, s, actions).log[i])
  {
    if actions == [] {
      assert false;
    } else {
      var front, a := actions[..|actions| - 1], actions[|actions| - 1];
      if i < |Run(c, channels, s, front).log| {
        n := LogOrigin(c, channels, s, front, i);
        assert actions[..n] == front[..n] && actions[n] == front[n];
      } else {
        n := |actions| - 1;
      }
    }
  }

  /** Over any interleaving of firings with monitoring and maintenance: every entry of
      the dispatch log that took an alert of a physical host to an external channel was
      written outside every hold of that host, its enters and exits balanced so far. */
  lemma LogRespectsHolds(c: H.Config, channels: map<string, Channel>, w: H.World, actions: seq<Action>, i: nat)
    returns (n: nat)
    requires i < |Run(c, channels, State(w, []), actions).log| && w.audit == []
    requires var d := Run(c, channels, State(w, []), actions).log[i];
      && IsExternal(d.channel.kind) && d.alert.sourceType.PhysicalHost?
      && d.alert.sourceId in w.hosts && w.hosts[d.alert.sourceId] == H.NEW_HOST
    ensures n < |actions| && CameFrom(c, channels, State(w, []), actions, n, Run(c, channels, State(w, []), actions).log[i])
    ensures var d := Run(c, channels, State(w, []), actions).log[i];
      && !H.InHold(HostOps(actions[..n]), d.alert.sourceId)
      && |H.AuditOf(Run(c, channels, State(w, []), actions[..n]).world.audit, d.alert.sourceId)| % 2 == 0
      && !H.IsInMaintenance(Run(c, channels, State(w, []), actions[..n]).world, d.alert.sourceId)
  {
    var s, d := State(w, []), Run(c, channels, State(w, []), actions).log[i];
    n := LogOrigin(c, channels, s, actions, i);
    var world, fire := Run(c, channels, s, actions[..n]).world, actions[n];
    DispatchKeepsSource(world, channels, fire.alert, fire.ids, d);
    ExternalOnlyOutsideHold(c, channels, w, actions[..n], fire.alert, fire.ids, d);
    HostsEvolveAlone(c, channels, s, actions[..n]);
    H.AuditAccounts(c, w, HostOps(actions[..n]), d.alert.sourceId);
  }

  lemma DispatchKeepsSource(world: H.World, channels: map<string, Channel>, a: Alert, ids: seq<string>, d: Dispatch)
    requires d in Dispatches(world, channels, a, ids)
    ensures d.alert.sourceType == a.sourceType && d.alert.sourceId == a.sourceId
  {
  }

  /** Outside a hold, or for any other source, nothing is withheld: an enabled
      channel that is listed gets the alert. */
  lemma {:induction false} NothingElseIsWithheld(channels: map<string, Channel>, suppress: bool, ids: seq<string>, k: nat)
    requires k < |ids| && ids[k] in channels && channels[ids[k]].enabled
    requires suppress ==> !IsExternal(channels[ids[k]].kind)
    ensures channels[ids[k]] in Receivers(channels, suppress, ids)
  {
    if k < |ids| - 1 {
      NothingElseIsWithheld(channels, suppress, ids[..|ids| - 1], k);
    }
  }
}
