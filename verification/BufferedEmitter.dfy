/** The audit module's BufferedEmitter as a step system: Emit never blocks, N
    workers range over the channel, Close closes done and then the channel. */
module BufferedEmitter {
  import opened MultisetSums

  datatype Event = Event(action: string, resource: string)

  /** A worker waits in its range loop, delivers what it took there, looks
      whether done is closed, drains, delivers what it took while draining, or
      has returned. */
  datatype Worker = Ranging | Delivering(e: Event) | Looking | Draining | DrainDelivering(d: Event) | Exited

  /** attempts, accepted, taken and overlapped only remember history: taken is
      the order of receives, overlapped says that an Emit was accepted between the
      closing of done and the closing of the channel. */
  datatype State = State(cap: nat, buffer: seq<Event>, doneClosed: bool, chClosed: bool,
                         workers: seq<Worker>, returned: bool, panicked: bool,
                         attempts: nat, dropped: nat, accepted: seq<Event>, taken: seq<Event>, delivered: seq<Event>,
                         overlapped: bool)

  function Initial(bufferSize: int, workers: int): State {
    State(if bufferSize <= 0 then 256 else bufferSize, [], false, false,
          seq(if workers <= 0 then 1 else workers, _ => Ranging), false, false, 0, 0, [], [], [], false)
  }

  datatype Action =
    | Emit(evt: Event)
    | Receive(w: nat) | RangeEnd(w: nat) | Deliver(w: nat) | Look(w: nat) | DrainReceive(w: nat) | DrainEnd(w: nat)
    | CloseDone | CloseChannel | CloseReturn

  predicate Enabled(s: State, a: Action) {
    match a
    case Emit(_) => !s.panicked
    case Receive(w) => w < |s.workers| && s.workers[w].Ranging? && s.buffer != []
    case RangeEnd(w) => w < |s.workers| && s.workers[w].Ranging? && s.chClosed && s.buffer == []
    case Deliver(w) => w < |s.workers| && (s.workers[w].Delivering? || s.workers[w].DrainDelivering?)
    case Look(w) => w < |s.workers| && s.workers[w].Looking?
    case DrainReceive(w) => w < |s.workers| && s.workers[w].Draining? && s.buffer != []
    // closed or merely empty: both ways out of the drain loop
    case DrainEnd(w) => w < |s.workers| && s.workers[w].Draining? && s.buffer == []
    case CloseDone => !s.doneClosed
    case CloseChannel => s.doneClosed && !s.chClosed
    case CloseReturn => s.chClosed && forall w :: 0 <= w < |s.workers| ==> s.workers[w].Exited?
  }

  function Effect(s: State, a: Action): State
    requires Enabled(s, a)
  {
    match a
    case Emit(evt) =>
      // a send on a closed channel panics and delivers nothing
      if s.chClosed then s.(panicked := true)
      else
        var t := s.(attempts := s.attempts + 1);
        if |s.buffer| < s.cap then
          t.(buffer := s.buffer + [evt], accepted := s.accepted + [evt], overlapped := s.overlapped || s.doneClosed)
        else t.(dropped := s.dropped + 1)
    case Receive(w) =>
      s.(workers := s.workers[w := Delivering(s.buffer[0])], buffer := s.buffer[1..], taken := s.taken + [s.buffer[0]])
    case RangeEnd(w) => s.(workers := s.workers[w := Exited])
    case Deliver(w) =>
      if s.workers[w].Delivering?
      then s.(workers := s.workers[w := Looking], delivered := s.delivered + [s.workers[w].e])
      else s.(workers := s.workers[w := Draining], delivered := s.delivered + [s.workers[w].d])
    case Look(w) => s.(workers := s.workers[w := if s.doneClosed then Draining else Ranging])
    case DrainReceive(w) =>
      s.(workers := s.workers[w := DrainDelivering(s.buffer[0])], buffer := s.buffer[1..], taken := s.taken + [s.buffer[0]])
    case DrainEnd(w) => s.(workers := s.workers[w := Exited])
    case CloseDone => s.(doneClosed := true)
    case CloseChannel => s.(chClosed := true)
    case CloseReturn => s.(returned := true)
  }

  function Next(s: State, a: Action): State {
    if Enabled(s, a) then Effect(s, a) else s
  }

  function After(s: State, schedule: seq<Action>): State
    decreases |schedule|
  {
    if schedule == [] then s else Next(After(s, schedule[..|schedule| - 1]), schedule[|schedule| - 1])
  }

  // ---- what every state satisfies ----

  function InHand(w: Worker): seq<Event> {
    match w
    case Delivering(e) => [e]
    case DrainDelivering(d) => [d]
    case _ => []
  }

  /** The channel is first in, first out, and every Emit is counted once. */
  ghost predicate Queued(s: State) {
    && s.accepted == s.taken + s.buffer
    && |s.buffer| <= s.cap
    && s.attempts == |s.accepted| + s.dropped
  }

  /** What was received is in some worker's hand or delivered. */
  ghost predicate HandedOver(s: State) {
    multiset(s.taken) == Held(s.workers, InHand) + multiset(s.delivered)
  }

  /** One worker delivers in the order of its receives. */
  ghost predicate InOrder(s: State) {
    |s.workers| == 1 ==> s.taken == s.delivered + InHand(s.workers[0])
  }

  ghost predicate Phased(s: State) {
    && |s.workers| >= 1 && s.cap >= 1
    && (s.chClosed ==> s.doneClosed) && (s.panicked ==> s.chClosed)
    && (s.returned ==> s.chClosed && forall w :: 0 <= w < |s.workers| ==> s.workers[w].Exited?)
    && (forall w :: 0 <= w < |s.workers| && (s.workers[w].Draining? || s.workers[w].DrainDelivering? || s.workers[w].Exited?)
         ==> s.doneClosed)
    && (!s.overlapped && (exists w :: 0 <= w < |s.workers| && s.workers[w].Exited?) ==> s.buffer == [])
  }

  lemma EffectQueues(s: State, a: Action)
    requires Queued(s) && Enabled(s, a)
    ensures Queued(Effect(s, a))
  {
    if a.Receive? || a.DrainReceive? {
      assert s.buffer == [s.buffer[0]] + s.buffer[1..];
      assert s.taken + [s.buffer[0]] + s.buffer[1..] == s.taken + s.buffer;
    }
  }

  lemma EffectKeepsOrder(s: State, a: Action)
    requires InOrder(s) && Enabled(s, a)
    ensures InOrder(Effect(s, a))
  {
    if |s.workers| == 1 && (a.Receive? || a.DrainReceive?) {
      assert s.delivered + InHand(s.workers[0]) == s.delivered;
    }
  }

  lemma EffectKeepsPhases(s: State, a: Action)
    requires Phased(s) && Enabled(s, a)
    ensures Phased(Effect(s, a))
  {
    if a.Emit? || a.CloseDone? || a.CloseChannel? || a.CloseReturn? {
      assert Effect(s, a).workers == s.workers;
    } else {
      WorkerKeepsPhases(s, a);
    }
  }

  lemma WorkerKeepsPhases(s: State, a: Action)
    requires Phased(s) && Enabled(s, a) && !(a.Emit? || a.CloseDone? || a.CloseChannel? || a.CloseReturn?)
    ensures Phased(Effect(s, a))
  {
    var t := Effect(s, a);
    assert t.workers == s.workers[a.w := t.workers[a.w]];
    assert forall w :: 0 <= w < |t.workers| && t.workers[w].Exited? ==>
      s.workers[w].Exited? || a == DrainEnd(w) || a == RangeEnd(w);
  }

  lemma EffectHandsOver(s: State, a: Action)
    requires HandedOver(s) && Enabled(s, a)
    ensures HandedOver(Effect(s, a))
  {
    if a.Receive? || a.DrainReceive? {
      ReceiveHandsOver(s, a);
    } else if a.Deliver? {
      DeliverHandsOver(s, a.w);
    } else if a.RangeEnd? || a.Look? || a.DrainEnd? {
      IdleHandsOver(s, a);
    }
  }

  lemma ReceiveHandsOver(s: State, a: Action)
    requires HandedOver(s) && Enabled(s, a) && (a.Receive? || a.DrainReceive?)
    ensures HandedOver(Effect(s, a))
  {
    hide Held;
    var t, x := Effect(s, a), s.buffer[0];
    assert t.workers == s.workers[a.w := t.workers[a.w]] && t.taken == s.taken + [x] && t.delivered == s.delivered;
    assert InHand(t.workers[a.w]) == [x] && InHand(s.workers[a.w]) == [];
    hide Effect, InHand;
    HeldUpdate(s.workers, InHand, a.w, t.workers[a.w]);
    Shift(multiset(s.taken), Held(s.workers, InHand), multiset(s.delivered), multiset{x}, Held(t.workers, InHand));
    assert multiset(s.taken + [x]) == multiset(s.taken) + multiset{x};
  }

  lemma IdleHandsOver(s: State, a: Action)
    requires HandedOver(s) && Enabled(s, a) && (a.RangeEnd? || a.Look? || a.DrainEnd?)
    ensures HandedOver(Effect(s, a))
  {
    hide Held;
    var t := Effect(s, a);
    assert t == s.(workers := s.workers[a.w := t.workers[a.w]]);
    assert InHand(t.workers[a.w]) == [] && InHand(s.workers[a.w]) == [];
    hide Effect, InHand;
    HeldUpdate(s.workers, InHand, a.w, t.workers[a.w]);
    assert Held(t.workers, InHand) + multiset{} == Held(t.workers, InHand);
    assert Held(s.workers, InHand) + multiset{} == Held(s.workers, InHand);
  }

  lemma Shift(taken: multiset<Event>, h: multiset<Event>, d: multiset<Event>, x: multiset<Event>, h': multiset<Event>)
    requires taken == h + d && h' + multiset{} == h + x
    ensures taken + x == h' + d
  {
    assert h' == h' + multiset{};
    assert h + d + x == (h + x) + d;
  }

  lemma Give(taken: multiset<Event>, h: multiset<Event>, d: multiset<Event>, x: multiset<Event>, h': multiset<Event>)
    requires taken == h + d && h' + x == h + multiset{}
    ensures taken == h' + (d + x)
  {
    assert h == h + multiset{};
    assert (h' + x) + d == h' + (d + x);
  }

  lemma DeliverHandsOver(s: State, w: nat)
    requires HandedOver(s) && Enabled(s, Deliver(w))
    ensures HandedOver(Effect(s, Deliver(w)))
  {
    hide Held;
    var t := Effect(s, Deliver(w));
    var hand := InHand(s.workers[w]);
    assert t.workers == s.workers[w := t.workers[w]] && t.delivered == s.delivered + hand && t.taken == s.taken;
    assert InHand(t.workers[w]) == [];
    hide Effect, InHand;
    HeldUpdate(s.workers, InHand, w, t.workers[w]);
    assert multiset(t.delivered) == multiset(s.delivered) + multiset(hand);
    Give(multiset(s.taken), Held(s.workers, InHand), multiset(s.delivered), multiset(hand), Held(t.workers, InHand));
  }

  ghost predicate Invariant(s: State) {
    Queued(s) && HandedOver(s) && InOrder(s) && Phased(s)
  }

  lemma InitialInvariant(bufferSize: int, workers: int)
    ensures Invariant(Initial(bufferSize, workers))
  {
    HeldNothing(Initial(bufferSize, workers).workers, InHand);
  }

  lemma NextKeeps(s: State, a: Action)
    requires Invariant(s)
    ensures Invariant(Next(s, a))
  {
    hide Queued, HandedOver, InOrder, Phased, Effect;
    if Enabled(s, a) {
      EffectQueues(s, a);
      EffectHandsOver(s, a);
      EffectKeepsOrder(s, a);
      EffectKeepsPhases(s, a);
    }
  }

  lemma {:induction false} InvariantHolds(bufferSize: int, workers: int, schedule: seq<Action>)
    ensures Invariant(After(Initial(bufferSize, workers), schedule))
  {
    hide Invariant;
    if schedule == [] {
      InitialInvariant(bufferSize, workers);
    } else {
      InvariantHolds(bufferSize, workers, schedule[..|schedule| - 1]);
      NextKeeps(After(Initial(bufferSize, workers), schedule[..|schedule| - 1]), schedule[|schedule| - 1]);
    }
  }

  // ---- main results ----

  /** Always: attempts = accepted + dropped, nothing is delivered that was not
      accepted, and one worker delivers a prefix of what was accepted. */
  lemma DeliveredWasAccepted(bufferSize: int, workers: int, schedule: seq<Action>)
    ensures var s := After(Initial(bufferSize, workers), schedule);
      && s.attempts == |s.accepted| + s.dropped && |s.buffer| <= s.cap
      && multiset(s.delivered) <= multiset(s.accepted)
      && (|s.workers| == 1 ==> s.delivered <= s.accepted)
  {
    InvariantHolds(bufferSize, workers, schedule);
    AcceptedCoversDelivered(After(Initial(bufferSize, workers), schedule));
  }

  lemma AcceptedCoversDelivered(s: State)
    requires Queued(s) && HandedOver(s) && InOrder(s)
    ensures multiset(s.delivered) <= multiset(s.accepted)
    ensures |s.workers| == 1 ==> s.delivered <= s.accepted
  {
    hide Held;
    assert multiset(s.taken + s.buffer) == multiset(s.taken) + multiset(s.buffer);
    if |s.workers| == 1 {
      assert s.accepted == s.delivered + (InHand(s.workers[0]) + s.buffer);
    }
  }

  /** When Close is back and no Emit was accepted between its halves, everything
      accepted has been delivered, by one worker in the order of acceptance, although
      a drain loop also ends on a channel that is empty but still open. */
  lemma CloseDeliversAll(bufferSize: int, workers: int, schedule: seq<Action>)
    requires var s := After(Initial(bufferSize, workers), schedule); s.returned && !s.overlapped
    ensures var s := After(Initial(bufferSize, workers), schedule);
      && multiset(s.delivered) == multiset(s.accepted)
      && (|s.workers| == 1 ==> s.delivered == s.accepted)
      && |s.delivered| + s.dropped == s.attempts
  {
    InvariantHolds(bufferSize, workers, schedule);
    ClosedAccount(After(Initial(bufferSize, workers), schedule));
  }

  // ---- what becomes of one Emit ----

  /** A drop needs a buffer that was filled. */
  ghost predicate Filled(s: State) {
    s.dropped > 0 ==> |s.accepted| >= s.cap
  }

  lemma NextFills(s: State, a: Action)
    requires Queued(s) && Filled(s)
    ensures Filled(Next(s, a)) && Next(s, a).cap == s.cap && |Next(s, a).workers| == |s.workers|
  {
  }

  /** The configured sizes, or their defaults, hold for good; and as long as there were
      no more Emits than the buffer holds, none has lost its event. */
  lemma {:induction false} NoDropWithinCapacity(bufferSize: int, workers: int, schedule: seq<Action>)
    ensures var s := After(Initial(bufferSize, workers), schedule);
      && s.cap == (if bufferSize > 0 then bufferSize else 256)
      && |s.workers| == (if workers > 0 then workers else 1)
      && (s.attempts <= s.cap ==> s.dropped == 0)
      && Filled(s)
  {
    InvariantHolds(bufferSize, workers, schedule);
    if schedule != [] {
      var front, a := schedule[..|schedule| - 1], schedule[|schedule| - 1];
      NoDropWithinCapacity(bufferSize, workers, front);
      InvariantHolds(bufferSize, workers, front);
      NextFills(After(Initial(bufferSize, workers), front), a);
      hide Next, Held, Initial;
    }
  }

  /** An event is dropped by an Emit on an open channel whose buffer is full, and never
      else. */
  lemma DropsWhenFull(s: State, a: Action)
    requires |s.buffer| <= s.cap && !s.panicked
    ensures Next(s, a).dropped == s.dropped + if a.Emit? && !s.chClosed && |s.buffer| == s.cap then 1 else 0
  {
  }

  /** In any interleaving an Emit on the open channel is counted and joins the end of the
      buffer if there is room; on a closed channel it panics and changes nothing else. */
  lemma EmitFate(bufferSize: int, workers: int, before: seq<Action>, evt: Event)
    requires !After(Initial(bufferSize, workers), before).panicked
    ensures var s := After(Initial(bufferSize, workers), before);
      var t := After(Initial(bufferSize, workers), before + [Emit(evt)]);
      var room := |s.buffer| < if bufferSize > 0 then bufferSize else 256;
      && (s.chClosed ==> t == s.(panicked := true))
      && (!s.chClosed ==> t.attempts == s.attempts + 1 && !t.panicked && t.workers == s.workers && t.delivered == s.delivered)
      && (!s.chClosed && room ==> t.accepted == s.accepted + [evt] && t.buffer == s.buffer + [evt] && t.dropped == s.dropped)
      && (!s.chClosed && !room ==> t.accepted == s.accepted && t.buffer == s.buffer && t.dropped == s.dropped + 1)
  {
    NoDropWithinCapacity(bufferSize, workers, before);
    var p := Step(before, Emit(evt), bufferSize, workers);
    hide After, Initial, Filled;
  }

  // ---- exactly when nothing can be lost ----

  /** Whatever happens next, once Close is back everything accepted is delivered. */
  ghost predicate DeliveryGuaranteed(s: State) {
    forall more :: After(s, more).returned ==> multiset(After(s, more).delivered) == multiset(After(s, more).accepted)
  }

  /** The channel is closed, and what is left in it has a worker to come to it. */
  ghost predicate WillDrain(s: State) {
    s.chClosed && (s.buffer == [] || exists w :: 0 <= w < |s.workers| && !s.workers[w].Exited?)
  }

  lemma {:induction false} AfterConcat(s: State, a: seq<Action>, b: seq<Action>)
    ensures After(s, a + b) == After(After(s, a), b)
    decreases |b|
  {
    if b == [] {
      assert a + b == a;
    } else {
      assert (a + b)[..|a + b| - 1] == a + b[..|b| - 1];
      AfterConcat(s, a, b[..|b| - 1]);
    }
  }

  lemma AfterOne(s: State, a: Action)
    ensures After(s, [a]) == Next(s, a)
  {
    assert [a][..0] == [] && After(s, []) == s;
  }

  lemma {:induction false} StaysInvariant(s: State, more: seq<Action>)
    requires Invariant(s)
    ensures Invariant(After(s, more))
    decreases |more|
  {
    if more != [] {
      hide Invariant;
      StaysInvariant(s, more[..|more| - 1]);
      NextKeeps(After(s, more[..|more| - 1]), more[|more| - 1]);
    }
  }

  lemma NextWillDrain(s: State, a: Action)
    requires Phased(s) && WillDrain(s)
    ensures WillDrain(Next(s, a))
  {
    if Enabled(s, a) && s.buffer != [] {
      var w :| 0 <= w < |s.workers| && !s.workers[w].Exited?;
      assert !Effect(s, a).workers[w].Exited?;
    }
  }

  lemma {:induction false} StaysWillDrain(s: State, more: seq<Action>)
    requires Invariant(s) && WillDrain(s)
    ensures WillDrain(After(s, more))
    decreases |more|
  {
    if more != [] {
      StaysWillDrain(s, more[..|more| - 1]);
      StaysInvariant(s, more[..|more| - 1]);
      hide After, WillDrain;
      NextWillDrain(After(s, more[..|more| - 1]), more[|more| - 1]);
    }
  }

  lemma DrainedDelivers(s: State)
    requires Invariant(s) && s.buffer == [] && forall w :: 0 <= w < |s.workers| ==> s.workers[w].Exited?
    ensures multiset(s.delivered) == multiset(s.accepted)
  {
    HeldNothing(s.workers, InHand);
    assert s.accepted == s.taken;
  }

  /** In any reachable state, complete delivery is guaranteed exactly if the channel is
      closed and either empty or still has a worker. */
  lemma DeliveryGuaranteedExactly(bufferSize: int, workers: int, schedule: seq<Action>)
    ensures var s := After(Initial(bufferSize, workers), schedule); DeliveryGuaranteed(s) <==> WillDrain(s)
  {
    var s := After(Initial(bufferSize, workers), schedule);
    InvariantHolds(bufferSize, workers, schedule);
    if WillDrain(s) {
      forall more | After(s, more).returned
        ensures multiset(After(s, more).delivered) == multiset(After(s, more).accepted)
      {
        StaysWillDrain(s, more);
        StaysInvariant(s, more);
        DrainedDelivers(After(s, more));
      }
    } else {
      var more := LosingSchedule(s);
      assert After(s, more).returned && multiset(After(s, more).delivered) != multiset(After(s, more).accepted);
    }
  }

  /** So, as long as no Emit was accepted between the halves of Close: exactly from the
      closing of the channel on. */
  lemma GuaranteedFromClose(bufferSize: int, workers: int, schedule: seq<Action>)
    requires !After(Initial(bufferSize, workers), schedule).overlapped
    ensures var s := After(Initial(bufferSize, workers), schedule); DeliveryGuaranteed(s) <==> s.chClosed
  {
    DeliveryGuaranteedExactly(bufferSize, workers, schedule);
    InvariantHolds(bufferSize, workers, schedule);
  }

  lemma SomeLost(s: State)
    requires Invariant(s) && s.buffer != []
    ensures multiset(s.delivered) != multiset(s.accepted)
  {
    assert multiset(s.accepted) == multiset(s.taken) + multiset(s.buffer);
    assert |multiset(s.taken)| == |Held(s.workers, InHand)| + |multiset(s.delivered)|;
    assert |multiset(s.buffer)| == |s.buffer| > 0;
  }

  /** Ends one worker while the channel stays open: a worker at its range loop is given
      an event to get it past it. */
  lemma {:induction false} ExitOne(s: State, w: nat, x: Event) returns (more: seq<Action>)
    requires Invariant(s) && s.doneClosed && !s.chClosed && w < |s.workers|
    ensures var t := After(s, more);
      Invariant(t) && t.doneClosed && !t.chClosed && t.workers == s.workers[w := Exited]
    decreases if !s.workers[w].Ranging? then 0 else if s.buffer == [] then 2 else 1, Pace(s.workers[w]) + 4 * |s.buffer|
  {
    if s.workers[w].Exited? {
      more := [];
      assert s.workers[w := Exited] == s.workers;
    } else {
      var a := if s.workers[w].Ranging? && s.buffer == [] then Emit(x) else WorkerAction(s, w);
      var t := Next(s, a);
      NextKeeps(s, a);
      ExitStep(s, w, x);
      hide Invariant, Next, After, WorkerAction;
      var rest := ExitOne(t, w, x);
      more := [a] + rest;
      AfterOne(s, a);
      AfterConcat(s, [a], rest);
      assert s.workers[w := t.workers[w]][w := Exited] == s.workers[w := Exited];
    }
  }

  lemma ExitStep(s: State, w: nat, x: Event)
    requires Phased(s) && s.doneClosed && !s.chClosed && w < |s.workers| && !s.workers[w].Exited?
    ensures var t := Next(s, if s.workers[w].Ranging? && s.buffer == [] then Emit(x) else WorkerAction(s, w));
      && t.doneClosed && !t.chClosed && |t.workers| == |s.workers| && t.workers == s.workers[w := t.workers[w]]
      && (s.workers[w].Ranging? && s.buffer == [] ==> t.workers[w].Ranging? && t.buffer != [])
      && (s.workers[w].Ranging? && s.buffer != [] ==> !t.workers[w].Ranging?)
      && (!s.workers[w].Ranging? ==>
           !t.workers[w].Ranging? && Pace(t.workers[w]) + 4 * |t.buffer| < Pace(s.workers[w]) + 4 * |s.buffer|)
  {
    if s.workers[w].Ranging? && s.buffer == [] {
      assert Next(s, Emit(x)).workers == s.workers;
    } else {
      WorkerMoves(s, w);
    }
  }

  lemma {:induction false} ExitFrom(s: State, w: nat, x: Event) returns (more: seq<Action>)
    requires Invariant(s) && s.doneClosed && !s.chClosed && w <= |s.workers|
    requires forall v :: 0 <= v < w ==> s.workers[v].Exited?
    ensures var t := After(s, more);
      Invariant(t) && t.doneClosed && !t.chClosed && forall v :: 0 <= v < |t.workers| ==> t.workers[v].Exited?
    decreases |s.workers| - w
  {
    if w == |s.workers| {
      more := [];
    } else {
      hide Invariant;
      var first := ExitOne(s, w, x);
      var rest := ExitFrom(After(s, first), w + 1, x);
      more := first + rest;
      AfterConcat(s, first, rest);
    }
  }

  /** Otherwise some continuation loses an event: every worker ends before the channel
      is closed, and an event is sent in between. */
  lemma LosingSchedule(s: State) returns (more: seq<Action>)
    requires Invariant(s) && !WillDrain(s)
    ensures After(s, more).returned && multiset(After(s, more).delivered) != multiset(After(s, more).accepted)
  {
    if s.chClosed {
      more := [CloseReturn];
      AfterOne(s, CloseReturn);
      NextKeeps(s, CloseReturn);
      SomeLost(After(s, more));
    } else {
      var x := Event("", "");
      var s1 := After(s, [CloseDone]);
      AfterOne(s, CloseDone);
      NextKeeps(s, CloseDone);
      assert s1.doneClosed && !s1.chClosed;
      var exit := ExitFrom(s1, 0, x);
      var s2 := After(s1, exit);
      var end := LoseNow(s2, x);
      AfterConcat(s, [CloseDone], exit);
      AfterConcat(s, [CloseDone] + exit, end);
      more := [CloseDone] + exit + end;
    }
  }

  lemma LoseNow(s: State, x: Event) returns (more: seq<Action>)
    requires Invariant(s) && s.doneClosed && !s.chClosed && forall v :: 0 <= v < |s.workers| ==> s.workers[v].Exited?
    ensures After(s, more).returned && multiset(After(s, more).delivered) != multiset(After(s, more).accepted)
  {
    var a := if s.buffer == [] then Emit(x) else CloseDone;
    var s1 := Next(s, a);
    NextKeeps(s, a);
    assert s1.buffer != [] && s1.workers == s.workers && s1.doneClosed && !s1.chClosed;
    var s3 := Next(Next(s1, CloseChannel), CloseReturn);
    CloseNow(s1);
    SomeLost(s3);
    hide *;
    AfterOne(s, a);
    AfterOne(s1, CloseChannel);
    AfterOne(Next(s1, CloseChannel), CloseReturn);
    AfterConcat(s, [a], [CloseChannel]);
    AfterConcat(s, [a] + [CloseChannel], [CloseReturn]);
    more := [a] + [CloseChannel] + [CloseReturn];
  }

  lemma CloseNow(s: State)
    requires Invariant(s) && s.doneClosed && !s.chClosed && forall v :: 0 <= v < |s.workers| ==> s.workers[v].Exited?
    ensures var t := Next(Next(s, CloseChannel), CloseReturn); Invariant(t) && t.returned && t.buffer == s.buffer
  {
    hide Invariant;
    NextKeeps(s, CloseChannel);
    NextKeeps(Next(s, CloseChannel), CloseReturn);
  }

  /** An Emit that falls between the two halves of Close may be accepted and
      never delivered. */
  lemma OverlappingEmitCanBeLost(x: Event, y: Event)
    ensures exists schedule :: var s := After(Initial(1, 1), schedule);
      s.returned && !s.panicked && s.accepted == [x, y] && s.delivered == [x]
  {
    var p := LastWorkerGone(x);
    hide After;
    p := Step(p, Emit(y), 1, 1);
    p := Step(p, CloseChannel, 1, 1);
    p := Step(p, CloseReturn, 1, 1);
  }

  lemma LastWorkerGone(x: Event) returns (p: seq<Action>)
    ensures After(Initial(1, 1), p) == State(1, [], true, false, [Exited], false, false, 1, 0, [x], [x], [x], false)
  {
    p := DeliveredOne(x);
    hide After;
    p := Step(p, CloseDone, 1, 1);
    p := Step(p, Look(0), 1, 1);
    p := Step(p, DrainEnd(0), 1, 1);
  }

  lemma DeliveredOne(x: Event) returns (p: seq<Action>)
    ensures After(Initial(1, 1), p) == State(1, [], false, false, [Looking], false, false, 1, 0, [x], [x], [x], false)
  {
    assert Initial(1, 1).workers == [Ranging];
    assert After(Initial(1, 1), []) == Initial(1, 1);
    hide After;
    p := Step([], Emit(x), 1, 1);
    p := Step(p, Receive(0), 1, 1);
    p := Step(p, Deliver(0), 1, 1);
  }

  lemma Step(p: seq<Action>, a: Action, bufferSize: int, workers: int) returns (q: seq<Action>)
    ensures q == p + [a]
    ensures After(Initial(bufferSize, workers), q) == Next(After(Initial(bufferSize, workers), p), a)
  {
    q := p + [a];
    assert q[..|p|] == p;
  }

  // ---- the imperative form ----

  class Emitter {
    const capacity: nat
    var ch: seq<Event>
    var done: bool
    var chClosed: bool
    var workers: seq<Worker>
    var panicked: bool
    ghost var returned: bool
    ghost var attempts: nat
    ghost var dropped: nat
    ghost var accepted: seq<Event>
    ghost var taken: seq<Event>
    ghost var delivered: seq<Event>
    ghost var overlapped: bool

    ghost function Contents(): State
      reads this
    {
      State(capacity, ch, done, chClosed, workers, returned, panicked, attempts, dropped, accepted, taken, delivered, overlapped)
    }

    ghost predicate Valid()
      reads this
    {
      Invariant(Contents())
    }

    constructor (bufferSize: int, workerCount: int)
      ensures Valid() && Contents() == Initial(bufferSize, workerCount)
    {
      capacity := if bufferSize <= 0 then 256 else bufferSize;
      ch, done, chClosed, panicked := [], false, false, false;
      workers := seq(if workerCount <= 0 then 1 else workerCount, _ => Ranging);
      returned, attempts, dropped, accepted, taken, delivered, overlapped := false, 0, 0, [], [], [], false;
      new;
      InitialInvariant(bufferSize, workerCount);
      assert workers == Initial(bufferSize, workerCount).workers;
    }

    /** Emit: the select never blocks, and sends on a closed channel panic. */
    method Emit(evt: Event)
      requires Valid() && !panicked
      modifies this
      ensures Valid() && Contents() == Next(old(Contents()), Action.Emit(evt))
    {
      hide Invariant;
      NextKeeps(Contents(), Action.Emit(evt));
      if chClosed {
        panicked := true;
        return;
      }
      attempts := attempts + 1;
      if |ch| < capacity {
        ch, accepted, overlapped := ch + [evt], accepted + [evt], overlapped || done;
      } else {
        dropped := dropped + 1;
      }
    }

    /** The body of sync.Once in Close. */
    method CloseOnce()
      requires Valid()
      modifies this
      ensures Valid() && Contents() == Next(Next(old(Contents()), CloseDone), CloseChannel)
      ensures done && chClosed && accepted == old(accepted) && attempts == old(attempts) && dropped == old(dropped)
      ensures overlapped == old(overlapped)
    {
      hide Invariant;
      NextKeeps(Contents(), CloseDone);
      done := true;
      NextKeeps(Contents(), CloseChannel);
      chClosed := true;
    }

    /** One move of a worker; nothing happens if it has to wait. */
    method WorkerStep(w: nat)
      requires Valid() && w < |workers|
      modifies this
      ensures Valid() && Contents() == Next(old(Contents()), WorkerAction(old(Contents()), w))
    {
      hide Invariant, Next, WorkerAction;
      WorkerMoves(Contents(), w);
      NextKeeps(Contents(), WorkerAction(Contents(), w));
      if workers[w].Ranging? || workers[w].Draining? {
        ReceiveOrEnd(w);
      } else {
        DeliverOrLook(w);
      }
    }

    /** A worker at its range loop or drain loop. */
    method ReceiveOrEnd(w: nat)
      requires w < |workers| && (workers[w].Ranging? || workers[w].Draining?)
      modifies this`workers, this`ch, this`taken
      ensures |old(ch)| > 0 ==>
        && workers == old(workers)[w := if old(workers)[w].Ranging? then Delivering(old(ch)[0]) else DrainDelivering(old(ch)[0])]
        && ch == old(ch)[1..] && taken == old(taken) + [old(ch)[0]]
      ensures |old(ch)| == 0 ==>
        && ch == old(ch) && taken == old(taken)
        && workers == if old(workers)[w].Draining? || chClosed then old(workers)[w := Exited] else old(workers)
    {
      if |ch| > 0 {
        workers := workers[w := if workers[w].Ranging? then Delivering(ch[0]) else DrainDelivering(ch[0])];
        ch, taken := ch[1..], taken + [ch[0]];
      } else if workers[w].Draining? || chClosed {
        workers := workers[w := Exited];
      }
    }

    /** A worker with an event in hand, or past a delivery. */
    method DeliverOrLook(w: nat)
      requires w < |workers| && !workers[w].Ranging? && !workers[w].Draining?
      modifies this`workers, this`delivered
      ensures delivered == match old(workers)[w]
                           case Delivering(e) => old(delivered) + [e]
                           case DrainDelivering(d) => old(delivered) + [d]
                           case _ => old(delivered)
      ensures workers == match old(workers)[w]
                         case Delivering(_) => old(workers)[w := Looking]
                         case DrainDelivering(_) => old(workers)[w := Draining]
                         case Looking => old(workers)[w := if done then Draining else Ranging]
                         case _ => old(workers)
    {
      match workers[w] {
        case Delivering(e) =>
          workers, delivered := workers[w := Looking], delivered + [e];
        case DrainDelivering(d) =>
          workers, delivered := workers[w := Draining], delivered + [d];
        case Looking =>
          workers := workers[w := if done then Draining else Ranging];
        case _ =>
      }
    }

    /** Close, waiting while the workers run to their end. */
    method Close()
      requires Valid()
      modifies this
      ensures Valid() && returned && accepted == old(accepted) && dropped == old(dropped) && attempts == old(attempts)
      ensures overlapped == old(overlapped)
      ensures !overlapped ==>
        && multiset(delivered) == multiset(accepted) && |delivered| + dropped == attempts
        && (|workers| == 1 ==> delivered == accepted)
    {
      assert chClosed ==> done;
      hide Invariant;
      if !chClosed {
        CloseOnce();
      }
      RunWorkers();
      ReturnKeeps(Contents());
      returned := true;
      if !overlapped { ClosedAccount(Contents()); }
    }

    method RunWorkers()
      requires Valid() && chClosed && done
      modifies this
      ensures Valid() && chClosed && forall v :: 0 <= v < |workers| ==> workers[v].Exited?
      ensures accepted == old(accepted) && attempts == old(attempts) && dropped == old(dropped)
      ensures overlapped == old(overlapped)
    {
      hide Invariant, Next, WorkerAction;
      var w := 0;
      while w < |workers|
        invariant Valid() && chClosed && done && w <= |workers|
        invariant forall v :: 0 <= v < w ==> workers[v].Exited?
        invariant accepted == old(accepted) && attempts == old(attempts) && dropped == old(dropped)
        invariant overlapped == old(overlapped)
        decreases |workers| - w, if w < |workers| then Pace(workers[w]) + 4 * |ch| else 0
      {
        if workers[w].Exited? {
          w := w + 1;
        } else {
          WorkerProgress(Contents(), w);
          WorkerStep(w);
        }
      }
    }
  }

  function WorkerAction(s: State, w: nat): Action
    requires w < |s.workers|
  {
    match s.workers[w]
    case Ranging => if s.buffer == [] then RangeEnd(w) else Receive(w)
    case Looking => Look(w)
    case Draining => if s.buffer == [] then DrainEnd(w) else DrainReceive(w)
    case _ => Deliver(w)
  }

  lemma WorkerMoves(s: State, w: nat)
    requires w < |s.workers|
    ensures var t := Next(s, WorkerAction(s, w));
      match s.workers[w]
      case Ranging =>
        if |s.buffer| > 0 then
          t == s.(workers := s.workers[w := Delivering(s.buffer[0])], buffer := s.buffer[1..], taken := s.taken + [s.buffer[0]])
        else if s.chClosed then t == s.(workers := s.workers[w := Exited])
        else t == s
      case Delivering(e) => t == s.(workers := s.workers[w := Looking], delivered := s.delivered + [e])
      case Looking => t == s.(workers := s.workers[w := if s.doneClosed then Draining else Ranging])
      case Draining =>
        if |s.buffer| > 0 then
          t == s.(workers := s.workers[w := DrainDelivering(s.buffer[0])], buffer := s.buffer[1..], taken := s.taken + [s.buffer[0]])
        else t == s.(workers := s.workers[w := Exited])
      case DrainDelivering(d) => t == s.(workers := s.workers[w := Draining], delivered := s.delivered + [d])
      case Exited => t == s
  {
  }

  function Pace(w: Worker): nat {
    match w
    case Ranging => 1
    case Delivering(_) => 4
    case Looking => 3
    case Draining => 2
    case DrainDelivering(_) => 3
    case Exited => 0
  }

  /** Once the channel is closed every move of a worker brings its end closer. */
  lemma WorkerProgress(s: State, w: nat)
    requires w < |s.workers| && s.chClosed && s.doneClosed && !s.workers[w].Exited?
    ensures var t := Next(s, WorkerAction(s, w));
      && |t.workers| == |s.workers| && t.workers == s.workers[w := t.workers[w]]
      && Pace(t.workers[w]) + 4 * |t.buffer| < Pace(s.workers[w]) + 4 * |s.buffer|
      && t.chClosed && t.doneClosed && t.overlapped == s.overlapped
      && t.accepted == s.accepted && t.attempts == s.attempts && t.dropped == s.dropped
  {
    WorkerMoves(s, w);
    hide Next, WorkerAction;
  }

  lemma ReturnKeeps(s: State)
    requires Invariant(s) && s.chClosed && forall w :: 0 <= w < |s.workers| ==> s.workers[w].Exited?
    ensures Invariant(s.(returned := true))
  {
    NextKeeps(s, CloseReturn);
  }

  /** The books of a closed emitter that no Emit overlapped. */
  lemma ClosedAccount(s: State)
    requires Invariant(s) && s.returned && !s.overlapped
    ensures multiset(s.delivered) == multiset(s.accepted)
    ensures |s.workers| == 1 ==> s.delivered == s.accepted
    ensures |s.delivered| + s.dropped == s.attempts
  {
    assert s.workers[0].Exited?;
    HeldNothing(s.workers, InHand);
    assert s.accepted == s.taken;
    assert |multiset(s.delivered)| == |multiset(s.accepted)|;
  }
}
