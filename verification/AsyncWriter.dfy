/** AsyncInfluxWriter as a step system: callers of Enqueue, N workers draining a
    bounded channel, and Close. */
module AsyncWriter {
  import opened MultisetSums

  datatype Sample = Sample(hostId: string, metrics: int)

  /** Where a worker stands: at its select, flushing a sample taken there, in the
      drain loop after stop, flushing a sample taken there, or returned. */
  datatype Worker = Selecting | Flushing(s: Sample) | Draining | DrainFlushing(d: Sample) | Exited

  datatype Closer = NotCalled | Swapped | Waiting | Returned

  /** pending holds the samples of Enqueue calls that are past the stopped check
      but have not reached their select. accepted, sent, flushed and overlapped
      only remember history; overlapped says that a call was pending when Close
      set stopped. */
  datatype State = State(cap: nat, buffer: seq<Sample>, stopped: bool, stopClosed: bool,
                         workers: seq<Worker>, pending: map<nat, Sample>, closer: Closer,
                         dropped: nat, accepted: nat, sent: seq<Sample>, flushed: seq<Sample>,
                         overlapped: bool)

  function Capacity(bufferSize: int): nat { if bufferSize <= 0 then 256 else bufferSize }

  function WorkerCount(workers: int): nat { if workers <= 0 then 1 else workers }

  function Initial(bufferSize: int, workers: int): State {
    State(Capacity(bufferSize), [], false, false, seq(WorkerCount(workers), _ => Selecting), map[], NotCalled,
          0, 0, [], [], false)
  }

  datatype Action =
    | Check(c: nat, sample: Sample) | Send(c: nat)            // the two halves of Enqueue
    | Take(w: nat) | SeeStop(w: nat) | Flush(w: nat)          // a worker's select and flush
    | DrainTake(w: nat) | DrainEnd(w: nat)
    | SwapStopped | CloseStop | CloseReturn                   // Close, by its first caller

  predicate Enabled(s: State, a: Action) {
    match a
    case Check(c, _) => c !in s.pending
    case Send(c) => c in s.pending
    case Take(w) => w < |s.workers| && s.workers[w].Selecting? && s.buffer != []
    case SeeStop(w) => w < |s.workers| && s.workers[w].Selecting? && s.stopClosed
    case Flush(w) => w < |s.workers| && (s.workers[w].Flushing? || s.workers[w].DrainFlushing?)
    case DrainTake(w) => w < |s.workers| && s.workers[w].Draining? && s.buffer != []
    case DrainEnd(w) => w < |s.workers| && s.workers[w].Draining? && s.buffer == []
    case SwapStopped => s.closer.NotCalled?
    case CloseStop => s.closer.Swapped?
    case CloseReturn => s.closer.Waiting? && forall w :: 0 <= w < |s.workers| ==> s.workers[w].Exited?
  }

  function Effect(s: State, a: Action): State
    requires Enabled(s, a)
  {
    match a
    case Check(c, sample) =>
      if s.stopped then s else s.(pending := s.pending[c := sample], accepted := s.accepted + 1)
    case Send(c) =>
      var t := s.(pending := s.pending - {c});
      if |s.buffer| < s.cap then t.(buffer := s.buffer + [s.pending[c]], sent := s.sent + [s.pending[c]])
      else t.(dropped := s.dropped + 1)
    case Take(w) => s.(workers := s.workers[w := Flushing(s.buffer[0])], buffer := s.buffer[1..])
    case SeeStop(w) => s.(workers := s.workers[w := Draining])
    case Flush(w) =>
      if s.workers[w].Flushing?
      then s.(workers := s.workers[w := Selecting], flushed := s.flushed + [s.workers[w].s])
      else s.(workers := s.workers[w := Draining], flushed := s.flushed + [s.workers[w].d])
    case DrainTake(w) => s.(workers := s.workers[w := DrainFlushing(s.buffer[0])], buffer := s.buffer[1..])
    case DrainEnd(w) => s.(workers := s.workers[w := Exited])
    case SwapStopped => s.(stopped := true, closer := Swapped, overlapped := s.pending != map[])
    case CloseStop => s.(stopClosed := true, closer := Waiting)
    case CloseReturn => s.(closer := Returned)
  }

  function Next(s: State, a: Action): State {
    if Enabled(s, a) then Effect(s, a) else s
  }

  function After(s: State, schedule: seq<Action>): State
    decreases |schedule|
  {
    if schedule == [] then s else Next(After(s, schedule[..|schedule| - 1]), schedule[|schedule| - 1])
  }

  // ---- conservation ----

  function InHand(w: Worker): seq<Sample> {
    match w
    case Flushing(s) => [s]
    case DrainFlushing(d) => [d]
    case _ => []
  }

  ghost predicate Conserved(s: State) {
    && multiset(s.sent) == multiset(s.buffer) + Held(s.workers, InHand) + multiset(s.flushed)
    && |s.buffer| <= s.cap
    && s.accepted == |s.sent| + s.dropped + |s.pending|
  }

  /** How the flags, the workers and the closing call go together. */
  ghost predicate Phased(s: State) {
    && |s.workers| >= 1 && s.cap >= 1
    && (s.stopped <==> !s.closer.NotCalled?)
    && (s.stopClosed <==> s.closer.Waiting? || s.closer.Returned?)
    && (forall w :: 0 <= w < |s.workers| && (s.workers[w].Draining? || s.workers[w].DrainFlushing? || s.workers[w].Exited?)
         ==> s.stopClosed)
    && (s.closer.Returned? ==> forall w :: 0 <= w < |s.workers| ==> s.workers[w].Exited?)
    && (s.stopped && !s.overlapped ==> s.pending == map[])
    && (!s.overlapped && (exists w :: 0 <= w < |s.workers| && s.workers[w].Exited?) ==> s.buffer == [])
  }

  lemma InitialInvariant(bufferSize: int, workers: int)
    ensures Conserved(Initial(bufferSize, workers)) && Phased(Initial(bufferSize, workers))
  {
    HeldNothing(Initial(bufferSize, workers).workers, InHand);
  }

  lemma EffectConserves(s: State, a: Action)
    requires Conserved(s) && Enabled(s, a)
    ensures Conserved(Effect(s, a))
  {
    hide Held, Conserved, Effect;
    match a
    case Send(c) => SendConserves(s, c);
    case Take(w) => TakeConserves(s, a);
    case DrainTake(w) => TakeConserves(s, a);
    case Flush(w) => FlushConserves(s, w);
    case SeeStop(w) => IdleConserves(s, a);
    case DrainEnd(w) => IdleConserves(s, a);
    case _ => CountsConserve(s, a);
  }

  lemma CountsConserve(s: State, a: Action)
    requires Conserved(s) && Enabled(s, a)
    requires a.Check? || a.SwapStopped? || a.CloseStop? || a.CloseReturn?
    ensures Conserved(Effect(s, a))
  {
    hide Held;
  }

  lemma IdleConserves(s: State, a: Action)
    requires Conserved(s) && Enabled(s, a) && (a.SeeStop? || a.DrainEnd?)
    ensures Conserved(Effect(s, a))
  {
    hide Held;
    var t := Effect(s, a);
    assert t == s.(workers := s.workers[a.w := t.workers[a.w]]);
    assert InHand(t.workers[a.w]) == [] && InHand(s.workers[a.w]) == [];
    hide Effect, InHand;
    HeldUpdate(s.workers, InHand, a.w, t.workers[a.w]);
    assert Held(t.workers, InHand) + multiset{} == Held(t.workers, InHand);
    assert Held(s.workers, InHand) + multiset{} == Held(s.workers, InHand);
  }

  lemma SendConserves(s: State, c: nat)
    requires Conserved(s) && Enabled(s, Send(c))
    ensures Conserved(Effect(s, Send(c)))
  {
    hide Held;
    assert s.pending.Keys == (s.pending - {c}).Keys + {c};
    assert |s.pending| == |s.pending - {c}| + 1;
    if |s.buffer| < s.cap {
      var x := multiset{s.pending[c]};
      assert Effect(s, Send(c)).sent == s.sent + [s.pending[c]];
      assert multiset(s.sent + [s.pending[c]]) == multiset(s.sent) + x;
      assert multiset(s.buffer + [s.pending[c]]) == multiset(s.buffer) + x;
      Move1(multiset(s.sent), multiset(s.buffer), Held(s.workers, InHand), multiset(s.flushed), x);
    }
  }

  lemma Move1(sent: multiset<Sample>, b: multiset<Sample>, h: multiset<Sample>, f: multiset<Sample>, x: multiset<Sample>)
    requires sent == b + h + f
    ensures sent + x == (b + x) + h + f
  {
  }

  lemma Move2(sent: multiset<Sample>, b: multiset<Sample>, h: multiset<Sample>, f: multiset<Sample>, x: multiset<Sample>,
              h': multiset<Sample>)
    requires sent == (x + b) + h + f && h' + multiset{} == h + x
    ensures sent == b + h' + f
  {
    assert h' == h' + multiset{};
    assert (x + b) + h + f == b + (h + x) + f;
  }

  lemma Move3(sent: multiset<Sample>, b: multiset<Sample>, h: multiset<Sample>, f: multiset<Sample>, x: multiset<Sample>,
              h': multiset<Sample>)
    requires sent == b + h + f && h' + x == h + multiset{}
    ensures sent == b + h' + (f + x)
  {
    assert h == h + multiset{};
    assert b + (h' + x) + f == b + h' + (f + x);
  }

  lemma TakeConserves(s: State, a: Action)
    requires Conserved(s) && Enabled(s, a) && (a.Take? || a.DrainTake?)
    ensures Conserved(Effect(s, a))
  {
    hide Held;
    var t := Effect(s, a);
    assert t == s.(workers := s.workers[a.w := t.workers[a.w]], buffer := s.buffer[1..]);
    assert InHand(t.workers[a.w]) == [s.buffer[0]] && InHand(s.workers[a.w]) == [];
    hide Effect, InHand;
    var x, rest := multiset{s.buffer[0]}, multiset(s.buffer[1..]);
    HeldUpdate(s.workers, InHand, a.w, t.workers[a.w]);
    assert s.buffer == [s.buffer[0]] + s.buffer[1..];
    assert multiset(s.buffer) == x + rest;
    Move2(multiset(s.sent), rest, Held(s.workers, InHand), multiset(s.flushed), x, Held(t.workers, InHand));
  }

  lemma FlushConserves(s: State, w: nat)
    requires Conserved(s) && Enabled(s, Flush(w))
    ensures Conserved(Effect(s, Flush(w)))
  {
    hide Held;
    var t := Effect(s, Flush(w));
    var hand := InHand(s.workers[w]);
    var x := multiset(hand);
    assert t == s.(workers := s.workers[w := t.workers[w]], flushed := s.flushed + hand);
    assert multiset(s.flushed + hand) == multiset(s.flushed) + x;
    assert InHand(t.workers[w]) == [];
    hide Effect, InHand;
    HeldUpdate(s.workers, InHand, w, t.workers[w]);
    Move3(multiset(s.sent), multiset(s.buffer), Held(s.workers, InHand), multiset(s.flushed), x, Held(t.workers, InHand));
  }

  lemma EffectKeepsPhases(s: State, a: Action)
    requires Phased(s) && Enabled(s, a)
    ensures Phased(Effect(s, a))
  {
    if a.Check? || a.Send? || a.SwapStopped? || a.CloseStop? || a.CloseReturn? {
      assert Effect(s, a).workers == s.workers;
    } else {
      WorkerKeepsPhases(s, a);
    }
  }

  lemma WorkerKeepsPhases(s: State, a: Action)
    requires Phased(s) && Enabled(s, a)
    requires a.Take? || a.SeeStop? || a.Flush? || a.DrainTake? || a.DrainEnd?
    ensures Phased(Effect(s, a))
  {
    var t := Effect(s, a);
    assert t.workers == s.workers[a.w := t.workers[a.w]];
    assert forall w :: 0 <= w < |t.workers| && t.workers[w].Exited? ==> s.workers[w].Exited? || a == DrainEnd(w);
  }

  lemma NextKeeps(s: State, a: Action)
    requires Conserved(s) && Phased(s)
    ensures Conserved(Next(s, a)) && Phased(Next(s, a))
  {
    if Enabled(s, a) {
      EffectConserves(s, a);
      EffectKeepsPhases(s, a);
    }
  }

  /** In every reachable state every sample that was sent is buffered, held by a
      worker or flushed, the buffer is within its capacity, and every Enqueue
      that got past the check is sent, dropped or still pending. */
  lemma {:induction false} ConservationHolds(bufferSize: int, workers: int, schedule: seq<Action>)
    ensures Conserved(After(Initial(bufferSize, workers), schedule))
    ensures Phased(After(Initial(bufferSize, workers), schedule))
  {
    if schedule == [] {
      InitialInvariant(bufferSize, workers);
    } else {
      var front, a := schedule[..|schedule| - 1], schedule[|schedule| - 1];
      ConservationHolds(bufferSize, workers, front);
      var s := After(Initial(bufferSize, workers), front);
      NextKeeps(s, a);
    }
  }

  /** If no Enqueue was pending when Close set stopped, then once the closing
      call has returned nothing is left behind: everything sent was flushed, and
      flushed plus dropped is what got past the check. */
  lemma CloseDrains(bufferSize: int, workers: int, schedule: seq<Action>)
    requires var s := After(Initial(bufferSize, workers), schedule); s.closer.Returned? && !s.overlapped
    ensures var s := After(Initial(bufferSize, workers), schedule);
      && s.buffer == [] && s.pending == map[]
      && multiset(s.flushed) == multiset(s.sent)
      && |s.flushed| + s.dropped == s.accepted
  {
    ConservationHolds(bufferSize, workers, schedule);
    DrainedAccount(After(Initial(bufferSize, workers), schedule));
  }

  lemma {:induction false} AfterConcat(s: State, a: seq<Action>, b: seq<Action>)
    ensures After(s, a + b) == After(After(s, a), b)
    decreases |b|
  {
    if b == [] {
      assert a + b == a;
    } else {
      assert (a + b)[..|a + b| - 1] == a + b[..|b| - 1];
      AfterConcat(s, a, b[..|b| - 1]);
    }
  }

  // ---- what becomes of one Enqueue ----

  /** The configured sizes, or their defaults, hold for good. */
  lemma {:induction false} SizesStay(bufferSize: int, workers: int, schedule: seq<Action>)
    ensures var s := After(Initial(bufferSize, workers), schedule);
      && s.cap == (if bufferSize > 0 then bufferSize else 256)
      && |s.workers| == (if workers > 0 then workers else 1)
  {
    if schedule != [] {
      SizesStay(bufferSize, workers, schedule[..|schedule| - 1]);
      BufferMoves(After(Initial(bufferSize, workers), schedule[..|schedule| - 1]), schedule[|schedule| - 1]);
      hide Next;
    }
  }

  /** The buffer holds the latest samples sent, in their order, and a drop needs a
      buffer that was filled. */
  ghost predicate Queued(s: State) {
    && |s.buffer| <= |s.sent| && s.buffer == s.sent[|s.sent| - |s.buffer|..]
    && (s.dropped > 0 ==> |s.sent| >= s.cap)
  }

  lemma NextQueues(s: State, a: Action)
    requires Queued(s) && |s.buffer| <= s.cap
    ensures Queued(Next(s, a))
  {
    BufferMoves(s, a);
    hide Next;
    var t := Next(s, a);
    if |t.sent| > |s.sent| {
      var x := t.buffer[|t.buffer| - 1];
      assert t.sent[|t.sent| - |t.buffer|..] == s.sent[|s.sent| - |s.buffer|..] + [x];
    } else if |t.buffer| < |s.buffer| {
      assert t.sent[|t.sent| - |t.buffer|..] == s.sent[|s.sent| - |s.buffer|..][1..];
    }
  }

  lemma BufferMoves(s: State, a: Action)
    ensures var t := Next(s, a);
      && t.cap == s.cap && |t.workers| == |s.workers|
      && ((t.buffer, t.sent, t.dropped) == (s.buffer, s.sent, s.dropped)
          || (s.buffer != [] && (t.buffer, t.sent, t.dropped) == (s.buffer[1..], s.sent, s.dropped))
          || (|s.buffer| >= s.cap && (t.buffer, t.sent, t.dropped) == (s.buffer, s.sent, s.dropped + 1))
          || exists x :: (t.buffer, t.sent, t.dropped) == (s.buffer + [x], s.sent + [x], s.dropped))
  {
    if a.Send? && a.c in s.pending && |s.buffer| < s.cap {
      var x := s.pending[a.c];
      assert (Next(s, a).buffer, Next(s, a).sent) == (s.buffer + [x], s.sent + [x]);
    }
  }

  /** In every schedule the channel is first in, first out, and as long as no more calls
      got past the check than the buffer holds, none has lost its sample. */
  lemma {:induction false} NoDropWithinCapacity(bufferSize: int, workers: int, schedule: seq<Action>)
    ensures var s := After(Initial(bufferSize, workers), schedule);
      && (exists taken :: s.sent == taken + s.buffer)
      && (s.accepted <= (if bufferSize > 0 then bufferSize else 256) ==> s.dropped == 0)
  {
    QueuedThroughout(bufferSize, workers, schedule);
    SizesStay(bufferSize, workers, schedule);
    ConservationHolds(bufferSize, workers, schedule);
    var s := After(Initial(bufferSize, workers), schedule);
    hide After, Initial, Held, Phased;
    assert s.sent == s.sent[..|s.sent| - |s.buffer|] + s.buffer;
  }

  lemma {:induction false} QueuedThroughout(bufferSize: int, workers: int, schedule: seq<Action>)
    ensures Queued(After(Initial(bufferSize, workers), schedule))
  {
    if schedule != [] {
      var front, a := schedule[..|schedule| - 1], schedule[|schedule| - 1];
      QueuedThroughout(bufferSize, workers, front);
      ConservationHolds(bufferSize, workers, front);
      assert |After(Initial(bufferSize, workers), front).buffer| <= After(Initial(bufferSize, workers), front).cap;
      hide Held, Conserved, Phased, Initial;
      NextQueues(After(Initial(bufferSize, workers), front), a);
    }
  }

  /** A sample is dropped by a pending call's send on a full buffer, and never else. */
  lemma DropsWhenFull(s: State, a: Action)
    requires |s.buffer| <= s.cap
    ensures Next(s, a).dropped == s.dropped + if a.Send? && a.c in s.pending && |s.buffer| == s.cap then 1 else 0
  {
  }

  /** Once stopped, no call gets past the check any more. */
  lemma {:induction false} NothingAcceptedAfterStop(s: State, schedule: seq<Action>)
    requires s.stopped
    ensures After(s, schedule).stopped && After(s, schedule).accepted == s.accepted
    decreases |schedule|
  {
    if schedule != [] {
      NothingAcceptedAfterStop(s, schedule[..|schedule| - 1]);
    }
  }

  lemma {:induction false} StaysPending(s: State, c: nat, schedule: seq<Action>)
    requires c in s.pending && Send(c) !in schedule
    ensures c in After(s, schedule).pending && After(s, schedule).pending[c] == s.pending[c]
    decreases |schedule|
  {
    if schedule != [] {
      StaysPending(s, c, schedule[..|schedule| - 1]);
      assert schedule[|schedule| - 1] in schedule;
    }
  }

  /** An Enqueue whose check comes before the stop is accepted; its sample stays with it
      whatever happens before its send; there the sample joins the end of the buffer if
      there is room, and is dropped if there is none. */
  lemma EnqueueFate(bufferSize: int, workers: int, before: seq<Action>, c: nat, sample: Sample, between: seq<Action>)
    requires var s := After(Initial(bufferSize, workers), before); !s.stopped && c !in s.pending
    requires Send(c) !in between
    ensures var s := After(Initial(bufferSize, workers), before);
      var t := After(Initial(bufferSize, workers), before + [Check(c, sample)]);
      && t == s.(accepted := s.accepted + 1, pending := s.pending[c := sample])
      && var u := After(t, between);
      && c in u.pending && u.pending[c] == sample
      && var room := |u.buffer| < if bufferSize > 0 then bufferSize else 256;
      && After(t, between + [Send(c)]) ==
           if room then u.(pending := u.pending - {c}, buffer := u.buffer + [sample], sent := u.sent + [sample])
           else u.(pending := u.pending - {c}, dropped := u.dropped + 1)
  {
    var init := Initial(bufferSize, workers);
    AfterLast(init, before, Check(c, sample));
    var t := After(init, before + [Check(c, sample)]);
    StaysPending(t, c, between);
    AfterLast(t, between, Send(c));
    AfterConcat(init, before + [Check(c, sample)], between);
    SizesStay(bufferSize, workers, before + [Check(c, sample)] + between);
    hide After, Initial;
  }

  lemma AfterLast(s: State, schedule: seq<Action>, a: Action)
    ensures After(s, schedule + [a]) == Next(After(s, schedule), a)
  {
    assert (schedule + [a])[..|schedule|] == schedule;
  }

  // ---- and when an Enqueue is pending at that point ----

  /** Steps left until every worker has returned, if none is interrupted. */
  function Work(w: Worker): nat {
    match w
    case Selecting => 2
    case Flushing(_) => 3
    case Draining => 1
    case DrainFlushing(_) => 2
    case Exited => 0
  }

  function TotalWork(ws: seq<Worker>): nat {
    if ws == [] then 0 else TotalWork(ws[..|ws| - 1]) + Work(ws[|ws| - 1])
  }

  lemma {:induction false} WorkUpdate(ws: seq<Worker>, i: nat, w: Worker)
    requires i < |ws|
    ensures TotalWork(ws[i := w]) + Work(ws[i]) == TotalWork(ws) + Work(w)
  {
    var last := |ws| - 1;
    if i == last {
      assert ws[i := w][..last] == ws[..last];
    } else {
      WorkUpdate(ws[..last], i, w);
      assert ws[i := w][..last] == ws[..last][i := w];
    }
  }

  function WorkerAction(s: State, w: nat): Action
    requires w < |s.workers|
  {
    match s.workers[w]
    case Selecting => SeeStop(w)
    case Flushing(_) => Flush(w)
    case Draining => if s.buffer == [] then DrainEnd(w) else DrainTake(w)
    case DrainFlushing(_) => Flush(w)
    case Exited => SeeStop(w)
  }

  /** The workers can run to their end while every pending Enqueue waits. */
  lemma {:induction false} WorkersCanFinish(s: State) returns (schedule: seq<Action>)
    requires s.stopClosed && |s.workers| >= 1
    ensures var t := After(s, schedule);
      && (forall w :: 0 <= w < |t.workers| ==> t.workers[w].Exited?)
      && t.pending == s.pending && t.closer == s.closer && t.cap == s.cap && t.overlapped == s.overlapped
      && (t.buffer == [] || (t.buffer == s.buffer && forall w :: 0 <= w < |s.workers| ==> s.workers[w].Exited?))
    decreases TotalWork(s.workers) + 2 * |s.buffer|
  {
    if w :| 0 <= w < |s.workers| && !s.workers[w].Exited? {
      var a := WorkerAction(s, w);
      var t := Effect(s, a);
      WorkUpdate(s.workers, w, t.workers[w]);
      var rest := WorkersCanFinish(t);
      schedule := [a] + rest;
      AfterConcat(s, [a], rest);
      assert After(s, []) == s && [a][..0] == [];
      assert After(s, [a]) == t;
    } else {
      schedule := [];
    }
  }

  /** Whatever happens next, the buffer is empty once the closing call is back. */
  ghost predicate DrainGuaranteed(s: State) {
    forall schedule :: After(s, schedule).closer.Returned? ==> After(s, schedule).buffer == []
  }

  /** At the moment Close sets stopped, a complete drain is guaranteed exactly if
      no Enqueue is pending: a pending one may reach its send after the last
      worker has returned. */
  lemma DrainGuaranteedIffNonePending(bufferSize: int, workers: int, schedule: seq<Action>)
    requires After(Initial(bufferSize, workers), schedule).closer.NotCalled?
    ensures var s := After(Initial(bufferSize, workers), schedule);
      DrainGuaranteed(Next(s, SwapStopped)) <==> s.pending == map[]
  {
    var init := Initial(bufferSize, workers);
    var s := After(init, schedule);
    var t := Next(s, SwapStopped);
    ConservationHolds(bufferSize, workers, schedule);
    EffectKeepsPhases(s, SwapStopped);
    if s.pending == map[] {
      forall more | After(t, more).closer.Returned?
        ensures After(t, more).buffer == []
      {
        AfterConcat(init, schedule, [SwapStopped]);
        assert [SwapStopped][..0] == [] && After(s, [SwapStopped]) == t;
        AfterConcat(init, schedule + [SwapStopped], more);
        OverlapStays(t, more);
        CloseDrains(bufferSize, workers, schedule + [SwapStopped] + more);
      }
    } else {
      var c :| c in s.pending;
      var more := StrandingSchedule(t, c);
      assert After(t, more).closer.Returned? && After(t, more).buffer != [];
    }
  }

  lemma {:induction false} OverlapStays(s: State, schedule: seq<Action>)
    requires s.stopped && !s.closer.NotCalled?
    ensures After(s, schedule).overlapped == s.overlapped && !After(s, schedule).closer.NotCalled?
    decreases |schedule|
  {
    if schedule != [] {
      OverlapStays(s, schedule[..|schedule| - 1]);
      NextKeepsOverlap(After(s, schedule[..|schedule| - 1]), schedule[|schedule| - 1]);
    }
  }

  lemma NextKeepsOverlap(s: State, a: Action)
    requires !s.closer.NotCalled?
    ensures Next(s, a).overlapped == s.overlapped && !Next(s, a).closer.NotCalled?
  {
  }

  lemma StrandingSchedule(s: State, c: nat) returns (schedule: seq<Action>)
    requires Phased(s) && s.closer.Swapped? && c in s.pending
    ensures After(s, schedule).closer.Returned? && After(s, schedule).buffer != []
  {
    var s1 := Effect(s, CloseStop);
    var drain := WorkersCanFinish(s1);
    var s2 := After(s1, drain);
    assert !s.workers[0].Exited?;
    assert s1.workers == s.workers;
    var s3 := Effect(s2, Send(c));
    var s4 := Effect(s3, CloseReturn);
    schedule := [CloseStop] + drain + [Send(c), CloseReturn];
    var tail := [Send(c), CloseReturn];
    assert [CloseStop][..0] == [] && After(s, [CloseStop]) == s1;
    AfterConcat(s, [CloseStop], drain);
    AfterConcat(s, [CloseStop] + drain, tail);
    assert tail[..1] == [Send(c)] && [Send(c)][..0] == [];
    assert After(s2, [Send(c)]) == s3 && tail[1] == CloseReturn && After(s2, tail) == Next(s3, CloseReturn);
  }

  // ---- the imperative form ----

  /** What worker w does when it is scheduled; with both cases of its select
      ready, Go picks either. */
  function WorkerChoice(s: State, w: nat, preferStop: bool): Action
    requires w < |s.workers|
  {
    match s.workers[w]
    case Selecting => if s.stopClosed && (preferStop || s.buffer == []) then SeeStop(w) else Take(w)
    case Draining => if s.buffer == [] then DrainEnd(w) else DrainTake(w)
    case _ => Flush(w)
  }

  lemma WorkerMoves(s: State, w: nat, preferStop: bool)
    requires w < |s.workers|
    ensures var t := Next(s, WorkerChoice(s, w, preferStop));
      match s.workers[w]
      case Selecting =>
        if s.stopClosed && (preferStop || |s.buffer| == 0) then t == s.(workers := s.workers[w := Draining])
        else if |s.buffer| > 0 then
          t == s.(workers := s.workers[w := Flushing(s.buffer[0])], buffer := s.buffer[1..])
        else t == s
      case Flushing(x) => t == s.(workers := s.workers[w := Selecting], flushed := s.flushed + [x])
      case Draining =>
        if |s.buffer| == 0 then t == s.(workers := s.workers[w := Exited])
        else t == s.(workers := s.workers[w := DrainFlushing(s.buffer[0])], buffer := s.buffer[1..])
      case DrainFlushing(x) => t == s.(workers := s.workers[w := Draining], flushed := s.flushed + [x])
      case Exited => t == s
  {
  }

  /** After stop, a worker that has not returned always has a move, and every
      move brings the end closer. */
  lemma WorkerProgress(s: State, w: nat)
    requires w < |s.workers| && s.stopClosed && !s.workers[w].Exited?
    ensures var t := Next(s, WorkerChoice(s, w, true));
      && |t.workers| == |s.workers| && t.workers == s.workers[w := t.workers[w]]
      && TotalWork(t.workers) + 2 * |t.buffer| < TotalWork(s.workers) + 2 * |s.buffer|
      && t.stopClosed && t.stopped == s.stopped && t.closer == s.closer && t.overlapped == s.overlapped
      && t.sent == s.sent && t.dropped == s.dropped && t.pending == s.pending && t.accepted == s.accepted
  {
    hide TotalWork;
    WorkerMoves(s, w, true);
    hide Next, WorkerChoice;
    WorkUpdate(s.workers, w, Next(s, WorkerChoice(s, w, true)).workers[w]);
  }

  class AsyncInfluxWriter {
    const capacity: nat
    var ch: seq<Sample>
    var stopped: bool
    var stop: bool                    // the stop channel has been closed
    var workers: seq<Worker>
    var dropped: nat
    ghost var pending: map<nat, Sample>
    ghost var closer: Closer
    ghost var accepted: nat
    ghost var sent: seq<Sample>
    ghost var flushed: seq<Sample>
    ghost var overlapped: bool

    ghost function Contents(): State
      reads this
    {
      State(capacity, ch, stopped, stop, workers, pending, closer, dropped, accepted, sent, flushed, overlapped)
    }

    ghost predicate Valid()
      reads this
    {
      Conserved(Contents()) && Phased(Contents())
    }

    constructor (bufferSize: int, workerCount: int)
      ensures Valid() && Contents() == Initial(bufferSize, workerCount)
    {
      capacity := if bufferSize <= 0 then 256 else bufferSize;
      ch, stopped, stop, dropped := [], false, false, 0;
      workers := seq(if workerCount <= 0 then 1 else workerCount, _ => Selecting);
      pending, closer, accepted, sent, flushed, overlapped := map[], NotCalled, 0, [], [], false;
      new;
      InitialInvariant(bufferSize, workerCount);
      assert workers == Initial(bufferSize, workerCount).workers;
    }

    /** The stopped check of Enqueue. */
    method EnqueueCheck(ghost c: nat, sample: Sample) returns (proceed: bool)
      requires Valid() && c !in pending
      modifies this
      ensures Valid() && Contents() == Next(old(Contents()), Check(c, sample)) && proceed == !old(stopped)
    {
      hide Held, Conserved, Phased;
      NextKeeps(Contents(), Check(c, sample));
      if stopped {
        return false;
      }
      pending, accepted := pending[c := sample], accepted + 1;
      return true;
    }

    /** The non-blocking select of Enqueue. */
    method EnqueueSend(ghost c: nat, sample: Sample)
      requires Valid() && c in pending && pending[c] == sample
      modifies this
      ensures Valid() && Contents() == Next(old(Contents()), Send(c))
    {
      hide Held, Conserved, Phased;
      NextKeeps(Contents(), Send(c));
      if |ch| < capacity {
        ch, sent := ch + [sample], sent + [sample];
      } else {
        dropped := dropped + 1;
      }
      pending := pending - {c};
    }

    /** One move of a worker; nothing happens if it has to wait. */
    method WorkerStep(w: nat, preferStop: bool)
      requires Valid() && w < |workers|
      modifies this
      ensures Valid() && Contents() == Next(old(Contents()), WorkerChoice(old(Contents()), w, preferStop))
    {
      hide Held, Conserved, Phased, Next, WorkerChoice;
      NextKeeps(Contents(), WorkerChoice(Contents(), w, preferStop));
      WorkerMoves(Contents(), w, preferStop);
      match workers[w] {
        case Selecting =>
          if stop && (preferStop || |ch| == 0) {
            workers := workers[w := Draining];
          } else if |ch| > 0 {
            workers, ch := workers[w := Flushing(ch[0])], ch[1..];
          }
        case Flushing(s) => workers, flushed := workers[w := Selecting], flushed + [s];
        case Draining =>
          if |ch| == 0 {
            workers := workers[w := Exited];
          } else {
            workers, ch := workers[w := DrainFlushing(ch[0])], ch[1..];
          }
        case DrainFlushing(d) => workers, flushed := workers[w := Draining], flushed + [d];
        case Exited =>
      }
    }

    /** Close, waiting while the workers run to their end; only its first call
        does anything. */
    method Close() returns (first: bool)
      requires Valid()
      modifies this
      ensures Valid() && first == !old(stopped)
      ensures !first ==> Contents() == old(Contents())
      ensures first ==>
        && closer.Returned? && (forall w :: 0 <= w < |workers| ==> workers[w].Exited?)
        && sent == old(sent) && dropped == old(dropped) && pending == old(pending)
        && (pending == map[] ==> ch == [] && multiset(flushed) == multiset(sent) && |flushed| + dropped == accepted)
    {
      hide Held, Conserved, Phased, TotalWork;
      if stopped {
        return false;
      }
      StopWorkers();
      NextKeeps(Contents(), CloseReturn);
      closer := Returned;
      if pending == map[] { DrainedAccount(Contents()); }
      return true;
    }

    method SignalStop()
      requires Valid() && !stopped && closer.NotCalled?
      modifies this
      ensures Valid() && Contents() == Next(Next(old(Contents()), SwapStopped), CloseStop)
      ensures workers == old(workers) && stopped && stop && closer.Waiting? && (overlapped <==> pending != map[])
      ensures sent == old(sent) && dropped == old(dropped) && pending == old(pending) && accepted == old(accepted)
    {
      hide Held, Conserved, Phased;
      NextKeeps(Contents(), SwapStopped);
      stopped, closer, overlapped := true, Swapped, pending != map[];
      NextKeeps(Contents(), CloseStop);
      stop, closer := true, Waiting;
    }

    /** Close up to the end of its wait. */
    method StopWorkers()
      requires Valid() && !stopped
      modifies this
      ensures Valid() && stopped && closer.Waiting? && forall w :: 0 <= w < |workers| ==> workers[w].Exited?
      ensures sent == old(sent) && dropped == old(dropped) && pending == old(pending) && accepted == old(accepted)
      ensures overlapped <==> pending != map[]
    {
      hide Held, Conserved, TotalWork;
      assert closer.NotCalled?;
      hide Phased;
      SignalStop();
      hide Next, WorkerChoice;
      var w := 0;
      while w < |workers|
        invariant Valid() && closer.Waiting? && stop && w <= |workers|
        invariant forall v :: 0 <= v < w ==> workers[v].Exited?
        invariant sent == old(sent) && dropped == old(dropped) && pending == old(pending) && accepted == old(accepted)
        invariant overlapped <==> pending != map[]
        invariant stopped
        decreases TotalWork(workers) + 2 * |ch|, |workers| - w
      {
        if workers[w].Exited? {
          w := w + 1;
        } else {
          WorkerProgress(Contents(), w);
          WorkerStep(w, true);
        }
      }
    }
  }

  lemma DrainedAccount(s: State)
    requires Conserved(s) && Phased(s) && s.closer.Returned? && !s.overlapped
    ensures s.buffer == [] && s.pending == map[]
    ensures multiset(s.flushed) == multiset(s.sent) && |s.flushed| + s.dropped == s.accepted
  {
    HeldNothing(s.workers, InHand);
    assert s.workers[0].Exited?;
    assert |multiset(s.flushed)| == |multiset(s.sent)|;
  }
}
