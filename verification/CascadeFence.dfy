/**
 The shutdown fence: a producer's unfinished work is dropped on shutdown only once no dependent
 cascade is running, or the settling time is up.
 */
module CascadeFence {
  const SETTLE_SECONDS := 60

  /** How `until_shutdown` ended. */
  datatype Outcome = Completed | CompletedLate | DroppedUnfinished | SignalFailed

  datatype Phase = Running | Draining(since: nat) | Ended(outcome: Outcome)

  /** `pending` is the shared counter; `guards` the live guards of every task. */
  datatype State = State(pending: int, guards: set<nat>, now: nat, phase: Phase)

  /** What the shutdown signal shows when it is polled. */
  datatype Signal = Quiet | Received | Broken

  datatype Action =
    | Open(guard: nat)
    | Drop(guard: nat)
    | Tick
    | Poll(shutdown: Signal, workReady: bool)

  function Next(s: State, a: Action): State {
    match a
    case Open(g) => if g in s.guards then s else s.(pending := s.pending + 1, guards := s.guards + {g})
    case Drop(g) => if g in s.guards then s.(pending := s.pending - 1, guards := s.guards - {g}) else s
    case Tick => s.(now := s.now + 1)
    case Poll(shutdown, workReady) =>
      match s.phase
      case Running =>
        if shutdown == Broken then s.(phase := Ended(SignalFailed))
        else if shutdown == Received then s.(phase := Drained(s, s.now, workReady))
        else if workReady then s.(phase := Ended(Completed))
        else s
      case Draining(since) => s.(phase := Drained(s, since, workReady))
      case Ended(_) => s
  }

  /** The second select: the fence first, then the work, then the timer. */
  function Drained(s: State, since: nat, workReady: bool): Phase {
    if s.pending == 0 then Ended(DroppedUnfinished)
    else if workReady then Ended(CompletedLate)
    else if s.now >= since + SETTLE_SECONDS then Ended(DroppedUnfinished)
    else Draining(since)
  }

  function At(s: State, run: seq<Action>, i: nat): State
    requires i <= |run|
  {
    if i == 0 then s else Next(At(s, run, i - 1), run[i - 1])
  }

  lemma GuardOpened(guards: set<nat>, g: nat)
    ensures g !in guards ==> |guards + {g}| == |guards| + 1
  {
  }

  lemma GuardDropped(guards: set<nat>, g: nat)
    ensures g in guards ==> |guards| >= 1 && |guards - {g}| == |guards| - 1
  {
    if g in guards {
      assert guards == (guards - {g}) + {g};
    }
  }

  lemma StepCountsGuards(s: State, a: Action)
    requires s.pending == |s.guards|
    ensures Next(s, a).pending == |Next(s, a).guards|
    ensures a.Drop? && a.guard in s.guards ==> s.pending >= 1
  {
    hide Next;
    match a
    case Open(g) => OpenCounts(s, g);
    case Drop(g) => DropCounts(s, g);
    case Tick => TickKeepsGuards(s);
    case Poll(shutdown, workReady) => PollKeepsGuards(s, shutdown, workReady);
  }

  lemma OpenCounts(s: State, g: nat)
    requires s.pending == |s.guards|
    ensures Next(s, Open(g)).pending == |Next(s, Open(g)).guards|
  {
    GuardOpened(s.guards, g);
  }

  lemma DropCounts(s: State, g: nat)
    requires s.pending == |s.guards|
    ensures Next(s, Drop(g)).pending == |Next(s, Drop(g)).guards|
    ensures g in s.guards ==> s.pending >= 1
  {
    GuardDropped(s.guards, g);
  }

  lemma TickKeepsGuards(s: State)
    ensures Next(s, Tick).pending == s.pending && Next(s, Tick).guards == s.guards
  {
  }

  lemma PollKeepsGuards(s: State, shutdown: Signal, workReady: bool)
    ensures Next(s, Poll(shutdown, workReady)).pending == s.pending
    ensures Next(s, Poll(shutdown, workReady)).guards == s.guards
  {
  }

  /** The counter is the number of live guards, so a guard's drop never takes it below zero. */
  lemma {:induction false} PendingCountsGuards(s: State, run: seq<Action>, i: nat)
    requires s.pending == |s.guards| && i <= |run|
    ensures At(s, run, i).pending == |At(s, run, i).guards|
    ensures i < |run| && run[i].Drop? && run[i].guard in At(s, run, i).guards ==> At(s, run, i).pending >= 1
  {
    hide Next;
    if i > 0 {
      PendingCountsGuards(s, run, i - 1);
      StepCountsGuards(At(s, run, i - 1), run[i - 1]);
    }
    if i < |run| {
      StepCountsGuards(At(s, run, i), run[i]);
    }
  }

  /** While draining, shutdown was received at some earlier poll, at the recorded time. */
  lemma {:induction false} DrainingSince(s: State, run: seq<Action>, i: nat) returns (k: nat)
    requires s.phase.Running? && i <= |run| && At(s, run, i).phase.Draining?
    ensures k < i && run[k].Poll? && run[k].shutdown == Received && At(s, run, k).phase.Running?
    ensures At(s, run, k).now == At(s, run, i).phase.since
  {
    if At(s, run, i - 1).phase.Draining? {
      k := DrainingSince(s, run, i - 1);
    } else {
      k := i - 1;
    }
  }

  /**
   On any run, work is dropped unfinished only after shutdown was received, and then with no guard
   alive anywhere or at least the settling time later.
   */
  lemma DroppedOnlyWhenSettled(s: State, run: seq<Action>, i: nat) returns (k: nat)
    requires s.phase.Running? && s.pending == |s.guards| && i < |run|
    requires At(s, run, i + 1).phase == Ended(DroppedUnfinished) && At(s, run, i).phase != Ended(DroppedUnfinished)
    ensures k <= i && run[k].Poll? && run[k].shutdown == Received && At(s, run, k).phase.Running?
    ensures At(s, run, i).guards == {} || At(s, run, i).now >= At(s, run, k).now + SETTLE_SECONDS
  {
    PendingCountsGuards(s, run, i);
    assert At(s, run, i + 1) == Next(At(s, run, i), run[i]);
    if At(s, run, i).phase.Draining? {
      k := DrainingSince(s, run, i);
    } else {
      k := i;
    }
  }

  /**
   On any run, exactly when a poll at or after the one that receives the shutdown lets go of work
   that is not ready: no guard is alive anywhere, or the settling time has passed since that poll.
   */
  lemma DropsExactly(s: State, run: seq<Action>, i: nat) returns (k: nat)
    requires s.phase.Running? && s.pending == |s.guards| && i < |run|
    requires run[i].Poll? && !run[i].workReady
    requires At(s, run, i).phase.Draining? || (At(s, run, i).phase.Running? && run[i].shutdown == Received)
    ensures k <= i && run[k].Poll? && run[k].shutdown == Received && At(s, run, k).phase.Running?
    ensures At(s, run, i + 1).phase == Ended(DroppedUnfinished) <==>
              At(s, run, i).guards == {} || At(s, run, i).now >= At(s, run, k).now + SETTLE_SECONDS
  {
    PendingCountsGuards(s, run, i);
    var t := At(s, run, i);
    if t.phase.Draining? {
      k := DrainingSince(s, run, i);
    } else {
      k := i;
    }
    assert At(s, run, i + 1) == Next(t, run[i]);
    assert t.guards == {} <==> |t.guards| == 0;
  }
}
