/** Shutdown under every fair schedule.  A schedule is an infinite sequence of steps, with idle moments; it is fair if
    no thread that stays able to move is left out for ever. */
module PoolFairness {
  import opened Wrappers
  import opened PoolProtocol
  import opened PoolInvariant
  import opened PoolTheorems

  datatype Actor = Worker(w: nat) | Pusher(p: nat) | Destroyer | Waiter

  predicate By(a: Option<Action>, actor: Actor) {
    match a
    case None => false
    case Some(Work(w, _)) => actor == Worker(w)
    case Some(Push(p, _)) => actor == Pusher(p)
    case Some(Destroy(_)) => actor == Destroyer
    case Some(Wait(_)) => actor == Waiter
    case _ => false
  }

  /** thpool_wait has been called and has not returned. */
  predicate Polling(s: State) { s.waiter.ReadLen? || s.waiter.ReadWorking? }

  /** A thread can go on with what it has begun; a pusher between two calls of thpool_add_work has begun nothing, nor
      has a waiter or a destroyer before its call. */
  ghost predicate Movable(s: State, actor: Actor) {
    match actor
    case Worker(w) => exists wake :: CanWork(s, w, wake)
    case Pusher(p) => p < |s.pushers| && s.pushers[p] != Idle && exists wake :: CanPush(s, p, wake)
    case Destroyer => s.destroyer != NotCalled && CanDestroy(s, false)
    case Waiter => Polling(s) && CanWait(s, false)
  }

  /** Nobody calls thpool_add_work any more. */
  predicate NewPush(s: State, a: Option<Action>) {
    match a
    case Some(Push(p, _)) => p < |s.pushers| && s.pushers[p] == Idle
    case _ => false
  }

  function Next(s: State, a: Option<Action>): State
    requires a.Some? ==> Enabled(s, a.value)
  {
    match a case None => s case Some(x) => Apply(s, x)
  }

  /** States and steps from the moment the pool has been told to stop, without new pushes. */
  ghost predicate Schedule(st: nat -> State, act: nat -> Option<Action>) {
    && Inv(st(0)) && st(0).ready && !st(0).keepalive
    && forall n: nat :: (act(n).Some? ==> Enabled(st(n), act(n).value)) && !NewPush(st(n), act(n))
         && st(n + 1) == Next(st(n), act(n))
  }

  /** Again and again each thread moves or is found unable to; a waiter is not needed for the end. */
  ghost predicate Fair(st: nat -> State, act: nat -> Option<Action>) {
    forall actor, n: nat :: actor != Waiter ==> Turn(st, act, actor, n)
  }

  ghost predicate Turn(st: nat -> State, act: nat -> Option<Action>, actor: Actor, n: nat) {
    exists m: nat :: n <= m && (By(act(m), actor) || !Movable(st(m), actor))
  }

  // ---------------------------------------------------------------------------------------------
  // One step
  // ---------------------------------------------------------------------------------------------

  predicate Sleepy(pc: WorkerPc) { pc == Enter || pc == Asleep || pc == Signalled }

  /** What cannot change while nothing comes nearer to the end. */
  ghost predicate Frozen(s: State, t: State) {
    && |t.pcs| == |s.pcs| && t.pushers == s.pushers && t.lock == s.lock && t.alive == s.alive && (s.v ==> t.v)
    && (forall w :: 0 <= w < |s.pcs| ==> t.pcs[w] == s.pcs[w] || (Sleepy(s.pcs[w]) && Sleepy(t.pcs[w])))
    && (s.v ==> forall w :: 0 <= w < |s.pcs| && s.pcs[w] != Asleep ==> t.pcs[w] == s.pcs[w])
  }

  ghost predicate Level(s: State, t: State) {
    Life(t) == Life(s) && Sum(t.pushers, PushStop) == Sum(s.pushers, PushStop) && Shut(t) == Shut(s)
  }

  ghost predicate Stopping(s: State) { Inv(s) && s.ready && !s.keepalive }

  lemma FrozenTransitively(s: State, t: State, u: State)
    requires Frozen(s, t) && Frozen(t, u)
    ensures Frozen(s, u)
  {
  }

  lemma SleepMove(s: State, w: nat, pc: WorkerPc)
    requires w < |s.pcs| && Sleepy(s.pcs[w]) && Sleepy(pc) && (s.v ==> s.pcs[w] == Asleep)
    ensures var t := s.(pcs := s.pcs[w := pc]); Frozen(s, t) && Level(s, t)
  {
    SumUpdate(s.pcs, w, pc, Stop);
  }

  lemma WorkerStep(s: State, w: nat, wake: nat)
    requires Stopping(s) && CanWork(s, w, wake)
    ensures var t := StepWorker(s, w, wake); Nearer(s, t) || (Level(s, t) && Frozen(s, t))
  {
    if FallsAsleep(s, Work(w, wake)) {
      SleepMove(s, w, Asleep);
      assert StepWorker(s, w, wake) == s.(pcs := s.pcs[w := Asleep]);
    } else {
      ShutdownMeasure(s, Work(w, wake));
    }
  }

  lemma DestroyerStep(s: State, timeout: bool)
    requires Stopping(s) && CanDestroy(s, timeout)
    ensures var t := StepDestroyer(s, timeout);
      t.destroyer == Gone || Nearer(s, t) || (Level(s, t) && Frozen(s, t))
  {
    SumWakeAll(s.pcs, Stop);
    if Life(s) == 0 {
      LifeIsZero(s);
      SumZero(s.pcs, Alive);
    }
  }

  lemma OneStep(s: State, a: Action)
    requires Stopping(s) && Enabled(s, a) && !NewPush(s, Some(a))
    ensures var t := Apply(s, a);
      && Stopping(t) && (t.destroyer == Gone || Nearer(s, t) || (Level(s, t) && Frozen(s, t)))
  {
    StoppingStays(s, a);
    hide Stopping, Inv;
    match a
    case Work(w, wake) => WorkerStep(s, w, wake);
    case Spurious(w) => SleepMove(s, w, Signalled);
    case Push(p, wake) => PusherNearer(s, p, wake);
    case Destroy(timeout) => DestroyerStep(s, timeout);
    case InitReturns => NotInitialising(s);
    case Wait(giveUp) => WaiterOnlyReads(s, giveUp);
  }

  lemma NotInitialising(s: State)
    requires Stopping(s)
    ensures !Enabled(s, InitReturns)
  {
  }

  lemma StoppingStays(s: State, a: Action)
    requires Stopping(s) && Enabled(s, a)
    ensures Stopping(Apply(s, a))
  {
    StepKeepsInv(s, a);
    ShutdownMeasure(s, a);
    ReadyStays(s, a);
  }

  lemma ReadyStays(s: State, a: Action)
    requires s.ready && Enabled(s, a)
    ensures Apply(s, a).ready
  {
    match a
    case Work(w, wake) => WorkerElsewhere(s, w, wake);
    case _ =>
  }

  // ---------------------------------------------------------------------------------------------
  // Someone whose turn helps
  // ---------------------------------------------------------------------------------------------

  /** A thread that can move, stays able to while nothing changes, and brings the end nearer when it moves. */
  ghost predicate Useful(s: State, actor: Actor) {
    match actor
    case Worker(w) =>
      && w < |s.pcs| && s.pcs[w] != Asleep && s.pcs[w] != Dead && (s.pcs[w] == Pull ==> s.lock == Free)
      && (Sleepy(s.pcs[w]) ==> s.v)
    case Pusher(p) => p < |s.pushers| && s.pushers[p] != Idle
    case Destroyer =>
      && s.destroyer != Gone && (forall p :: 0 <= p < |s.pushers| ==> s.pushers[p] == Idle)
      && (if Life(s) == 0 then s.alive == 0 else !s.v && s.alive != 0)
    case Waiter => false
  }

  lemma UsefulStays(s: State, t: State, actor: Actor)
    requires Useful(s, actor) && Frozen(s, t) && Level(s, t) && t.destroyer != Gone
    requires actor == Destroyer && Life(s) > 0 ==> s.destroyer.Poll? || s.destroyer.Broadcast?
    ensures Useful(t, actor)
  {
  }

  lemma UsefulMoves(s: State, actor: Actor)
    requires Stopping(s) && Useful(s, actor)
    ensures Movable(s, actor)
  {
    var wake := SomeWake(s.pcs);
    match actor
    case Worker(w) => assert CanWork(s, w, wake);
    case Pusher(p) => assert CanPush(s, p, wake);
    case Destroyer =>
  }

  lemma UsefulHelps(s: State, actor: Actor, a: Action)
    requires Stopping(s) && Useful(s, actor) && Enabled(s, a) && By(Some(a), actor) && s.destroyer != Gone
    ensures Apply(s, a).destroyer == Gone || Nearer(s, Apply(s, a))
  {
    match actor
    case Worker(w) => ShutdownMeasure(s, a);
    case Pusher(p) => PusherNearer(s, p, a.wake);
    case Destroyer =>
      SumWakeAll(s.pcs, Stop);
      if s.destroyer == Clearing { NobodyLeft(s); }
  }

  lemma NobodyLeft(s: State)
    requires CountInv(s) && LifeInv(s) && s.destroyer == Clearing
    ensures s.alive == 0
  {
    SumZero(s.pcs, Alive);
  }

  /** Until the pool is gone somebody's turn helps. */
  lemma SomebodyHelps(s: State) returns (actor: Actor)
    requires Stopping(s) && s.destroyer != Gone
    ensures Useful(s, actor)
  {
    LifeIsZero(s);
    if p: nat :| p < |s.pushers| && s.pushers[p] != Idle {
      actor := Pusher(p);
    } else if s.lock.ByWorker? {
      actor := Worker(s.lock.w);
    } else if w: nat :| w < |s.pcs| && !Sleepy(s.pcs[w]) && s.pcs[w] != Dead {
      actor := Worker(w);
    } else if s.v && Life(s) > 0 {
      var w: nat :| w < |s.pcs| && s.pcs[w] != Dead;
      if s.pcs[w] == Asleep { w :| 0 <= w < |s.pcs| && s.pcs[w] == Signalled; }
      actor := Worker(w);
    } else {
      actor := Destroyer;
      if Life(s) == 0 {
        SumZero(s.pcs, Alive);
      } else {
        var w: nat :| w < |s.pcs| && s.pcs[w] != Dead;
        SumAtLeast(s.pcs, w, Alive);
      }
    }
  }

  // ---------------------------------------------------------------------------------------------
  // Schedules
  // ---------------------------------------------------------------------------------------------

  /** Where a later state stands: the pool is gone, the end is nearer, or nothing has changed that matters. */
  ghost predicate Later(s: State, t: State) { Nearer(s, t) || (Level(s, t) && Frozen(s, t)) }

  lemma LaterTransitively(s: State, t: State, u: State)
    requires Later(s, t) && Later(t, u)
    ensures Later(s, u)
  {
    hide Life, Shut, Sum;
    if Frozen(s, t) && Frozen(t, u) { FrozenTransitively(s, t, u); }
  }

  lemma LaterSelf(s: State)
    ensures Later(s, s)
  {
    hide Life, Shut, Sum;
  }

  lemma ScheduleStep(st: nat -> State, act: nat -> Option<Action>, n: nat)
    requires Schedule(st, act) && Stopping(st(n))
    ensures Stopping(st(n + 1)) && (st(n + 1).destroyer == Gone || Later(st(n), st(n + 1)))
  {
    hide Inv;
    var s, a := st(n), act(n);
    assert st(n + 1) == Next(s, a);
    if a.Some? { OneStep(s, a.value); } else { LaterSelf(s); }
  }

  lemma {:induction false} Along(st: nat -> State, act: nat -> Option<Action>, n: nat, m: nat) returns (k: nat)
    requires Schedule(st, act) && Stopping(st(n)) && n <= m
    ensures n <= k && (st(k).destroyer == Gone || (k == m && Stopping(st(m)) && Later(st(n), st(m))))
    decreases m - n
  {
    hide Schedule, Stopping, Later;
    if n == m {
      LaterSelf(st(n));
      k := m;
    } else {
      k := Along(st, act, n, m - 1);
      if st(k).destroyer != Gone {
        ScheduleStep(st, act, m - 1);
        k := m;
        if st(m).destroyer != Gone { LaterTransitively(st(n), st(m - 1), st(m)); }
      }
    }
  }

  /** Under a fair schedule the end comes nearer. */
  lemma Progress(st: nat -> State, act: nat -> Option<Action>, n: nat) returns (m: nat)
    requires Schedule(st, act) && Fair(st, act) && Stopping(st(n)) && st(n).destroyer != Gone
    ensures n <= m && (st(m).destroyer == Gone || (Stopping(st(m)) && Nearer(st(n), st(m))))
  {
    hide Inv, Frozen, Useful;
    var actor := SomebodyHelps(st(n));
    assert Turn(st, act, actor, n);
    var k: nat :| n <= k && (By(act(k), actor) || !Movable(st(k), actor));
    m := Along(st, act, n, k);
    if st(m).destroyer != Gone && !Nearer(st(n), st(m)) {
      StillUseful(st(n), st(k), actor);
      UsefulMoves(st(k), actor);
      var a := act(k).value;
      UsefulHelps(st(k), actor, a);
      OneStep(st(k), a);
      assert st(k + 1) == Next(st(k), act(k));
      m := k + 1;
    }
  }

  lemma StillUseful(s: State, t: State, actor: Actor)
    requires Stopping(s) && Useful(s, actor) && Frozen(s, t) && Level(s, t) && t.destroyer != Gone
    ensures Useful(t, actor)
  {
    if actor == Destroyer && Life(s) > 0 && s.destroyer == Clearing { NobodyLeft(s); }
    UsefulStays(s, t, actor);
  }

  /** `thpool_destroy` completes under every fair schedule: without new pushes, if no thread that stays able to move is
      left out for ever, the queue is freed at some moment. */
  lemma {:induction false} FairShutdown(st: nat -> State, act: nat -> Option<Action>, n: nat) returns (m: nat)
    requires Schedule(st, act) && Fair(st, act) && Stopping(st(n))
    ensures n <= m && st(m).destroyer == Gone
    decreases Life(st(n)), Sum(st(n).pushers, PushStop), Shut(st(n))
  {
    hide Schedule, Fair, Stopping;
    m := n;
    if st(n).destroyer != Gone {
      m := Progress(st, act, n);
      if st(m).destroyer != Gone {
        var k := FairShutdown(st, act, m);
        m := k;
      }
    }
  }

  /** From the start of the schedule, then. */
  lemma ShutdownCompletesFairly(st: nat -> State, act: nat -> Option<Action>)
    requires Schedule(st, act) && Fair(st, act)
    ensures exists m :: st(m).destroyer == Gone
  {
    var m := FairShutdown(st, act, 0);
  }
}
