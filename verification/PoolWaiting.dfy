/** `thpool_wait` returns: on its own from a pool at rest, and under every fair schedule of a running pool. */
module PoolWaiting {
  import opened Wrappers
  import opened PoolProtocol
  import opened PoolInvariant
  import opened PoolTheorems
  import opened PoolFairness

  // ---------------------------------------------------------------------------------------------
  // The waiter's own steps
  // ---------------------------------------------------------------------------------------------

  /** Nothing is queued and nobody is counted as working. */
  predicate AtRest(s: State) { s.queue == [] && s.working == 0 }

  /** How many reads a wait still makes of a pool at rest: two in each loop. */
  function ReadsLeft(pc: WaiterPc): nat {
    match pc
    case ReadLen(loop) => if loop < 3 then 8 - 2 * loop else 2
    case ReadWorking(loop) => if loop < 3 then 7 - 2 * loop else 1
    case _ => 0
  }

  lemma OneRead(s: State, giveUp: bool)
    requires WaiterInv(s) && Polling(s) && AtRest(s) && CanWait(s, giveUp)
    ensures var t := StepWaiter(s, giveUp);
      && ReadsLeft(t.waiter) == ReadsLeft(s.waiter) - (if giveUp then 2 else 1)
      && (if ReadsLeft(t.waiter) == 0 then t.waiter == Returned else Polling(t))
  {
  }

  /** A wait that finds the pool at rest returns after exactly the reads it has left, at most six. */
  lemma {:induction false} RestingWaitReturns(s: State, run: seq<Action>)
    requires Inv(s) && s.ready && s.destroyer != Gone && Polling(s) && AtRest(s)
    requires (forall i :: 0 <= i < |run| ==> run[i] == Wait(false)) && |run| <= ReadsLeft(s.waiter)
    ensures ReadsLeft(s.waiter) <= 6 && Exec(s, run).Some?
    ensures Exec(s, run).value.waiter == Returned <==> |run| == ReadsLeft(s.waiter)
    decreases |run|
  {
    if run != [] {
      assert run[0] == Wait(false);
      var t := StepWaiter(s, false);
      OneRead(s, false);
      StepKeepsInv(s, run[0]);
      WaiterOnlyReads(s, false);
      if |run| == 1 {
        assert run[1..] == [];
      } else {
        RestingWaitReturns(t, run[1..]);
      }
    }
  }

  /** A wait goes on to its next loop only by giving up or by finding both counters 0, and never goes back. */
  lemma LoopsForward(s: State, giveUp: bool)
    requires WaiterInv(s) && Polling(s) && CanWait(s, giveUp)
    ensures StepWaiter(s, giveUp).waiter == Returned ==> s.waiter == ReadWorking(3) && s.working == 0
    ensures var t := StepWaiter(s, giveUp); t.waiter != Returned ==>
      Polling(t) && (t.waiter.loop == s.waiter.loop || (t.waiter.loop == s.waiter.loop + 1
        && (giveUp || (s.waiter.ReadWorking? && s.working == 0))))
  {
  }

  // ---------------------------------------------------------------------------------------------
  // A wait that returns
  // ---------------------------------------------------------------------------------------------

  /** The first job of a pool is run while a waiter polls. */
  lemma WaitReturnsAfterJob() returns (run: seq<Action>, t: State)
    ensures Reachable(FirstPush()) && Exec(FirstPush(), run) == Some(t)
    ensures t.waiter == Returned && t.called == 1 && t.finished == {0}
  {
    FirstPushReachable();
    run := FirstPushToPull();
    var s := FirstPush();
    t, run := Follow(s, run, BeforePull(), Wait(false));
    t, run := Follow(s, run, t, Wait(false));
    assert t.waiter == ReadLen(1) && t.called == 1;
    run, t := RunsTheJob(s, run, t);
    run, t := SixReads(s, run, t);
  }

  lemma RunsTheJob(s: State, run: seq<Action>, t: State) returns (run': seq<Action>, t': State)
    requires Exec(s, run) == Some(t) && t == BeforePull().(waiter := ReadLen(1), called := 1)
    ensures Exec(s, run') == Some(t') && t'.waiter == ReadLen(1) && t'.called == 1 && t'.finished == {0}
    ensures AtRest(t') && t'.ready && t'.destroyer == NotCalled
  {
    t', run' := Follow(s, run, t, Work(0, 0));
    t', run' := Follow(s, run', t', Work(0, 0));
    t', run' := Follow(s, run', t', Work(0, 0));
    t', run' := Follow(s, run', t', Work(0, 0));
  }

  lemma SixReads(s: State, run: seq<Action>, t: State) returns (run': seq<Action>, t': State)
    requires Exec(s, run) == Some(t) && t.waiter == ReadLen(1) && AtRest(t) && t.ready && t.destroyer == NotCalled
    ensures Exec(s, run') == Some(t') && t'.waiter == Returned && t'.called == t.called && t'.finished == t.finished
  {
    t', run' := Follow(s, run, t, Wait(false));
    t', run' := Follow(s, run', t', Wait(false));
    t', run' := Follow(s, run', t', Wait(false));
    t', run' := Follow(s, run', t', Wait(false));
    t', run' := Follow(s, run', t', Wait(false));
    t', run' := Follow(s, run', t', Wait(false));
  }

  // ---------------------------------------------------------------------------------------------
  // One step of a running pool
  // ---------------------------------------------------------------------------------------------

  ghost predicate Running(s: State) { Inv(s) && s.ready && s.keepalive && |s.pcs| > 0 }

  /** What a worker has still to do before it sleeps. */
  function Load(pc: WorkerPc): nat {
    match pc
    case Top => 1
    case Lower => 2
    case Run(_) => 3
    case Unlock(_) => 4
    case Pull => 5
    case Raise => 6
    case Woken => 7
    case Repost(_) => 14
    case _ => 0
  }

  function Todo(s: State): nat {
    10 * |s.queue| + (if s.v then 8 else 0) + Sum(s.pcs, Load) + Sum(s.pushers, PushDrain)
  }

  /** Less is left to do, or nothing has changed that matters. */
  ghost predicate Ahead(s: State, t: State) { Todo(t) < Todo(s) || (Todo(t) == Todo(s) && Frozen(s, t)) }

  lemma WakeLoad(pcs: seq<WorkerPc>, wake: nat)
    requires MayWake(pcs, wake)
    ensures Sum(Wake(pcs, wake), Load) == Sum(pcs, Load)
  {
    if SomeAsleep(pcs) { SumUpdate(pcs, wake, Signalled, Load); }
  }

  lemma WorkerLoad(s: State, w: nat, wake: nat)
    requires CanWork(s, w, wake)
    ensures Sum(StepWorker(s, w, wake).pcs, Load) + Load(s.pcs[w]) == Sum(s.pcs, Load) + Load(NextPc(s, s.pcs[w]))
  {
    if s.pcs[w].Repost? {
      WakeLoad(s.pcs, wake);
      SumUpdate(Wake(s.pcs, wake), w, NextPc(s, s.pcs[w]), Load);
    } else {
      SumUpdate(s.pcs, w, NextPc(s, s.pcs[w]), Load);
    }
  }

  lemma WorkerSleeps(s: State, w: nat, wake: nat)
    requires CanWork(s, w, wake) && FallsAsleep(s, Work(w, wake))
    ensures Frozen(s, StepWorker(s, w, wake)) && Todo(StepWorker(s, w, wake)) == Todo(s)
  {
    WorkerLoad(s, w, wake);
    assert StepWorker(s, w, wake) == s.(pcs := s.pcs[w := Asleep]);
    hide Sum;
    SleepMove(s, w, Asleep);
  }

  lemma WorkerWorks(s: State, w: nat, wake: nat)
    requires s.keepalive && CanWork(s, w, wake) && !FallsAsleep(s, Work(w, wake))
    requires s.pcs[w] != Start && s.pcs[w] != Leave && s.pcs[w] != Exit
    ensures Todo(StepWorker(s, w, wake)) < Todo(s)
  {
    WorkerLoad(s, w, wake);
    WorkerElsewhere(s, w, wake);
    hide Sum;
  }

  lemma WorkerStepAhead(s: State, w: nat, wake: nat)
    requires Running(s) && CanWork(s, w, wake)
    ensures Ahead(s, StepWorker(s, w, wake))
    ensures !FallsAsleep(s, Work(w, wake)) ==> Todo(StepWorker(s, w, wake)) < Todo(s)
  {
    hide Todo, Frozen, StepWorker;
    if FallsAsleep(s, Work(w, wake)) { WorkerSleeps(s, w, wake); } else { WorkerWorks(s, w, wake); }
  }

  lemma PusherWorks(s: State, p: nat, wake: nat)
    requires CanPush(s, p, wake) && s.pushers[p] != Idle
    ensures Todo(StepPusher(s, p, wake)) < Todo(s)
  {
    if s.pushers[p] == Post {
      WakeLoad(s.pcs, wake);
      SumUpdate(s.pushers, p, Release, PushDrain);
    } else {
      SumUpdate(s.pushers, p, Idle, PushDrain);
    }
  }

  /** A step of a running pool that nobody pushes to or shuts down. */
  predicate Undisturbed(s: State, a: Action) { Enabled(s, a) && !NewPush(s, Some(a)) && !a.Destroy? }

  lemma StaysRunning(s: State, a: Action)
    requires Undisturbed(s, a) && s.ready && s.keepalive && |s.pcs| > 0
    ensures var t := Apply(s, a); t.ready && t.keepalive && |t.pcs| > 0
  {
    match a
    case Work(w, wake) => WorkerElsewhere(s, w, wake);
    case Push(p, wake) => PusherWakes(s, p, wake);
    case _ =>
  }

  lemma OneWorkStep(s: State, a: Action)
    requires Running(s) && Undisturbed(s, a)
    ensures Running(Apply(s, a)) && Ahead(s, Apply(s, a))
  {
    StepKeepsInv(s, a);
    StaysRunning(s, a);
    hide Inv, Frozen;
    match a
    case Work(w, wake) => WorkerStepAhead(s, w, wake);
    case Spurious(w) =>
      SleepMove(s, w, Signalled);
      SumUpdate(s.pcs, w, Signalled, Load);
    case Push(p, wake) => PusherWorks(s, p, wake);
    case InitReturns =>
    case Wait(giveUp) => WaiterOnlyReads(s, giveUp);
  }

  /** Everybody sleeps or is about to, and no wakeup is due. */
  ghost predicate Settled(s: State) {
    && !s.v && (forall w :: 0 <= w < |s.pcs| ==> Sleepy(s.pcs[w]))
    && forall p :: 0 <= p < |s.pushers| ==> s.pushers[p] == Idle
  }

  lemma SettledIsAtRest(s: State)
    requires Running(s) && Settled(s)
    ensures AtRest(s)
  {
    SumZero(s.pcs, Working);
  }

  lemma SettledStays(s: State, a: Action)
    requires Running(s) && Settled(s) && Undisturbed(s, a)
    ensures Settled(Apply(s, a))
  {
    match a
    case Work(w, wake) =>
    case Wait(giveUp) => WaiterOnlyReads(s, giveUp);
    case _ =>
  }

  /** Until then some thread is useful. */
  lemma SomebodyWorks(s: State) returns (actor: Actor)
    requires Running(s) && !Settled(s)
    ensures Useful(s, actor) && (actor.Worker? || actor.Pusher?)
  {
    if p: nat :| p < |s.pushers| && s.pushers[p] != Idle {
      actor := Pusher(p);
    } else if s.lock.ByWorker? {
      actor := Worker(s.lock.w);
    } else if w: nat :| w < |s.pcs| && !Sleepy(s.pcs[w]) {
      actor := Worker(w);
    } else {
      var w: nat := 0;
      if s.pcs[w] == Asleep { w :| 0 <= w < |s.pcs| && s.pcs[w] == Signalled; }
      actor := Worker(w);
    }
  }

  lemma WorkStaysUseful(s: State, t: State, actor: Actor)
    requires Useful(s, actor) && Frozen(s, t) && (actor.Worker? || actor.Pusher?)
    ensures Useful(t, actor)
  {
  }

  lemma WorkMoves(s: State, actor: Actor)
    requires Running(s) && Useful(s, actor) && (actor.Worker? || actor.Pusher?)
    ensures Movable(s, actor)
  {
    var wake := SomeWake(s.pcs);
    match actor
    case Worker(w) => assert CanWork(s, w, wake);
    case Pusher(p) => assert CanPush(s, p, wake);
  }

  lemma WorkHelps(s: State, actor: Actor, a: Action)
    requires Running(s) && Useful(s, actor) && (actor.Worker? || actor.Pusher?)
    requires Enabled(s, a) && By(Some(a), actor)
    ensures Todo(Apply(s, a)) < Todo(s)
  {
    match actor
    case Worker(w) => WorkerStepAhead(s, w, a.wake);
    case Pusher(p) => PusherWorks(s, p, a.wake);
  }

  // ---------------------------------------------------------------------------------------------
  // Schedules
  // ---------------------------------------------------------------------------------------------

  /** States and steps of a running pool, without new pushes and shutdown. */
  ghost predicate Keeps(st: nat -> State, act: nat -> Option<Action>) {
    Running(st(0)) && forall n: nat :: Follows(st, act, n)
  }

  ghost predicate Follows(st: nat -> State, act: nat -> Option<Action>, n: nat) {
    && (act(n).Some? ==> Undisturbed(st(n), act(n).value))
    && st(n + 1) == Next(st(n), act(n))
  }

  /** Again and again each thread, the waiter too, moves or is found unable to. */
  ghost predicate FairToAll(st: nat -> State, act: nat -> Option<Action>) {
    forall actor, n: nat :: Turn(st, act, actor, n)
  }

  lemma AheadTransitively(s: State, t: State, u: State)
    requires Ahead(s, t) && Ahead(t, u)
    ensures Ahead(s, u)
  {
    hide Todo;
    if Frozen(s, t) && Frozen(t, u) { FrozenTransitively(s, t, u); }
  }

  lemma WorkStep(st: nat -> State, act: nat -> Option<Action>, n: nat)
    requires Running(st(n)) && Follows(st, act, n)
    ensures Running(st(n + 1)) && Ahead(st(n), st(n + 1)) && (Settled(st(n)) ==> Settled(st(n + 1)))
  {
    hide Running, Settled, Undisturbed, Todo;
    if act(n).Some? {
      OneWorkStep(st(n), act(n).value);
      if Settled(st(n)) { SettledStays(st(n), act(n).value); }
    }
  }

  lemma {:induction false} WorkAlong(st: nat -> State, act: nat -> Option<Action>, n: nat, m: nat)
    requires Keeps(st, act) && Running(st(n)) && n <= m
    ensures Running(st(m)) && Ahead(st(n), st(m)) && (Settled(st(n)) ==> Settled(st(m)))
    decreases m - n
  {
    hide Running, Settled, Todo, Follows;
    if n < m {
      WorkAlong(st, act, n, m - 1);
      assert Follows(st, act, m - 1);
      WorkStep(st, act, m - 1);
      AheadTransitively(st(n), st(m - 1), st(m));
    }
  }

  /** Under a fair schedule less is left to do, again and again, until all is settled. */
  lemma LessToDo(st: nat -> State, act: nat -> Option<Action>, n: nat) returns (m: nat)
    requires Keeps(st, act) && FairToAll(st, act) && Running(st(n)) && !Settled(st(n))
    ensures n <= m && Running(st(m)) && Todo(st(m)) < Todo(st(n))
  {
    hide Running, Settled, Todo, Frozen, Useful, Follows, Movable;
    var actor := SomebodyWorks(st(n));
    assert Turn(st, act, actor, n);
    var k: nat :| n <= k && (By(act(k), actor) || !Movable(st(k), actor));
    WorkAlong(st, act, n, k);
    m := k;
    if Todo(st(k)) == Todo(st(n)) {
      WorkStaysUseful(st(n), st(k), actor);
      WorkMoves(st(k), actor);
      assert Follows(st, act, k);
      m := k + 1;
      MovesOn(st, act, k, actor);
    }
  }

  lemma MovesOn(st: nat -> State, act: nat -> Option<Action>, k: nat, actor: Actor)
    requires Running(st(k)) && Follows(st, act, k) && By(act(k), actor)
    requires Useful(st(k), actor) && (actor.Worker? || actor.Pusher?)
    ensures Running(st(k + 1)) && Todo(st(k + 1)) < Todo(st(k))
  {
    hide Running, Todo, Useful;
    WorkStep(st, act, k);
    WorkHelps(st(k), actor, act(k).value);
  }

  /** A pool that nobody pushes to settles. */
  lemma {:induction false} Settles(st: nat -> State, act: nat -> Option<Action>, n: nat) returns (m: nat)
    requires Keeps(st, act) && FairToAll(st, act) && Running(st(n))
    ensures n <= m && Running(st(m)) && Settled(st(m))
    decreases Todo(st(n))
  {
    hide Keeps, FairToAll, Running, Settled, Todo;
    m := n;
    if !Settled(st(n)) {
      var k := LessToDo(st, act, n);
      m := Settles(st, act, k);
    }
  }

  lemma WaiterStep(s: State, t: State, a: Option<Action>)
    requires Running(s) && Polling(s) && (a.Some? ==> Undisturbed(s, a.value)) && t == Next(s, a)
    ensures t.waiter == Returned || Polling(t)
    ensures !By(a, Waiter) ==> t.waiter == s.waiter
    ensures Settled(s) ==> ReadsLeft(t.waiter) <= ReadsLeft(s.waiter)
    ensures Settled(s) && By(a, Waiter) ==> ReadsLeft(t.waiter) < ReadsLeft(s.waiter)
  {
    match a
    case Some(Work(w, wake)) => WorkerElsewhere(s, w, wake);
    case Some(Push(p, wake)) => PusherWakes(s, p, wake);
    case Some(Wait(giveUp)) => if Settled(s) { SettledIsAtRest(s); OneRead(s, giveUp); }
    case _ =>
  }

  /** Between two moments the wait returns, or polls on with no more reads left. */
  lemma {:induction false} WaiterAlong(st: nat -> State, act: nat -> Option<Action>, n: nat, m: nat) returns (k: nat)
    requires Keeps(st, act) && Running(st(n)) && Polling(st(n)) && n <= m
    ensures n <= k && (st(k).waiter == Returned || (k == m && Polling(st(m))))
    ensures Settled(st(n)) && st(k).waiter != Returned ==> ReadsLeft(st(m).waiter) <= ReadsLeft(st(n).waiter)
    decreases m - n
  {
    hide Running, Settled, Follows, ReadsLeft, Polling;
    k := n;
    if n < m {
      k := WaiterAlong(st, act, n, m - 1);
      if st(k).waiter != Returned {
        WorkAlong(st, act, n, m - 1);
        assert Follows(st, act, m - 1);
        OneMoreStep(st, act, m - 1);
        k := m;
      }
    }
  }

  lemma OneMoreStep(st: nat -> State, act: nat -> Option<Action>, n: nat)
    requires Running(st(n)) && Polling(st(n)) && Follows(st, act, n)
    ensures st(n + 1).waiter == Returned || Polling(st(n + 1))
    ensures Settled(st(n)) ==> ReadsLeft(st(n + 1).waiter) <= ReadsLeft(st(n).waiter)
    ensures Settled(st(n)) && By(act(n), Waiter) ==> ReadsLeft(st(n + 1).waiter) < ReadsLeft(st(n).waiter)
  {
    hide Running, Settled, ReadsLeft, Polling, Undisturbed;
    WaiterStep(st(n), st(n + 1), act(n));
  }

  lemma WaiterMovable(s: State)
    requires Running(s) && Polling(s)
    ensures Movable(s, Waiter)
  {
  }

  /** From a settled pool the wait reads on to its end. */
  lemma {:induction false} ReadsToTheEnd(st: nat -> State, act: nat -> Option<Action>, n: nat) returns (m: nat)
    requires Keeps(st, act) && FairToAll(st, act) && Running(st(n)) && Settled(st(n)) && Polling(st(n))
    ensures n <= m && st(m).waiter == Returned
    decreases ReadsLeft(st(n).waiter)
  {
    hide Running, Settled, Follows, ReadsLeft, Polling, Movable;
    assert Turn(st, act, Waiter, n);
    var k: nat :| n <= k && (By(act(k), Waiter) || !Movable(st(k), Waiter));
    m := WaiterAlong(st, act, n, k);
    if st(m).waiter != Returned {
      WorkAlong(st, act, n, k);
      WaiterMovable(st(k));
      assert Follows(st, act, k);
      OneMoreStep(st, act, k);
      WorkAlong(st, act, n, k + 1);
      m := k + 1;
      if st(m).waiter != Returned { m := ReadsToTheEnd(st, act, k + 1); }
    }
  }

  /** `thpool_wait` returns under every fair schedule of a running pool to which nothing more is pushed. */
  lemma WaitReturnsFairly(st: nat -> State, act: nat -> Option<Action>, n: nat) returns (m: nat)
    requires Keeps(st, act) && FairToAll(st, act) && Polling(st(n))
    ensures n <= m && st(m).waiter == Returned
  {
    hide Running, Settled, Follows, ReadsLeft, Polling;
    WorkAlong(st, act, 0, n);
    var k := Settles(st, act, n);
    m := WaiterAlong(st, act, n, k);
    if st(m).waiter != Returned { m := ReadsToTheEnd(st, act, k); }
  }

  // ---------------------------------------------------------------------------------------------
  // thpool_init
  // ---------------------------------------------------------------------------------------------

  function Unborn(pc: WorkerPc): nat { if pc == Start then 1 else 0 }

  /** Until `thpool_init` has returned it can return, or some worker has still to be counted. */
  lemma {:induction false} InitCompletes(s: State) returns (run: seq<Action>)
    requires Inv(s) && !s.ready && s.keepalive
    ensures Exec(s, run).Some? && Exec(s, run).value.ready && |Exec(s, run).value.pcs| == |s.pcs|
    decreases Sum(s.pcs, Unborn)
  {
    if w: nat :| w < |s.pcs| && s.pcs[w] == Start {
      var t := StepWorker(s, w, 0);
      StepKeepsInv(s, Work(w, 0));
      SumUpdate(s.pcs, w, Top, Unborn);
      var rest := InitCompletes(t);
      run := [Work(w, 0)] + rest;
      assert run[1..] == rest;
    } else {
      AllAlive(s.pcs);
      run := [InitReturns];
      assert run[1..] == [];
    }
  }

  lemma {:induction false} AllAlive(pcs: seq<WorkerPc>)
    requires forall w :: 0 <= w < |pcs| ==> pcs[w] != Start && pcs[w] != Exit && pcs[w] != Dead
    ensures Sum(pcs, Alive) == |pcs|
  {
    if pcs != [] { AllAlive(pcs[1..]); }
  }
}
