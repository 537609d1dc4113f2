/** The theorems about runs of the thread pool. */
module PoolTheorems {
  import opened Wrappers
  import opened PoolProtocol
  import opened PoolInvariant

  // ---------------------------------------------------------------------------------------------
  // Wait safety
  // ---------------------------------------------------------------------------------------------

  /** Started and pushed jobs only accumulate. */
  ghost predicate Grows(s: State, t: State) {
    |t.started| >= |s.started| && t.pushed >= s.pushed && (t.called == s.called || t.called == s.pushed)
  }

  lemma WorkerGrows(s: State, w: nat, wake: nat)
    requires CanWork(s, w, wake)
    ensures Grows(s, StepWorker(s, w, wake))
  {
    WorkerElsewhere(s, w, wake);
  }

  lemma StepGrows(s: State, a: Action)
    requires Enabled(s, a)
    ensures Grows(s, Apply(s, a))
  {
    match a
    case Work(w, wake) => WorkerGrows(s, w, wake);
    case Push(p, wake) => PusherWakes(s, p, wake);
    case Destroy(timeout) => DestroyerElsewhere(s, timeout);
    case _ =>
  }

  lemma {:induction false} RunGrows(s: State, run: seq<Action>, n: nat)
    requires Exec(s, run).Some? && s.called >= n && s.pushed >= n
    ensures var t := Exec(s, run).value; |t.started| >= |s.started| && t.called >= n && t.pushed >= n
    decreases |run|
  {
    if run != [] {
      StepGrows(s, run[0]);
      RunGrows(Apply(s, run[0]), run[1..], n);
    }
  }

  /** The two unlocked reads: if len is 0 in one state and num_threads_working is 0 in a later one, every job pushed
      before the first read has finished by the second, whatever ran in between. */
  lemma EmptyThenIdle(s: State, run: seq<Action>)
    requires Reachable(s) && s.destroyer != Gone && s.queue == []
    requires Exec(s, run).Some? && Exec(s, run).value.working == 0
    ensures forall j: nat :: j < s.pushed ==> j in Exec(s, run).value.finished
  {
    ReachableInv(s);
    assert s.started == s.started + s.queue;
    RunKeepsInv(s, run);
    RunGrows(s, run, 0);
    NoneWorking(Exec(s, run).value);
  }

  /** When `thpool_wait` returns, every job pushed before it was called has finished. */
  lemma WaitIsSafe(s: State, run: seq<Action>)
    requires Reachable(s) && CanWait(s, false) && (s.waiter == Outside || s.waiter == Returned)
    requires Exec(StepWaiter(s, false), run).Some? && Exec(StepWaiter(s, false), run).value.waiter == Returned
    ensures forall j: nat :: j < s.pushed ==> j in Exec(StepWaiter(s, false), run).value.finished
  {
    ReachableInv(s);
    WaiterKeeps(s, false);
    RunKeepsInv(StepWaiter(s, false), run);
    RunGrows(StepWaiter(s, false), run, s.pushed);
  }

  lemma ExecStep(s: State, run: seq<Action>, t: State, a: Action)
    requires Exec(s, run) == Some(t) && Enabled(t, a)
    ensures Exec(s, run + [a]) == Some(Apply(t, a))
    decreases |run|
  {
    if run == [] {
      assert ([] + [a])[1..] == [];
    } else {
      assert (run + [a])[1..] == run[1..] + [a];
      ExecStep(Apply(s, run[0]), run[1..], t, a);
    }
  }

  /** A pool of one worker, just after its first push. */
  function FirstPush(): State {
    State([Top], [Post], ByPusher(0), false, [0], 1, [], {}, 0, 1, true, true, Outside, 0, 0, NotCalled, [0])
  }

  lemma FirstPushReachable()
    ensures Reachable(FirstPush())
  {
    var s0 := State([Start], [Idle], Free, false, [], 0, [], {}, 0, 0, true, false, Outside, 0, 0, NotCalled, [0]);
    var s, run := Follow(s0, [], s0, Work(0, 0));
    s, run := Follow(s0, run, s, InitReturns);
    s, run := Follow(s0, run, s, Push(0, 0));
    assert s.pcs == [Top] && s.pushers == [Post] && s.queue == [0];
    assert Init(s0) && Exec(s0, run) == Some(FirstPush());
  }

  /** The same pool, the push done and the worker on its way to pull. */
  function BeforePull(): State {
    State([Pull], [Idle], Free, false, [0], 1, [], {}, 1, 1, true, true, Outside, 0, 0, NotCalled, [0])
  }

  lemma FirstPushToPull() returns (run: seq<Action>)
    ensures Exec(FirstPush(), run) == Some(BeforePull())
  {
    var s, t := FirstPush(), FirstPush();
    t, run := Follow(s, [], s, Push(0, 0));
    t, run := Follow(s, run, t, Push(0, 0));
    t, run := Follow(s, run, t, Work(0, 0));
    t, run := Follow(s, run, t, Work(0, 0));
    t, run := Follow(s, run, t, Work(0, 0));
    t, run := Follow(s, run, t, Work(0, 0));
    assert t.pcs == [Pull] && t.pushers == [Idle];
  }

  /** The order of the two reads matters: with num_threads_working read first and len second, both can be 0
      although a job pushed before the first read has not finished. */
  lemma IdleThenEmptyIsUnsafe() returns (run: seq<Action>, t: State)
    ensures Reachable(FirstPush()) && FirstPush().working == 0
    ensures Exec(FirstPush(), run) == Some(t) && t.queue == [] && 0 < FirstPush().pushed && 0 !in t.finished
  {
    FirstPushReachable();
    run := FirstPushToPull();
    t, run := Follow(FirstPush(), run, BeforePull(), Work(0, 0));
  }

  lemma Follow(s: State, run: seq<Action>, t: State, a: Action) returns (t': State, run': seq<Action>)
    requires Exec(s, run) == Some(t) && Enabled(t, a)
    ensures t' == Apply(t, a) && run' == run + [a] && Exec(s, run') == Some(t')
  {
    t', run' := Apply(t, a), run + [a];
    ExecStep(s, run, t, a);
  }

  // ---------------------------------------------------------------------------------------------
  // No lost wakeup
  // ---------------------------------------------------------------------------------------------

  /** A queued job always has a set semaphore, a worker between bsem_wait and its pull, or a post to come; and a
      set semaphore with sleepers has a signalled worker due to recheck. */
  lemma NoLostWakeup(s: State)
    requires Reachable(s) && s.keepalive && s.queue != []
    ensures s.v || PullComing(s) || PostComing(s)
    ensures s.v && SomeAsleep(s.pcs) ==> SomeSignalled(s.pcs)
    ensures |s.pcs| > 0 && !PostComing(s) ==> exists w :: 0 <= w < |s.pcs| && s.pcs[w] != Asleep
  {
    ReachableInv(s);
    if |s.pcs| > 0 && !PostComing(s) && s.pcs[0] == Asleep {
      if s.v {
        var w :| 0 <= w < |s.pcs| && s.pcs[w] == Signalled;
        assert s.pcs[w] != Asleep;
      } else {
        var w :| 0 <= w < |s.pcs| && DueToPull(s.pcs[w]);
        assert s.pcs[w] != Asleep;
      }
    }
  }

  // ---------------------------------------------------------------------------------------------
  // The pool drains: left to themselves, the threads finish every pushed job
  // ---------------------------------------------------------------------------------------------

  /** A step of the pool itself: no new push, no spurious wakeup. */
  predicate Internal(s: State, a: Action) {
    match a
    case Work(_, _) => true
    case Push(p, _) => p < |s.pushers| && s.pushers[p] != Idle
    case _ => false
  }

  function Drain(pc: WorkerPc): nat {
    match pc
    case Start => 3
    case Top => 2
    case Enter => 1
    case Asleep => 0
    case Signalled => 1
    case Woken => 8
    case Raise => 7
    case Pull => 6
    case Repost(_) => 15
    case Unlock(_) => 5
    case Run(_) => 4
    case Lower => 3
    case _ => 0
  }

  function PushDrain(pc: PusherPc): nat {
    match pc
    case Idle => 0
    case Post => 11
    case Release => 1
  }

  function Potential(s: State): nat {
    10 * |s.queue| + (if s.v then 8 else 0) + Sum(s.pcs, Drain) + Sum(s.pushers, PushDrain)
  }

  lemma WakeDrain(pcs: seq<WorkerPc>, wake: nat)
    requires MayWake(pcs, wake)
    ensures Sum(Wake(pcs, wake), Drain) <= Sum(pcs, Drain) + 1
  {
    if SomeAsleep(pcs) { SumUpdate(pcs, wake, Signalled, Drain); }
  }

  lemma WorkerDrainSum(s: State, w: nat, wake: nat)
    requires CanWork(s, w, wake)
    ensures Sum(StepWorker(s, w, wake).pcs, Drain) + Drain(s.pcs[w])
         <= Sum(s.pcs, Drain) + Drain(NextPc(s, s.pcs[w])) + (if s.pcs[w].Repost? then 1 else 0)
  {
    if s.pcs[w].Repost? {
      WakeDrain(s.pcs, wake);
      SumUpdate(Wake(s.pcs, wake), w, NextPc(s, s.pcs[w]), Drain);
    } else {
      SumUpdate(s.pcs, w, NextPc(s, s.pcs[w]), Drain);
    }
  }

  lemma WorkerDrains(s: State, w: nat, wake: nat)
    requires s.keepalive && CanWork(s, w, wake) && s.pcs[w] != Leave && s.pcs[w] != Exit
    ensures Potential(StepWorker(s, w, wake)) < Potential(s)
  {
    WorkerDrainSum(s, w, wake);
    WorkerElsewhere(s, w, wake);
  }

  lemma PusherDrains(s: State, p: nat, wake: nat)
    requires CanPush(s, p, wake) && s.pushers[p] != Idle
    ensures Potential(StepPusher(s, p, wake)) < Potential(s)
  {
    if s.pushers[p] == Post {
      WakeDrain(s.pcs, wake);
      SumUpdate(s.pushers, p, Release, PushDrain);
    } else {
      SumUpdate(s.pushers, p, Idle, PushDrain);
    }
  }

  lemma InternalDrains(s: State, a: Action)
    requires Inv(s) && s.keepalive && Enabled(s, a) && Internal(s, a)
    ensures Potential(Apply(s, a)) < Potential(s) && Apply(s, a).keepalive && Apply(s, a).ready == s.ready
    ensures |Apply(s, a).pcs| == |s.pcs| && Apply(s, a).pushed == s.pushed
  {
    match a
    case Work(w, wake) =>
      WorkerDrains(s, w, wake);
      WorkerElsewhere(s, w, wake);
    case Push(p, wake) => PusherDrains(s, p, wake);
  }

  /** A signal can always be sent. */
  lemma SomeWake(pcs: seq<WorkerPc>) returns (wake: nat)
    ensures MayWake(pcs, wake)
  {
    wake := 0;
    if SomeAsleep(pcs) { wake :| wake < |pcs| && pcs[wake] == Asleep; }
  }

  lemma HolderMoves(s: State) returns (a: Action)
    requires Inv(s) && s.lock != Free
    ensures Enabled(s, a) && Internal(s, a)
    ensures a.Push? ==> s.pushers[a.p] != Idle
    ensures a.Work? ==> HasLock(s.pcs[a.w])
  {
    var wake := SomeWake(s.pcs);
    match s.lock
    case ByWorker(w) =>
      assert HasLock(s.pcs[w]);
      a := Work(w, wake);
    case ByPusher(p) =>
      assert s.pushers[p] != Idle;
      a := Push(p, wake);
  }

  predicate AllFinished(s: State) { forall j: nat :: j < s.pushed ==> j in s.finished }

  lemma AllAsleepAllDone(s: State)
    requires Inv(s) && s.keepalive && s.lock == Free && |s.pcs| > 0
    requires forall w :: 0 <= w < |s.pcs| ==> s.pcs[w] == Asleep
    ensures AllFinished(s)
  {
    assert s.pcs[0] == Asleep;
    assert !SomeSignalled(s.pcs) && SomeAsleep(s.pcs) && !PullComing(s);
    assert forall p: nat :: p < |s.pushers| ==> s.pushers[p] == Idle;
    assert s.started == s.started + s.queue;
    forall j: nat | j < s.pushed
      ensures j in s.finished
    {
      assert !Held(s, j);
    }
  }

  /** While a job is unfinished some thread of the pool can move: no deadlock, no lost wakeup. */
  lemma SomeoneMoves(s: State) returns (a: Action)
    requires Inv(s) && s.keepalive && s.ready && |s.pcs| > 0 && !AllFinished(s)
    ensures Enabled(s, a) && Internal(s, a)
  {
    if s.lock != Free {
      a := HolderMoves(s);
    } else {
      if forall w :: 0 <= w < |s.pcs| ==> s.pcs[w] == Asleep { AllAsleepAllDone(s); }
      var w: nat :| w < |s.pcs| && s.pcs[w] != Asleep;
      assert !HasLock(s.pcs[w]);
      a := Work(w, 0);
    }
  }

  /** A run of internal steps only. */
  predicate Quiet(s: State, run: seq<Action>)
    decreases |run|
  {
    run != [] ==> Enabled(s, run[0]) && Internal(s, run[0]) && Quiet(Apply(s, run[0]), run[1..])
  }

  lemma {:induction false} QuietRun(s: State, run: seq<Action>)
    requires Inv(s) && s.keepalive && s.ready && Quiet(s, run)
    ensures Exec(s, run).Some? && Inv(Exec(s, run).value)
    ensures var t := Exec(s, run).value; |run| + Potential(t) <= Potential(s)
    ensures var t := Exec(s, run).value; t.keepalive && t.ready && |t.pcs| == |s.pcs| && t.pushed == s.pushed
    decreases |run|
  {
    if run != [] {
      StepKeepsInv(s, run[0]);
      InternalDrains(s, run[0]);
      QuietRun(Apply(s, run[0]), run[1..]);
    }
  }

  /** Liveness for every schedule: with no new pushes and no spurious wakeups the threads of a running pool take at
      most Potential(s) more steps, and when none of them can move every pushed job has finished. */
  lemma PoolDrains(s: State, run: seq<Action>)
    requires Reachable(s) && s.keepalive && s.ready && |s.pcs| > 0 && Quiet(s, run)
    ensures Exec(s, run).Some? && |run| <= Potential(s) && Exec(s, run).value.pushed == s.pushed
    ensures (forall a :: Enabled(Exec(s, run).value, a) ==> !Internal(Exec(s, run).value, a)) ==>
              AllFinished(Exec(s, run).value)
  {
    ReachableInv(s);
    QuietRun(s, run);
    var t := Exec(s, run).value;
    if !AllFinished(t) {
      var a := SomeoneMoves(t);
      assert Enabled(t, a) && Internal(t, a);
    }
  }

  // ---------------------------------------------------------------------------------------------
  // Each job at most once, in order
  // ---------------------------------------------------------------------------------------------

  /** Jobs start in the order in which they were pushed, each at most once; a started job is finished or in the
      hands of exactly one worker, never both. */
  lemma EachJobOnce(s: State)
    requires Reachable(s)
    ensures s.started == Tickets(|s.started|) && |s.started| <= s.pushed
    ensures forall j: nat :: j < |s.started| ==> (j in s.finished <==> !Held(s, j))
    ensures forall w, x :: 0 <= w < x < |s.pcs| && Job(s.pcs[w]).Some? ==> Job(s.pcs[w]) != Job(s.pcs[x])
  {
    ReachableInv(s);
    if s.destroyer != Gone {
      assert |s.started + s.queue| == s.pushed;
      assert s.started == (s.started + s.queue)[..|s.started|];
    }
  }

  // ---------------------------------------------------------------------------------------------
  // Shutdown
  // ---------------------------------------------------------------------------------------------

  /** After `threads_keepalive = 0` no worker pulls more than one further job. */
  lemma AtMostOneLateJob(s: State, w: nat)
    requires Reachable(s) && w < |s.pcs|
    ensures w < |s.late| && s.late[w] <= 1 && (s.keepalive ==> s.late[w] == 0)
  {
    ReachableInv(s);
  }

  /** From the moment `thpool_destroy` goes on to free the queue, no worker has a step left but the unlock that follows
      its last decrement. */
  lemma QueueFreedOnlyWhenLeft(s: State, run: seq<Action>, a: Action)
    requires Reachable(s) && (s.destroyer == Clearing || s.destroyer == Gone)
    requires Exec(s, run).Some? && Enabled(Exec(s, run).value, a)
    ensures !a.Spurious? && (a.Work? ==> Exec(s, run).value.pcs[a.w] == Exit)
  {
    ReachableInv(s);
    RunKeepsInv(s, run);
    StaysFreed(s, run);
  }

  /** That unlock can come too late: num_threads_alive is read without its lock, so a pool can be freed while a worker
      is still about to unlock it. */
  lemma FreedBeforeUnlock() returns (run: seq<Action>, t: State)
    ensures Reachable(FirstPush()) && Exec(FirstPush(), run) == Some(t)
    ensures t.destroyer == Gone && t.pcs == [Exit] && Enabled(t, Work(0, 0))
  {
    FirstPushReachable();
    run := FirstPushToPull();
    var s := FirstPush();
    t, run := Follow(s, run, BeforePull(), Work(0, 0));
    t, run := Follow(s, run, t, Work(0, 0));
    t, run := Follow(s, run, t, Work(0, 0));
    t, run := Follow(s, run, t, Work(0, 0));
    assert t.pcs == [Top] && t.alive == 1 && t.pushers == [Idle];
    run, t := FreedFromTop(s, run, t);
  }

  lemma FreedFromTop(s: State, run: seq<Action>, t: State) returns (run': seq<Action>, t': State)
    requires Exec(s, run) == Some(t) && t.pcs == [Top] && |t.late| == 1 && t.alive == 1 && t.pushers == [Idle]
    requires t.destroyer == NotCalled && t.ready
    ensures Exec(s, run') == Some(t') && t'.destroyer == Gone && t'.pcs == [Exit] && Enabled(t', Work(0, 0))
  {
    t', run' := Follow(s, run, t, Destroy(false));
    t', run' := Follow(s, run', t', Work(0, 0));
    t', run' := Follow(s, run', t', Work(0, 0));
    assert t'.pcs == [Exit] && t'.alive == 0;
    t', run' := Follow(s, run', t', Destroy(false));
    t', run' := Follow(s, run', t', Destroy(false));
    t', run' := Follow(s, run', t', Destroy(false));
  }

  lemma {:induction false} StaysFreed(s: State, run: seq<Action>)
    requires Inv(s) && (s.destroyer == Clearing || s.destroyer == Gone) && Exec(s, run).Some?
    ensures var t := Exec(s, run).value; t.destroyer == Clearing || t.destroyer == Gone
    decreases |run|
  {
    if run != [] {
      StepKeepsInv(s, run[0]);
      StaysFreed(Apply(s, run[0]), run[1..]);
    }
  }

  /** How far a worker is from being dead once the pool is told to stop. */
  function Stop(pc: WorkerPc): nat {
    match pc
    case Start => 4
    case Top => 3
    case Enter => 5
    case Asleep => 5
    case Signalled => 5
    case Woken => 4
    case Raise => 9
    case Pull => 8
    case Repost(_) => 7
    case Unlock(_) => 6
    case Run(_) => 5
    case Lower => 4
    case Leave => 2
    case Exit => 1
    case Dead => 0
  }

  function Life(s: State): nat { Sum(s.pcs, Stop) }

  /** A worker that finds the semaphore clear goes (back) to sleep. */
  predicate FallsAsleep(s: State, a: Action) {
    a.Work? && a.w < |s.pcs| && (s.pcs[a.w] == Enter || s.pcs[a.w] == Signalled) && !s.v
  }

  lemma WakeStop(pcs: seq<WorkerPc>, wake: nat)
    requires MayWake(pcs, wake)
    ensures Sum(Wake(pcs, wake), Stop) == Sum(pcs, Stop)
  {
    if SomeAsleep(pcs) { SumUpdate(pcs, wake, Signalled, Stop); }
  }

  lemma WorkerStops(s: State, w: nat, wake: nat)
    requires CanWork(s, w, wake)
    ensures Life(StepWorker(s, w, wake)) + Stop(s.pcs[w]) == Life(s) + Stop(NextPc(s, s.pcs[w]))
  {
    if s.pcs[w].Repost? {
      WakeStop(s.pcs, wake);
      SumUpdate(Wake(s.pcs, wake), w, NextPc(s, s.pcs[w]), Stop);
    } else {
      SumUpdate(s.pcs, w, NextPc(s, s.pcs[w]), Stop);
    }
  }

  lemma WorkerStopsSooner(s: State, w: nat, wake: nat)
    requires !s.keepalive && CanWork(s, w, wake)
    ensures Life(StepWorker(s, w, wake)) <= Life(s) && !StepWorker(s, w, wake).keepalive
    ensures !FallsAsleep(s, Work(w, wake)) ==> Life(StepWorker(s, w, wake)) < Life(s)
  {
    WorkerStops(s, w, wake);
    WorkerElsewhere(s, w, wake);
    assert Stop(NextPc(s, s.pcs[w])) <= Stop(s.pcs[w]);
  }

  /** Once the pool is told to stop no step of anyone takes a worker further from its end, and every worker's step,
      in particular one that consumes a post, brings it nearer, except falling asleep. */
  lemma ShutdownMeasure(s: State, a: Action)
    requires Inv(s) && !s.keepalive && Enabled(s, a)
    ensures Life(Apply(s, a)) <= Life(s) && !Apply(s, a).keepalive
    ensures a.Work? && !FallsAsleep(s, a) ==> Life(Apply(s, a)) < Life(s)
  {
    match a
    case Work(w, wake) => WorkerStopsSooner(s, w, wake);
    case Spurious(w) => SumUpdate(s.pcs, w, Signalled, Stop);
    case Push(p, wake) => if s.pushers[p] == Post { WakeStop(s.pcs, wake); }
    case Destroy(_) => SumWakeAll(s.pcs, Stop);
    case _ =>
  }

  lemma LifeIsZero(s: State)
    ensures Life(s) == 0 <==> forall w :: 0 <= w < |s.pcs| ==> s.pcs[w] == Dead
  {
    if forall w :: 0 <= w < |s.pcs| ==> s.pcs[w] == Dead {
      SumZero(s.pcs, Stop);
    } else {
      var w :| 0 <= w < |s.pcs| && s.pcs[w] != Dead;
      SumAtLeast(s.pcs, w, Stop);
    }
  }

  function PushStop(pc: PusherPc): nat {
    match pc
    case Idle => 0
    case Post => 2
    case Release => 1
  }

  /** How far the destroyer is from its next useful step. */
  function Shut(s: State): nat {
    if Life(s) > 0 then
      if s.v then 0
      else match s.destroyer
        case Broadcast(_) => 1
        case Poll(second) => if second then 2 else 3
        case _ => 0
    else match s.destroyer
      case Broadcast(second) => if second then 5 else 6
      case Poll(second) => if second then 4 else 5
      case Clearing => 1
      case _ => 0
  }

  /** A step that shortens the way to the end of `thpool_destroy`. */
  ghost predicate Nearer(s: State, t: State) {
    || Life(t) < Life(s)
    || (Life(t) == Life(s) && Sum(t.pushers, PushStop) < Sum(s.pushers, PushStop))
    || (Life(t) == Life(s) && Sum(t.pushers, PushStop) == Sum(s.pushers, PushStop) && Shut(t) < Shut(s))
  }

  lemma PusherNearer(s: State, p: nat, wake: nat)
    requires CanPush(s, p, wake) && s.pushers[p] != Idle
    ensures Nearer(s, StepPusher(s, p, wake))
  {
    if s.pushers[p] == Post {
      WakeStop(s.pcs, wake);
      SumUpdate(s.pushers, p, Release, PushStop);
    } else {
      SumUpdate(s.pushers, p, Idle, PushStop);
    }
  }

  lemma AliveWhileLife(s: State)
    requires CountInv(s) && LifeInv(s) && s.ready && forall w :: 0 <= w < |s.pcs| ==> s.pcs[w] != Exit
    ensures s.alive == 0 <==> Life(s) == 0
  {
    LifeIsZero(s);
    if Life(s) == 0 {
      SumZero(s.pcs, Alive);
    } else {
      var w :| 0 <= w < |s.pcs| && s.pcs[w] != Dead;
      SumAtLeast(s.pcs, w, Alive);
    }
  }

  lemma DestroyerNearer(s: State)
    requires !s.keepalive && CanDestroy(s, false) && s.destroyer != NotCalled
    requires (s.alive == 0 <==> Life(s) == 0) && (Life(s) > 0 ==> !s.v && s.destroyer != Clearing)
    ensures Nearer(s, StepDestroyer(s, false))
  {
    SumWakeAll(s.pcs, Stop);
  }

  lemma SetAndAsleepIsDead(s: State)
    requires SleepInv(s) && s.v && forall w :: 0 <= w < |s.pcs| ==> s.pcs[w] == Asleep || s.pcs[w] == Dead
    ensures Life(s) == 0
  {
    LifeIsZero(s);
    assert !SomeSignalled(s.pcs);
    assert !SomeAsleep(s.pcs);
  }

  lemma SomeStepIsNearer(s: State) returns (a: Action)
    requires Inv(s) && s.ready && !s.keepalive && s.destroyer != Gone
    ensures Enabled(s, a) && Nearer(s, Apply(s, a))
  {
    if s.lock != Free {
      a := HolderMoves(s);
      if a.Work? {
        ShutdownMeasure(s, a);
      } else {
        PusherNearer(s, a.p, a.wake);
      }
    } else if w: nat :| w < |s.pcs| && s.pcs[w] != Asleep && s.pcs[w] != Dead && !FallsAsleep(s, Work(w, 0)) {
      assert !HasLock(s.pcs[w]);
      a := Work(w, 0);
      ShutdownMeasure(s, a);
    } else {
      if s.v {
        assert forall w: nat :: w < |s.pcs| ==> !FallsAsleep(s, Work(w, 0));
        SetAndAsleepIsDead(s);
      }
      assert forall p: nat :: p < |s.pushers| ==> s.pushers[p] == Idle;
      a := Destroy(false);
      LifeIsZero(s);
      AliveWhileLife(s);
      DestroyerNearer(s);
    }
  }

  /** `thpool_destroy` is never stuck: from every state in which it has begun there is a run to its end, and at that
      end every started job has finished. */
  lemma {:induction false} ShutdownCompletes(s: State) returns (run: seq<Action>)
    requires Inv(s) && s.ready && !s.keepalive
    ensures Exec(s, run).Some? && Exec(s, run).value.destroyer == Gone
    ensures forall j: nat :: j < |Exec(s, run).value.started| ==> j in Exec(s, run).value.finished
    decreases Life(s), Sum(s.pushers, PushStop), Shut(s)
  {
    if s.destroyer == Gone {
      run := [];
      forall j: nat | j < |s.started|
        ensures j in s.finished
      {
        assert !Held(s, j);
      }
    } else {
      var a := SomeStepIsNearer(s);
      StepKeepsInv(s, a);
      ShutdownMeasure(s, a);
      assert Apply(s, a).ready;
      var rest := ShutdownCompletes(Apply(s, a));
      run := [a] + rest;
      assert run[1..] == rest;
    }
  }
}
