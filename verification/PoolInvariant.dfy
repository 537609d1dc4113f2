/** What every step of the thread pool keeps, and the proof that it does. */
module PoolInvariant {
  import opened Wrappers
  import opened PoolProtocol

  // ---------------------------------------------------------------------------------------------
  // What every step keeps
  // ---------------------------------------------------------------------------------------------

  /** Between the increment and the decrement of num_threads_working. */
  function Working(pc: WorkerPc): nat {
    if pc.Pull? || pc.Repost? || pc.Unlock? || pc.Run? || pc.Lower? then 1 else 0
  }

  /** Between the increment and the decrement of num_threads_alive. */
  function Alive(pc: WorkerPc): nat {
    if pc.Start? || pc.Exit? || pc.Dead? then 0 else 1
  }

  /** The pulled job a worker has in hand. */
  function Job(pc: WorkerPc): Option<nat> {
    match pc
    case Repost(got) => Some(got)
    case Unlock(next) => next
    case Run(job) => Some(job)
    case _ => None
  }

  predicate Held(s: State, job: nat) { exists w :: 0 <= w < |s.pcs| && Job(s.pcs[w]) == Some(job) }

  function Tickets(n: nat): seq<nat> { seq(n, i => i) }

  predicate HasLock(pc: WorkerPc) { pc.Repost? || pc.Unlock? }

  /** The queue's mutex has the holder its owner field names, and no other. */
  ghost predicate LockInv(s: State) {
    && (forall w: nat :: w < |s.pcs| ==> (HasLock(s.pcs[w]) <==> s.lock == ByWorker(w)))
    && (forall p: nat :: p < |s.pushers| ==> (s.pushers[p] != Idle <==> s.lock == ByPusher(p)))
    && (s.lock.ByWorker? ==> s.lock.w < |s.pcs|)
    && (s.lock.ByPusher? ==> s.lock.p < |s.pushers|)
  }

  ghost predicate CountInv(s: State) {
    s.working == Sum(s.pcs, Working) && s.alive == Sum(s.pcs, Alive) && |s.late| == |s.pcs|
  }

  /** Pulled jobs followed by queued jobs are the pushed jobs in order. */
  ghost predicate OrderInv(s: State) {
    if s.destroyer == Gone then s.queue == [] && |s.started| <= s.pushed && s.started == Tickets(|s.started|)
    else s.started + s.queue == Tickets(s.pushed)
  }

  /** A started job is held by exactly one worker until it finishes. */
  ghost predicate HeldInv(s: State) {
    && (forall w :: 0 <= w < |s.pcs| && Job(s.pcs[w]).Some? ==>
          Job(s.pcs[w]).value < |s.started| && Job(s.pcs[w]).value !in s.finished)
    && (forall w, x :: 0 <= w < x < |s.pcs| && Job(s.pcs[w]).Some? ==> Job(s.pcs[w]) != Job(s.pcs[x]))
    && (forall j: nat :: j < |s.started| ==> j in s.finished || Held(s, j))
    && (forall j :: j in s.finished ==> j < |s.started|)
  }

  /** A worker that has taken the semaphore and will pull. */
  predicate DueToPull(pc: WorkerPc) { pc.Woken? || pc.Raise? || pc.Pull? }

  predicate PullComing(s: State) { exists w :: 0 <= w < |s.pcs| && DueToPull(s.pcs[w]) }

  /** A thread that holds the queue's mutex and has not posted yet. */
  predicate PostComing(s: State) {
    || (exists w :: 0 <= w < |s.pcs| && s.pcs[w].Repost?)
    || (exists p :: 0 <= p < |s.pushers| && s.pushers[p] == Post)
  }

  predicate SomeSignalled(pcs: seq<WorkerPc>) { exists w :: 0 <= w < |pcs| && pcs[w] == Signalled }

  /** A queued job has a pull coming, or a set semaphore, or a post coming. */
  ghost predicate QueueInv(s: State) {
    s.keepalive && s.queue != [] ==> s.v || PullComing(s) || PostComing(s)
  }

  /** A set semaphore never leaves everyone asleep: someone signalled is due to look at it. */
  ghost predicate SleepInv(s: State) {
    s.v && SomeAsleep(s.pcs) ==> SomeSignalled(s.pcs)
  }

  ghost predicate WaiterInv(s: State) {
    && s.called <= s.pushed && s.seen <= s.pushed
    && (s.waiter.ReadLen? || s.waiter.ReadWorking? ==> 1 <= s.waiter.loop <= 3)
    && (s.waiter.ReadWorking? ==> s.called <= s.seen <= |s.started|)
    && (s.waiter.Returned? ==> s.called <= s.seen && forall j: nat :: j < s.seen ==> j in s.finished)
  }

  ghost predicate LifeInv(s: State) {
    && (!s.ready ==> s.destroyer == NotCalled && s.waiter == Outside)
    && (s.keepalive <==> s.destroyer == NotCalled)
    && (s.keepalive ==> forall w :: 0 <= w < |s.pcs| ==> !s.pcs[w].Leave? && !s.pcs[w].Exit? && !s.pcs[w].Dead?)
    && (s.ready ==> forall w :: 0 <= w < |s.pcs| ==> !s.pcs[w].Start?)
    && (s.destroyer == Clearing || s.destroyer == Gone ==>
          forall w :: 0 <= w < |s.pcs| ==> s.pcs[w].Exit? || s.pcs[w].Dead?)
    && (s.destroyer == Gone ==> forall p :: 0 <= p < |s.pushers| ==> s.pushers[p] == Idle)
  }

  /** After the pool is told to stop, a worker pulls at most once more. */
  ghost predicate LateInv(s: State) {
    forall w :: 0 <= w < |s.late| && w < |s.pcs| ==>
      && s.late[w] <= 1
      && (s.keepalive || s.pcs[w].Raise? || s.pcs[w].Pull? ==> s.late[w] == 0)
  }

  ghost predicate Inv(s: State) {
    && LockInv(s) && CountInv(s) && OrderInv(s) && HeldInv(s) && QueueInv(s) && SleepInv(s)
    && WaiterInv(s) && LifeInv(s) && LateInv(s)
  }

  // ---------------------------------------------------------------------------------------------
  // Workers
  // ---------------------------------------------------------------------------------------------

  /** One worker moves; the others stay, or are woken. */
  ghost predicate Moves(pcs: seq<WorkerPc>, pcs': seq<WorkerPc>, w: nat) {
    && w < |pcs| == |pcs'|
    && forall x :: 0 <= x < |pcs| && x != w ==> pcs'[x] == pcs[x] || (pcs[x] == Asleep && pcs'[x] == Signalled)
  }

  lemma WorkerMoves(s: State, w: nat, wake: nat)
    requires CanWork(s, w, wake)
    ensures Moves(s.pcs, StepWorker(s, w, wake).pcs, w)
    ensures StepWorker(s, w, wake).pcs[w] == NextPc(s, s.pcs[w])
  {
  }

  /** What a worker's step never touches. */
  ghost predicate SameElsewhere(s: State, t: State) {
    t == s.(pcs := t.pcs, lock := t.lock, v := t.v, queue := t.queue, started := t.started, finished := t.finished,
            working := t.working, alive := t.alive, late := t.late)
  }

  lemma WorkerElsewhere(s: State, w: nat, wake: nat)
    requires CanWork(s, w, wake)
    ensures SameElsewhere(s, StepWorker(s, w, wake))
  {
  }

  ghost predicate LockMove(s: State, t: State, w: nat)
    requires w < |s.pcs| == |t.pcs|
  {
    || (t.lock == s.lock && (HasLock(s.pcs[w]) <==> HasLock(t.pcs[w])))
    || (s.lock == Free && t.lock == ByWorker(w) && HasLock(t.pcs[w]))
    || (HasLock(s.pcs[w]) && t.lock == Free && !HasLock(t.pcs[w]))
  }

  lemma WorkerLockMove(s: State, w: nat, wake: nat)
    requires CanWork(s, w, wake)
    ensures LockMove(s, StepWorker(s, w, wake), w)
  {
  }

  lemma LockFromMove(s: State, t: State, w: nat)
    requires LockInv(s) && Moves(s.pcs, t.pcs, w) && LockMove(s, t, w) && t.pushers == s.pushers
    ensures LockInv(t)
  {
  }

  lemma WorkerLock(s: State, w: nat, wake: nat)
    requires LockInv(s) && CanWork(s, w, wake)
    ensures LockInv(StepWorker(s, w, wake))
  {
    WorkerMoves(s, w, wake);
    WorkerElsewhere(s, w, wake);
    WorkerLockMove(s, w, wake);
    LockFromMove(s, StepWorker(s, w, wake), w);
  }

  lemma ChangeCounts(pcs: seq<WorkerPc>, w: nat, pc: WorkerPc)
    requires w < |pcs|
    ensures Sum(pcs[w := pc], Working) + Working(pcs[w]) == Sum(pcs, Working) + Working(pc)
    ensures Sum(pcs[w := pc], Alive) + Alive(pcs[w]) == Sum(pcs, Alive) + Alive(pc)
  {
    SumUpdate(pcs, w, pc, Working);
    SumUpdate(pcs, w, pc, Alive);
  }

  lemma WakeCounts(pcs: seq<WorkerPc>, wake: nat)
    requires MayWake(pcs, wake)
    ensures Sum(Wake(pcs, wake), Working) == Sum(pcs, Working)
    ensures Sum(Wake(pcs, wake), Alive) == Sum(pcs, Alive)
  {
    if SomeAsleep(pcs) { ChangeCounts(pcs, wake, Signalled); }
  }

  /** The two counters change with the position of the worker that moves. */
  lemma WorkerCounters(s: State, w: nat, wake: nat)
    requires CanWork(s, w, wake)
    ensures var t := StepWorker(s, w, wake); var pc := NextPc(s, s.pcs[w]);
      && t.working - s.working == Working(pc) - Working(s.pcs[w])
      && t.alive - s.alive == Alive(pc) - Alive(s.pcs[w]) && |t.late| == |s.late|
  {
  }

  lemma WorkerSums(s: State, w: nat, wake: nat)
    requires CanWork(s, w, wake)
    ensures var t := StepWorker(s, w, wake); var pc := NextPc(s, s.pcs[w]);
      && Sum(t.pcs, Working) + Working(s.pcs[w]) == Sum(s.pcs, Working) + Working(pc)
      && Sum(t.pcs, Alive) + Alive(s.pcs[w]) == Sum(s.pcs, Alive) + Alive(pc)
  {
    var pc := NextPc(s, s.pcs[w]);
    if s.pcs[w].Repost? {
      WakeCounts(s.pcs, wake);
      ChangeCounts(Wake(s.pcs, wake), w, pc);
    } else {
      ChangeCounts(s.pcs, w, pc);
    }
  }

  ghost predicate CountMove(s: State, t: State, w: nat)
    requires w < |s.pcs| == |t.pcs|
  {
    && |t.late| == |s.late|
    && t.working - s.working == Working(t.pcs[w]) - Working(s.pcs[w])
    && t.alive - s.alive == Alive(t.pcs[w]) - Alive(s.pcs[w])
    && Sum(t.pcs, Working) - Sum(s.pcs, Working) == Working(t.pcs[w]) - Working(s.pcs[w])
    && Sum(t.pcs, Alive) - Sum(s.pcs, Alive) == Alive(t.pcs[w]) - Alive(s.pcs[w])
  }

  lemma CountFromMove(s: State, t: State, w: nat)
    requires w < |s.pcs| == |t.pcs| == |t.late| && CountInv(s) && CountMove(s, t, w)
    ensures CountInv(t)
  {
  }

  lemma WorkerCount(s: State, w: nat, wake: nat)
    requires CountInv(s) && CanWork(s, w, wake)
    ensures CountInv(StepWorker(s, w, wake))
  {
    WorkerMoves(s, w, wake);
    WorkerCounters(s, w, wake);
    WorkerSums(s, w, wake);
    CountFromMove(s, StepWorker(s, w, wake), w);
  }

  lemma WorkerOrder(s: State, w: nat, wake: nat)
    requires OrderInv(s) && CanWork(s, w, wake)
    ensures OrderInv(StepWorker(s, w, wake))
  {
    var t := StepWorker(s, w, wake);
    assert t.destroyer == s.destroyer && t.pushed == s.pushed;
    if s.pcs[w].Pull? && s.queue != [] {
      assert t.started + t.queue == s.started + s.queue;
    }
  }

  /** A worker keeps the job in hand, gets the next one, or finishes it. */
  ghost predicate HeldMove(s: State, t: State, w: nat)
    requires w < |s.pcs| == |t.pcs|
  {
    || (t.started == s.started && t.finished == s.finished && Job(t.pcs[w]) == Job(s.pcs[w]))
    || (t.started == s.started + [|s.started|] && t.finished == s.finished
        && Job(s.pcs[w]) == None && Job(t.pcs[w]) == Some(|s.started|))
    || (t.started == s.started && Job(s.pcs[w]).Some? && t.finished == s.finished + {Job(s.pcs[w]).value}
        && Job(t.pcs[w]) == None)
  }

  lemma WorkerHeldMove(s: State, w: nat, wake: nat)
    requires OrderInv(s) && CanWork(s, w, wake)
    ensures HeldMove(s, StepWorker(s, w, wake), w)
  {
    WorkerMoves(s, w, wake);
    assert s.destroyer != Gone && s.queue != [] ==> (s.started + s.queue)[|s.started|] == s.queue[0];
    match s.pcs[w]
    case Run(_) =>
    case Pull =>
    case _ =>
  }

  lemma HeldFromMove(s: State, t: State, w: nat)
    requires HeldInv(s) && Moves(s.pcs, t.pcs, w) && HeldMove(s, t, w)
    ensures HeldInv(t)
  {
    assert forall x :: 0 <= x < |s.pcs| && x != w ==> Job(t.pcs[x]) == Job(s.pcs[x]);
    forall j: nat | j < |t.started|
      ensures j in t.finished || Held(t, j)
    {
      if j < |s.started| && Held(s, j) {
        var x :| 0 <= x < |s.pcs| && Job(s.pcs[x]) == Some(j);
        assert x != w ==> Job(t.pcs[x]) == Some(j);
      } else if j == |s.started| {
        assert Job(t.pcs[w]) == Some(j);
      }
    }
  }

  lemma WorkerHeld(s: State, w: nat, wake: nat)
    requires HeldInv(s) && OrderInv(s) && CanWork(s, w, wake)
    ensures HeldInv(StepWorker(s, w, wake))
  {
    WorkerMoves(s, w, wake);
    WorkerHeldMove(s, w, wake);
    HeldFromMove(s, StepWorker(s, w, wake), w);
  }

  /** A worker's step leaves the queued jobs with someone or something that will see to them. */
  ghost predicate QueueMove(s: State, t: State, w: nat)
    requires w < |s.pcs| == |t.pcs|
  {
    || t.v || t.queue == [] || DueToPull(t.pcs[w]) || t.pcs[w].Repost?
    || (t.v == s.v && t.queue == s.queue && !DueToPull(s.pcs[w]) && !s.pcs[w].Repost?)
  }

  lemma WorkerQueueMove(s: State, w: nat, wake: nat)
    requires s.keepalive && CanWork(s, w, wake)
    ensures QueueMove(s, StepWorker(s, w, wake), w)
  {
  }

  lemma QueueFromMove(s: State, t: State, w: nat)
    requires QueueInv(s) && Moves(s.pcs, t.pcs, w) && t.keepalive == s.keepalive && t.pushers == s.pushers
    requires s.keepalive ==> QueueMove(s, t, w)
    ensures QueueInv(t)
  {
    if t.keepalive && t.queue != [] && !t.v && !DueToPull(t.pcs[w]) && !t.pcs[w].Repost? {
      if PullComing(s) {
        var x :| 0 <= x < |s.pcs| && DueToPull(s.pcs[x]);
        assert DueToPull(t.pcs[x]);
      } else if exists x :: 0 <= x < |s.pcs| && s.pcs[x].Repost? {
        var x :| 0 <= x < |s.pcs| && s.pcs[x].Repost?;
        assert t.pcs[x].Repost?;
      }
    }
  }

  lemma WorkerQueue(s: State, w: nat, wake: nat)
    requires QueueInv(s) && CanWork(s, w, wake)
    ensures QueueInv(StepWorker(s, w, wake))
  {
    WorkerMoves(s, w, wake);
    WorkerElsewhere(s, w, wake);
    if s.keepalive { WorkerQueueMove(s, w, wake); }
    QueueFromMove(s, StepWorker(s, w, wake), w);
  }

  lemma WakeSleep(pcs: seq<WorkerPc>, wake: nat)
    requires MayWake(pcs, wake)
    ensures SomeAsleep(Wake(pcs, wake)) ==> wake < |pcs| && Wake(pcs, wake)[wake] == Signalled
  {
  }

  lemma WorkerSleep(s: State, w: nat, wake: nat)
    requires SleepInv(s) && CanWork(s, w, wake)
    ensures SleepInv(StepWorker(s, w, wake))
  {
    var t := StepWorker(s, w, wake);
    WorkerMoves(s, w, wake);
    if t.v && SomeAsleep(t.pcs) {
      var x :| 0 <= x < |t.pcs| && t.pcs[x] == Asleep;
      assert x != w && s.pcs[x] == Asleep;
      if s.pcs[w].Repost? {
        assert t.pcs[wake] == Signalled;
      } else {
        var y :| 0 <= y < |s.pcs| && s.pcs[y] == Signalled;
        assert t.pcs[y] == Signalled;
      }
    }
  }

  lemma WorkerWaiter(s: State, w: nat, wake: nat)
    requires WaiterInv(s) && CanWork(s, w, wake)
    ensures WaiterInv(StepWorker(s, w, wake))
  {
    WorkerElsewhere(s, w, wake);
  }

  ghost predicate LifeMove(s: State, t: State, w: nat)
    requires w < |s.pcs| == |t.pcs|
  {
    && SameElsewhere(s, t) && !t.pcs[w].Start? && !s.pcs[w].Dead? && (s.pcs[w].Exit? ==> t.pcs[w].Dead?)
    && (s.keepalive ==> !t.pcs[w].Leave?)
    && (t.pcs[w].Exit? ==> s.pcs[w].Leave?) && (t.pcs[w].Dead? ==> s.pcs[w].Exit?)
  }

  lemma WorkerLifeMove(s: State, w: nat, wake: nat)
    requires CanWork(s, w, wake)
    ensures LifeMove(s, StepWorker(s, w, wake), w)
  {
    WorkerElsewhere(s, w, wake);
    WorkerMoves(s, w, wake);
  }

  lemma LifeFromMove(s: State, t: State, w: nat)
    requires LifeInv(s) && Moves(s.pcs, t.pcs, w) && LifeMove(s, t, w)
    ensures LifeInv(t)
  {
  }

  lemma WorkerLife(s: State, w: nat, wake: nat)
    requires LifeInv(s) && CanWork(s, w, wake)
    ensures LifeInv(StepWorker(s, w, wake))
  {
    WorkerMoves(s, w, wake);
    WorkerLifeMove(s, w, wake);
    LifeFromMove(s, StepWorker(s, w, wake), w);
  }

  lemma WorkerLate(s: State, w: nat, wake: nat)
    requires LateInv(s) && CanWork(s, w, wake)
    ensures LateInv(StepWorker(s, w, wake))
  {
    var t := StepWorker(s, w, wake);
    WorkerElsewhere(s, w, wake);
    WorkerMoves(s, w, wake);
    assert forall x :: 0 <= x < |s.late| && x != w ==> t.late[x] == s.late[x];
  }
  // ---------------------------------------------------------------------------------------------
  // Pushers, the waiter, the destroyer, spurious wakeups
  // ---------------------------------------------------------------------------------------------

  /** Nobody moves, but sleepers may be woken. */
  ghost predicate OnlyWakes(pcs: seq<WorkerPc>, pcs': seq<WorkerPc>) {
    && |pcs| == |pcs'| && Sum(pcs', Working) == Sum(pcs, Working) && Sum(pcs', Alive) == Sum(pcs, Alive)
    && forall x :: 0 <= x < |pcs| ==> pcs'[x] == pcs[x] || (pcs[x] == Asleep && pcs'[x] == Signalled)
  }

  lemma WakeOnlyWakes(pcs: seq<WorkerPc>, wake: nat)
    requires MayWake(pcs, wake)
    ensures OnlyWakes(pcs, Wake(pcs, wake))
  {
    WakeCounts(pcs, wake);
  }

  lemma WakeAllOnlyWakes(pcs: seq<WorkerPc>)
    ensures OnlyWakes(pcs, WakeAll(pcs))
  {
    SumWakeAll(pcs, Working);
    SumWakeAll(pcs, Alive);
  }

  ghost predicate SameCounters(s: State, t: State) {
    && t.working == s.working && t.alive == s.alive && t.late == s.late
    && t.started == s.started && t.finished == s.finished && t.ready == s.ready
  }

  lemma WakingKeepsHeld(s: State, t: State)
    requires HeldInv(s) && OnlyWakes(s.pcs, t.pcs) && SameCounters(s, t)
    ensures HeldInv(t)
  {
    assert forall x :: 0 <= x < |s.pcs| ==> Job(t.pcs[x]) == Job(s.pcs[x]);
    forall j: nat | j < |s.started| && Held(s, j)
      ensures Held(t, j)
    {
      var x :| 0 <= x < |s.pcs| && Job(s.pcs[x]) == Some(j);
      assert Job(t.pcs[x]) == Some(j);
    }
  }

  lemma WakingKeepsQueue(s: State, t: State)
    requires QueueInv(s) && OnlyWakes(s.pcs, t.pcs) && t.keepalive == s.keepalive
    requires t.pushers == s.pushers && t.queue == s.queue && (s.v ==> t.v)
    ensures QueueInv(t)
  {
    if t.keepalive && t.queue != [] && !t.v {
      if PullComing(s) {
        var x :| 0 <= x < |s.pcs| && DueToPull(s.pcs[x]);
        assert DueToPull(t.pcs[x]);
      } else if exists x :: 0 <= x < |s.pcs| && s.pcs[x].Repost? {
        var x :| 0 <= x < |s.pcs| && s.pcs[x].Repost?;
        assert t.pcs[x].Repost?;
      }
    }
  }

  lemma WakingKeepsLate(s: State, t: State)
    requires LateInv(s) && OnlyWakes(s.pcs, t.pcs) && SameCounters(s, t) && (t.keepalive ==> s.keepalive)
    ensures LateInv(t)
  {
  }

  /** Jobs that only wait: positions that matter to the lock, the counters and the jobs in hand are unchanged. */
  lemma Waking(s: State, t: State)
    requires CountInv(s) && HeldInv(s) && LateInv(s)
    requires OnlyWakes(s.pcs, t.pcs) && SameCounters(s, t) && (t.keepalive ==> s.keepalive)
    ensures CountInv(t) && HeldInv(t) && LateInv(t)
  {
    WakingKeepsHeld(s, t);
    WakingKeepsLate(s, t);
  }

  lemma PusherWakes(s: State, p: nat, wake: nat)
    requires CanPush(s, p, wake)
    ensures var t := StepPusher(s, p, wake);
      && OnlyWakes(s.pcs, t.pcs) && SameCounters(s, t) && t.keepalive == s.keepalive && t.destroyer == s.destroyer
      && t.waiter == s.waiter && t.called == s.called && t.seen == s.seen && t.pushed >= s.pushed
  {
    if s.pushers[p] == Post { WakeOnlyWakes(s.pcs, wake); }
  }

  lemma PusherLock(s: State, p: nat, wake: nat)
    requires LockInv(s) && CanPush(s, p, wake)
    ensures LockInv(StepPusher(s, p, wake))
  {
    PusherWakes(s, p, wake);
    assert forall x :: 0 <= x < |s.pcs| ==> HasLock(StepPusher(s, p, wake).pcs[x]) == HasLock(s.pcs[x]);
  }

  lemma PusherOrder(s: State, p: nat, wake: nat)
    requires OrderInv(s) && LifeInv(s) && CanPush(s, p, wake)
    ensures OrderInv(StepPusher(s, p, wake))
  {
    var t := StepPusher(s, p, wake);
    if s.pushers[p] == Idle {
      assert t.started + t.queue == (s.started + s.queue) + [s.pushed];
    }
  }

  lemma PusherQueue(s: State, p: nat, wake: nat)
    requires QueueInv(s) && CanPush(s, p, wake)
    ensures QueueInv(StepPusher(s, p, wake))
  {
    var t := StepPusher(s, p, wake);
    match s.pushers[p]
    case Idle => assert t.pushers[p] == Post;
    case Post =>
    case Release =>
      if exists q :: 0 <= q < |s.pushers| && s.pushers[q] == Post {
        var q :| 0 <= q < |s.pushers| && s.pushers[q] == Post;
        assert t.pushers[q] == Post;
      }
  }

  lemma PusherSleep(s: State, p: nat, wake: nat)
    requires SleepInv(s) && CanPush(s, p, wake)
    ensures SleepInv(StepPusher(s, p, wake))
  {
    if s.pushers[p] == Post { WakeSleep(s.pcs, wake); }
  }

  lemma PusherLife(s: State, p: nat, wake: nat)
    requires LifeInv(s) && WaiterInv(s) && CanPush(s, p, wake)
    ensures LifeInv(StepPusher(s, p, wake)) && WaiterInv(StepPusher(s, p, wake))
  {
    PusherWakes(s, p, wake);
  }

  lemma PusherKeeps(s: State, p: nat, wake: nat)
    requires Inv(s) && CanPush(s, p, wake)
    ensures Inv(StepPusher(s, p, wake))
  {
    PusherWakes(s, p, wake);
    Waking(s, StepPusher(s, p, wake));
    PusherLock(s, p, wake);
    PusherOrder(s, p, wake);
    PusherQueue(s, p, wake);
    PusherSleep(s, p, wake);
    PusherLife(s, p, wake);
  }

  lemma SpuriousKeeps(s: State, w: nat)
    requires Inv(s) && w < |s.pcs| && s.pcs[w] == Asleep
    ensures Inv(s.(pcs := s.pcs[w := Signalled]))
  {
    var t := s.(pcs := s.pcs[w := Signalled]);
    assert t.pcs[w] == Signalled;
    ChangeCounts(s.pcs, w, Signalled);
    Waking(s, t);
    WakingKeepsQueue(s, t);
  }

  lemma StartedAll(s: State)
    requires CountInv(s) && s.alive == |s.pcs|
    ensures forall w :: 0 <= w < |s.pcs| ==> !s.pcs[w].Start?
  {
    SumFull(s.pcs, Alive);
  }

  lemma NoneAlive(s: State)
    requires CountInv(s) && LifeInv(s) && s.ready && s.alive == 0
    ensures forall w :: 0 <= w < |s.pcs| ==> s.pcs[w].Exit? || s.pcs[w].Dead?
  {
    forall w | 0 <= w < |s.pcs|
      ensures s.pcs[w].Exit? || s.pcs[w].Dead?
    {
      SumAtLeast(s.pcs, w, Alive);
    }
  }

  lemma NoneWorking(s: State)
    requires CountInv(s) && HeldInv(s) && s.working == 0
    ensures forall j: nat :: j < |s.started| ==> j in s.finished
  {
    forall j: nat | j < |s.started|
      ensures j in s.finished
    {
      if Held(s, j) {
        var w :| 0 <= w < |s.pcs| && Job(s.pcs[w]) == Some(j);
        SumAtLeast(s.pcs, w, Working);
      }
    }
  }

  lemma WaiterOnlyReads(s: State, giveUp: bool)
    requires CanWait(s, giveUp)
    ensures var t := StepWaiter(s, giveUp); t == s.(waiter := t.waiter, called := t.called, seen := t.seen)
  {
  }

  lemma WaiterWaiter(s: State, giveUp: bool)
    requires WaiterInv(s) && OrderInv(s) && CanWait(s, giveUp)
    requires s.working == 0 ==> forall j: nat :: j < |s.started| ==> j in s.finished
    ensures WaiterInv(StepWaiter(s, giveUp))
  {
    if s.queue == [] { assert s.started == s.started + s.queue; }
  }

  lemma WaiterKeeps(s: State, giveUp: bool)
    requires Inv(s) && CanWait(s, giveUp)
    ensures Inv(StepWaiter(s, giveUp))
  {
    if s.working == 0 { NoneWorking(s); }
    WaiterOnlyReads(s, giveUp);
    WaiterWaiter(s, giveUp);
  }

  lemma DestroyerLock(s: State, timeout: bool)
    requires LockInv(s) && CanDestroy(s, timeout)
    ensures LockInv(StepDestroyer(s, timeout))
  {
    assert forall x :: 0 <= x < |s.pcs| ==> HasLock(StepDestroyer(s, timeout).pcs[x]) == HasLock(s.pcs[x]);
  }

  lemma DestroyerWakes(s: State, timeout: bool)
    requires CanDestroy(s, timeout)
    ensures OnlyWakes(s.pcs, StepDestroyer(s, timeout).pcs)
  {
    WakeAllOnlyWakes(s.pcs);
    assert OnlyWakes(s.pcs, s.pcs);
  }

  lemma DestroyerElsewhere(s: State, timeout: bool)
    requires CanDestroy(s, timeout)
    ensures var t := StepDestroyer(s, timeout);
      && t == s.(pcs := t.pcs, v := t.v, queue := t.queue, keepalive := t.keepalive, destroyer := t.destroyer)
      && t.destroyer != NotCalled && (t.keepalive ==> s.keepalive)
  {
  }

  lemma DestroyerLife(s: State, timeout: bool)
    requires LifeInv(s) && CountInv(s) && CanDestroy(s, timeout)
    ensures LifeInv(StepDestroyer(s, timeout))
  {
    if s.alive == 0 { NoneAlive(s); }
  }

  lemma DestroyerOrder(s: State, timeout: bool)
    requires OrderInv(s) && CanDestroy(s, timeout)
    ensures OrderInv(StepDestroyer(s, timeout))
  {
    assert s.started == (s.started + s.queue)[..|s.started|];
  }

  lemma DestroyerKeeps(s: State, timeout: bool)
    requires Inv(s) && CanDestroy(s, timeout)
    ensures Inv(StepDestroyer(s, timeout))
  {
    var t := StepDestroyer(s, timeout);
    DestroyerLock(s, timeout);
    DestroyerWakes(s, timeout);
    DestroyerElsewhere(s, timeout);
    Waking(s, t);
    DestroyerLife(s, timeout);
    DestroyerOrder(s, timeout);
  }

  // ---------------------------------------------------------------------------------------------
  // Runs
  // ---------------------------------------------------------------------------------------------

  lemma WorkerKeeps(s: State, w: nat, wake: nat)
    requires Inv(s) && CanWork(s, w, wake)
    ensures Inv(StepWorker(s, w, wake))
  {
    WorkerLock(s, w, wake);
    WorkerCount(s, w, wake);
    WorkerOrder(s, w, wake);
    WorkerHeld(s, w, wake);
    WorkerQueue(s, w, wake);
    WorkerSleep(s, w, wake);
    WorkerWaiter(s, w, wake);
    WorkerLife(s, w, wake);
    WorkerLate(s, w, wake);
  }

  lemma StepKeepsInv(s: State, a: Action)
    requires Inv(s) && Enabled(s, a)
    ensures Inv(Apply(s, a))
  {
    match a
    case Work(w, wake) => WorkerKeeps(s, w, wake);
    case Spurious(w) => SpuriousKeeps(s, w);
    case Push(p, wake) => PusherKeeps(s, p, wake);
    case InitReturns => StartedAll(s);
    case Wait(giveUp) => WaiterKeeps(s, giveUp);
    case Destroy(timeout) => DestroyerKeeps(s, timeout);
  }

  lemma InitInv(s: State)
    requires Init(s)
    ensures Inv(s)
  {
    SumZero(s.pcs, Working);
    SumZero(s.pcs, Alive);
  }

  lemma {:induction false} RunKeepsInv(s: State, run: seq<Action>)
    requires Inv(s) && Exec(s, run).Some?
    ensures Inv(Exec(s, run).value)
    decreases |run|
  {
    if run != [] {
      StepKeepsInv(s, run[0]);
      RunKeepsInv(Apply(s, run[0]), run[1..]);
    }
  }

  lemma ReachableInv(s: State)
    requires Reachable(s)
    ensures Inv(s)
  {
    var s0, run :| Init(s0) && Exec(s0, run) == Some(s);
    InitInv(s0);
    RunKeepsInv(s0, run);
  }
}
