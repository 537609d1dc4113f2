/** The thread pool of server/src/thpool.c as an interleaving transition system.

    The actors are the N workers (`thread_do`), any number of pushers (`thpool_add_work`), the initialiser
    (`thpool_init`), one waiter (`thpool_wait`; waiters write nothing, so one stands for all) and the destroyer
    (`thpool_destroy`).  A step is one critical section or one unlocked access to a shared variable.  Jobs are
    numbered by the order in which they were pushed; `started` lists the pulled ones in pull order. */
module PoolProtocol {
  import opened Wrappers

  // ---------------------------------------------------------------------------------------------
  // State
  // ---------------------------------------------------------------------------------------------

  /** Where a worker stands in `thread_do`.  `Enter` and `Signalled` are both about to take the semaphore's mutex
      and test `v`; `Repost` and `Unlock` hold the queue's mutex. */
  datatype WorkerPc =
    | Start                     // not yet counted in num_threads_alive
    | Top                       // at the loop test
    | Enter                     // entering bsem_wait
    | Asleep                    // in pthread_cond_wait, not signalled
    | Signalled                 // woken in pthread_cond_wait, due to recheck v
    | Woken                     // past bsem_wait, about to test threads_keepalive again
    | Raise                     // about to increment num_threads_working
    | Pull                      // about to lock the queue and pull
    | Repost(got: nat)          // pulled with more than one job queued: about to post
    | Unlock(next: Option<nat>) // about to unlock the queue
    | Run(job: nat)             // executing a job
    | Lower                     // about to decrement num_threads_working
    | Leave                     // out of the loop, about to decrement num_threads_alive
    | Exit                      // counted out of num_threads_alive, about to unlock thcount_lock
    | Dead

  /** Where a caller of `thpool_add_work` stands; `Post` and `Release` hold the queue's mutex. */
  datatype PusherPc = Idle | Post | Release

  datatype Owner = Free | ByWorker(w: nat) | ByPusher(p: nat)

  /** `thpool_wait` polls in three loops; only the third can return. */
  datatype WaiterPc = Outside | ReadLen(loop: nat) | ReadWorking(loop: nat) | Returned

  /** `thpool_destroy` polls in two loops; the first one may time out. */
  datatype DestroyerPc = NotCalled | Poll(second: bool) | Broadcast(second: bool) | Clearing | Gone

  datatype State = State(
    pcs: seq<WorkerPc>,       // the workers
    pushers: seq<PusherPc>,
    lock: Owner,              // rwmutex
    v: bool,                  // the binary semaphore
    queue: seq<nat>,          // queued jobs, front first; len is its length
    pushed: nat,              // jobs pushed so far
    started: seq<nat>,        // jobs pulled so far
    finished: set<nat>,       // jobs whose function has returned
    working: int,             // num_threads_working
    alive: int,               // num_threads_alive
    keepalive: bool,          // threads_keepalive
    ready: bool,              // thpool_init has returned
    waiter: WaiterPc,
    called: nat,              // jobs pushed before the waiter's call
    seen: nat,                // jobs pushed before the waiter's last successful read of len
    destroyer: DestroyerPc,
    late: seq<nat>)           // per worker, jobs pulled since threads_keepalive was cleared

  predicate Init(s: State) {
    && (forall w :: 0 <= w < |s.pcs| ==> s.pcs[w] == Start)
    && (forall p :: 0 <= p < |s.pushers| ==> s.pushers[p] == Idle)
    && s.lock == Free && !s.v && s.queue == [] && s.pushed == 0 && s.started == [] && s.finished == {}
    && s.working == 0 && s.alive == 0 && s.keepalive && !s.ready
    && s.waiter == Outside && s.called == 0 && s.seen == 0
    && s.destroyer == NotCalled && s.late == seq(|s.pcs|, _ => 0)
  }

  // ---------------------------------------------------------------------------------------------
  // Steps
  // ---------------------------------------------------------------------------------------------

  /** Who moves next.  `wake` is the sleeper a post signals, when there is one. */
  datatype Action =
    | Work(w: nat, wake: nat)
    | Spurious(w: nat)
    | Push(p: nat, wake: nat)
    | InitReturns
    | Wait(giveUp: bool)
    | Destroy(timeout: bool)

  predicate SomeAsleep(pcs: seq<WorkerPc>) { exists w :: 0 <= w < |pcs| && pcs[w] == Asleep }

  /** `pthread_cond_signal` wakes a sleeper when there is one; further wakeups are `Spurious` steps. */
  predicate MayWake(pcs: seq<WorkerPc>, wake: nat) {
    SomeAsleep(pcs) ==> wake < |pcs| && pcs[wake] == Asleep
  }

  function Wake(pcs: seq<WorkerPc>, wake: nat): seq<WorkerPc>
    requires MayWake(pcs, wake)
  {
    if SomeAsleep(pcs) then pcs[wake := Signalled] else pcs
  }

  function WakeAll(pcs: seq<WorkerPc>): (r: seq<WorkerPc>)
    ensures |r| == |pcs|
    ensures forall i :: 0 <= i < |pcs| ==> r[i] == if pcs[i] == Asleep then Signalled else pcs[i]
  {
    seq(|pcs|, i requires 0 <= i < |pcs| => if pcs[i] == Asleep then Signalled else pcs[i])
  }

  predicate CanWork(s: State, w: nat, wake: nat) {
    && w < |s.pcs| == |s.late|
    && s.pcs[w] != Asleep && s.pcs[w] != Dead
    && (s.pcs[w] == Pull ==> s.lock == Free)
    && (s.pcs[w].Repost? ==> MayWake(s.pcs, wake))
  }

  /** What `jobqueue_pull` leaves the worker to do, by the number of queued jobs. */
  function AfterPull(queue: seq<nat>): WorkerPc {
    if |queue| == 0 then Unlock(None)
    else if |queue| == 1 then Unlock(Some(queue[0]))
    else Repost(queue[0])
  }

  function NextPc(s: State, pc: WorkerPc): WorkerPc {
    match pc
    case Start => Top
    case Top => if s.keepalive then Enter else Leave
    case Enter => if s.v then Woken else Asleep
    case Signalled => if s.v then Woken else Asleep
    case Woken => if s.keepalive then Raise else Top
    case Raise => Pull
    case Pull => AfterPull(s.queue)
    case Repost(got) => Unlock(Some(got))
    case Unlock(None) => Lower
    case Unlock(Some(job)) => Run(job)
    case Run(_) => Lower
    case Lower => Top
    case Leave => Exit
    case Exit => Dead
    case _ => pc
  }

  function StepWorker(s: State, w: nat, wake: nat): State
    requires CanWork(s, w, wake)
  {
    var pcs := if s.pcs[w].Repost? then Wake(s.pcs, wake) else s.pcs;
    var t := s.(pcs := pcs[w := NextPc(s, s.pcs[w])]);
    match s.pcs[w]
    case Start => t.(alive := s.alive + 1)
    case Enter => t.(v := false)
    case Signalled => t.(v := false)
    case Raise => t.(working := s.working + 1)
    case Pull =>
      if s.queue == [] then t.(lock := ByWorker(w))
      else t.(lock := ByWorker(w), queue := s.queue[1..], started := s.started + [s.queue[0]],
              late := if s.keepalive then s.late else s.late[w := s.late[w] + 1])
    case Repost(_) => t.(v := true)
    case Unlock(_) => t.(lock := Free)
    case Run(job) => t.(finished := s.finished + {job})
    case Lower => t.(working := s.working - 1)
    case Leave => t.(alive := s.alive - 1)
    case _ => t
  }

  predicate CanPush(s: State, p: nat, wake: nat) {
    && p < |s.pushers|
    && (s.pushers[p] == Idle ==> s.lock == Free && s.ready && s.destroyer != Gone)
    && (s.pushers[p] == Post ==> MayWake(s.pcs, wake))
  }

  function StepPusher(s: State, p: nat, wake: nat): State
    requires CanPush(s, p, wake)
  {
    match s.pushers[p]
    case Idle =>
      s.(pushers := s.pushers[p := Post], lock := ByPusher(p), queue := s.queue + [s.pushed], pushed := s.pushed + 1)
    case Post => s.(v := true, pcs := Wake(s.pcs, wake), pushers := s.pushers[p := Release])
    case Release => s.(pushers := s.pushers[p := Idle], lock := Free)
  }

  predicate CanWait(s: State, giveUp: bool) {
    && s.ready && s.destroyer != Gone
    && (giveUp ==> s.waiter.ReadLen? && s.waiter.loop < 3)
  }

  function StepWaiter(s: State, giveUp: bool): State
    requires CanWait(s, giveUp)
  {
    match s.waiter
    case ReadLen(loop) =>
      if giveUp then s.(waiter := ReadLen(loop + 1))
      else if s.queue != [] then s
      else s.(waiter := ReadWorking(loop), seen := s.pushed)
    case ReadWorking(loop) =>
      if s.working != 0 then s.(waiter := ReadLen(loop))
      else if loop < 3 then s.(waiter := ReadLen(loop + 1))
      else s.(waiter := Returned)
    case _ => s.(waiter := ReadLen(1), called := s.pushed)
  }

  /** `jobqueue_destroy` takes no lock: its caller must not race with `thpool_add_work`. */
  predicate CanDestroy(s: State, timeout: bool) {
    && s.ready && s.destroyer != Gone
    && (timeout ==> s.destroyer == Poll(false))
    && (s.destroyer == Clearing ==> forall p :: 0 <= p < |s.pushers| ==> s.pushers[p] == Idle)
  }

  function StepDestroyer(s: State, timeout: bool): State
    requires CanDestroy(s, timeout)
  {
    match s.destroyer
    case NotCalled => s.(keepalive := false, destroyer := Poll(false))
    case Poll(second) =>
      if timeout then s.(destroyer := Poll(true))
      else if s.alive != 0 then s.(destroyer := Broadcast(second))
      else if second then s.(destroyer := Clearing)
      else s.(destroyer := Poll(true))
    case Broadcast(second) => s.(v := true, pcs := WakeAll(s.pcs), destroyer := Poll(second))
    case Clearing => s.(queue := [], v := false, destroyer := Gone)
  }

  predicate Enabled(s: State, a: Action) {
    match a
    case Work(w, wake) => CanWork(s, w, wake)
    case Spurious(w) => w < |s.pcs| && s.pcs[w] == Asleep
    case Push(p, wake) => CanPush(s, p, wake)
    case InitReturns => !s.ready && s.alive == |s.pcs|
    case Wait(giveUp) => CanWait(s, giveUp)
    case Destroy(timeout) => CanDestroy(s, timeout)
  }

  function Apply(s: State, a: Action): State
    requires Enabled(s, a)
  {
    match a
    case Work(w, wake) => StepWorker(s, w, wake)
    case Spurious(w) => s.(pcs := s.pcs[w := Signalled])
    case Push(p, wake) => StepPusher(s, p, wake)
    case InitReturns => s.(ready := true)
    case Wait(giveUp) => StepWaiter(s, giveUp)
    case Destroy(timeout) => StepDestroyer(s, timeout)
  }

  /** The state after a run, or nothing when some step of it is not enabled. */
  function Exec(s: State, run: seq<Action>): Option<State>
    decreases |run|
  {
    if run == [] then Some(s)
    else if Enabled(s, run[0]) then Exec(Apply(s, run[0]), run[1..])
    else None
  }

  /** Some run from an initial state, of any length and in any interleaving, ends in s. */
  ghost predicate Reachable(s: State) {
    exists s0, run :: Init(s0) && Exec(s0, run) == Some(s)
  }

  // ---------------------------------------------------------------------------------------------
  // Sums over the workers
  // ---------------------------------------------------------------------------------------------

  function Sum<T>(xs: seq<T>, f: T -> nat): nat {
    if xs == [] then 0 else f(xs[0]) + Sum(xs[1..], f)
  }

  lemma {:induction false} SumUpdate<T>(xs: seq<T>, k: nat, x: T, f: T -> nat)
    requires k < |xs|
    ensures Sum(xs[k := x], f) + f(xs[k]) == Sum(xs, f) + f(x)
  {
    if k == 0 {
      assert xs[0 := x][1..] == xs[1..];
    } else {
      assert xs[k := x][1..] == xs[1..][k - 1 := x];
      SumUpdate(xs[1..], k - 1, x, f);
    }
  }

  lemma {:induction false} SumWakeAll(pcs: seq<WorkerPc>, f: WorkerPc -> nat)
    requires f(Asleep) == f(Signalled)
    ensures Sum(WakeAll(pcs), f) == Sum(pcs, f)
  {
    if pcs != [] {
      assert WakeAll(pcs)[1..] == WakeAll(pcs[1..]);
      SumWakeAll(pcs[1..], f);
    }
  }

  lemma {:induction false} SumAtLeast<T>(xs: seq<T>, k: nat, f: T -> nat)
    requires k < |xs|
    ensures Sum(xs, f) >= f(xs[k])
  {
    if k > 0 { SumAtLeast(xs[1..], k - 1, f); }
  }

  lemma {:induction false} SumZero<T>(xs: seq<T>, f: T -> nat)
    requires forall i :: 0 <= i < |xs| ==> f(xs[i]) == 0
    ensures Sum(xs, f) == 0
  {
    if xs != [] { SumZero(xs[1..], f); }
  }

  lemma {:induction false} SumFull<T>(xs: seq<T>, f: T -> nat)
    requires forall i :: 0 <= i < |xs| ==> f(xs[i]) <= 1
    ensures Sum(xs, f) <= |xs|
    ensures Sum(xs, f) == |xs| ==> forall i :: 0 <= i < |xs| ==> f(xs[i]) == 1
  {
    if xs != [] {
      SumFull(xs[1..], f);
      assert forall i :: 1 <= i < |xs| ==> xs[i] == xs[1..][i - 1];
    }
  }
}
