/** The job distribution of server/src/jobs.c, on values: pieces of jobs move between workers, the pending queue and
    "merged", under results, errors, disconnects and new jobs.  One server event is one atomic step. */
module JobProtocol {
  import opened Wrappers
  import opened RegistrySpec

  /** A node of a job's worker list: the client holding the piece, and the piece. */
  datatype Worker = Worker(client: nat, index: int)

  /** A node of the pending queue. */
  datatype Parked = Parked(jid: int, index: int)

  /** A piece sent to a client. */
  datatype Task = Task(client: nat, jid: int, index: int)

  /** A result that has been merged: the piece and the value its holder reported. */
  datatype Merge = Merge(index: int, value: int)

  /** `pieces` is the number of pieces handed out by assignJob, 0 before that. */
  datatype Job = Job(initial: int, result: int, workers: seq<Worker>, pieces: nat, merged: seq<Merge>)

  /** `parked` is in list order, newest first; `jn` is the job a client was last given, if any. */
  datatype State = State(recs: seq<Rec>, nextId: nat, jobs: map<int, Job>, parked: seq<Parked>,
                         busy: set<nat>, jn: map<nat, int>, sent: seq<Task>)

  predicate Init(s: State) {
    s.recs == [] && s.jobs == map[] && s.parked == [] && s.busy == {} && s.jn == map[] && s.sent == []
  }

  datatype Event =
    | Joins(cfd: int, gids: seq<nat>)
    | NewJob(gid: int, jid: int, initial: int, divided: bool)
    | Result(cfd: int, value: int)
    | Error(cfd: int)
    | Disconnect(cfd: int)

  // ---------------------------------------------------------------------------------------------
  // Events
  // ---------------------------------------------------------------------------------------------

  /** The members of a group that initJob reserves: each one that is not busy, once. */
  function Reserve(ids: seq<nat>, busy: set<nat>): seq<nat> {
    if ids == [] then []
    else if ids[0] in busy then Reserve(ids[1..], busy)
    else [ids[0]] + Reserve(ids[1..], busy + {ids[0]})
  }

  function FirstFree(ids: seq<nat>, busy: set<nat>): Option<nat> {
    if ids == [] then None
    else if ids[0] !in busy then Some(ids[0])
    else FirstFree(ids[1..], busy)
  }

  /** The place of a client on a worker list. */
  function Find(ws: seq<Worker>, client: nat): (r: Option<nat>)
    ensures r.Some? ==> r.value < |ws| && ws[r.value].client == client
    ensures r.Some? ==> forall i :: 0 <= i < r.value ==> ws[i].client != client
    ensures r.None? ==> forall i :: 0 <= i < |ws| ==> ws[i].client != client
  {
    if ws == [] then None
    else if ws[0].client == client then Some(0)
    else match Find(ws[1..], client)
      case None => None
      case Some(k) => Some(k + 1)
  }

  /** The oldest parked piece of a job: the queue is searched from its tail. */
  function Oldest(parked: seq<Parked>, jid: int): (r: Option<nat>)
    ensures r.Some? ==> r.value < |parked| && parked[r.value].jid == jid
    ensures r.None? ==> forall i :: 0 <= i < |parked| ==> parked[i].jid != jid
    ensures r.Some? ==> forall i :: r.value < i < |parked| ==> parked[i].jid != jid
  {
    if parked == [] then None
    else if parked[|parked| - 1].jid == jid then Some(|parked| - 1)
    else Oldest(parked[..|parked| - 1], jid)
  }

  function RemoveAt<T>(s: seq<T>, k: nat): seq<T>
    requires k < |s|
  {
    s[..k] + s[k + 1..]
  }

  /** The group in which a replacement is looked for: the client's cg, the last group of its request. */
  function HomeGroup(rec: Rec): nat {
    if rec.gids == [] then 0 else rec.gids[|rec.gids| - 1]
  }

  function Enlist(ids: seq<nat>, indexed: bool): seq<Worker> {
    seq(|ids|, i requires 0 <= i < |ids| => Worker(ids[i], if indexed then i else 0))
  }

  /** assignJob's messages, in list order. */
  function Tasks(ids: seq<nat>, jid: int): seq<Task> {
    seq(|ids|, i requires 0 <= i < |ids| => Task(ids[i], jid, i))
  }

  function Told(jn: map<nat, int>, ids: seq<nat>, jid: int): map<nat, int> {
    jn + (map c | c in ids :: jid)
  }

  /** initJob: the job is entered even when it gets no workers or its file cannot be divided. */
  function StartJob(s: State, gid: int, jid: int, initial: int, divided: bool): State {
    if gid <= 0 || jid < 0 then s
    else
      var chosen := Reserve(Roster(s.recs, gid), s.busy);
      var handed := divided && chosen != [];
      s.(jobs := s.jobs[jid := Job(initial, initial, Enlist(chosen, handed), if handed then |chosen| else 0, [])],
         busy := s.busy + (set c | c in chosen), jn := Told(s.jn, chosen, jid),
         sent := if handed then s.sent + Tasks(chosen, jid) else s.sent)
  }

  /** The piece an event of this descriptor is about: its job and the place on that job's worker list. */
  function Holding(s: State, rec: Rec): (r: Option<(int, nat)>)
    ensures r.Some? ==> var (jid, k) := r.value;
      && rec.id in s.jn && s.jn[rec.id] == jid && jid in s.jobs
      && k < |s.jobs[jid].workers| && s.jobs[jid].workers[k].client == rec.id
  {
    if rec.id in s.jn && s.jn[rec.id] in s.jobs then
      match Find(s.jobs[s.jn[rec.id]].workers, rec.id)
      case None => None
      case Some(k) => Some((s.jn[rec.id], k))
    else None
  }

  function Max(x: int, y: int): int { if x < y then y else x }

  /** updateJobResult for a client that holds the k-th piece of job jid. */
  function MergeResult(s: State, rec: Rec, jid: int, k: nat, value: int): State
    requires jid in s.jobs && k < |s.jobs[jid].workers|
  {
    var job := s.jobs[jid];
    var merged := job.(result := Max(job.result, value), merged := job.merged + [Merge(job.workers[k].index, value)]);
    match Oldest(s.parked, jid)
    case Some(q) =>
      s.(jobs := s.jobs[jid := merged.(workers := job.workers[k := Worker(rec.id, s.parked[q].index)])],
         parked := RemoveAt(s.parked, q), sent := s.sent + [Task(rec.id, jid, s.parked[q].index)])
    case None =>
      s.(jobs := s.jobs[jid := merged.(workers := RemoveAt(job.workers, k))], busy := s.busy - {rec.id})
  }

  function MergeIfHolding(s: State, rec: Rec, value: int): State {
    match Holding(s, rec)
    case None => s
    case Some((jid, k)) => MergeResult(s, rec, jid, k, value)
  }

  /** reassign_job for a client that holds the k-th piece of job jid. */
  function Reassign(s: State, rec: Rec, jid: int, k: nat): State
    requires jid in s.jobs && k < |s.jobs[jid].workers|
  {
    var job := s.jobs[jid];
    var index := job.workers[k].index;
    match FirstFree(Roster(s.recs, HomeGroup(rec)), s.busy)
    case Some(d) =>
      s.(jobs := s.jobs[jid := job.(workers := RemoveAt(job.workers + [Worker(d, index)], k))],
         busy := s.busy + {d} - {rec.id}, jn := s.jn[d := jid], sent := s.sent + [Task(d, jid, index)])
    case None =>
      s.(jobs := s.jobs[jid := job.(workers := RemoveAt(job.workers, k))], parked := [Parked(jid, index)] + s.parked)
  }

  /** A piece can be parked only while a later worker is on its job's list. */
  predicate CanReassign(s: State, rec: Rec, jid: int, k: nat)
    requires jid in s.jobs
  {
    FirstFree(Roster(s.recs, HomeGroup(rec)), s.busy).Some? || k + 1 < |s.jobs[jid].workers|
  }

  function ReassignIfHolding(s: State, rec: Rec): State {
    match Holding(s, rec)
    case None => s
    case Some((jid, k)) => Reassign(s, rec, jid, k)
  }

  function AfterReassign(s: State, cfd: int): State {
    match Newest(s.recs, cfd)
    case None => s
    case Some(rec) => ReassignIfHolding(s, rec)
  }

  function Unregister(s: State, rec: Rec): (r: State)
    ensures r == s.(recs := r.recs, busy := r.busy, jn := r.jn)
  {
    s.(recs := Leave(s.recs, rec.id), busy := s.busy - {rec.id}, jn := s.jn - {rec.id})
  }

  /** A client that was given work reports a result only while it holds a piece. */
  predicate Enabled(s: State, e: Event) {
    match e
    case Joins(_, _) => true
    case NewJob(gid, jid, _, _) => gid <= MAX_MULTICAST_GROUPS && jid !in s.jobs
    case Result(cfd, _) =>
      (match Newest(s.recs, cfd) case None => true case Some(rec) => rec.id in s.jn ==> Holding(s, rec).Some?)
    case Error(cfd) => MayReassign(s, cfd)
    case Disconnect(cfd) => MayReassign(s, cfd)
  }

  predicate MayReassign(s: State, cfd: int) {
    match Newest(s.recs, cfd)
    case None => true
    case Some(rec) =>
      match Holding(s, rec)
      case None => true
      case Some((jid, k)) => CanReassign(s, rec, jid, k)
  }

  function Step(s: State, e: Event): State
    requires Enabled(s, e)
  {
    match e
    case Joins(cfd, gids) =>
      if |gids| <= MAX_MULTICAST_GROUPS && Fits(s.recs, gids)
      then s.(recs := [Rec(s.nextId, cfd, gids)] + s.recs, nextId := s.nextId + 1)
      else s
    case NewJob(gid, jid, initial, divided) => StartJob(s, gid, jid, initial, divided)
    case Result(cfd, value) =>
      (match Newest(s.recs, cfd) case None => s case Some(rec) => MergeIfHolding(s, rec, value))
    case Error(cfd) => AfterReassign(s, cfd)
    case Disconnect(cfd) =>
      (match Newest(s.recs, cfd)
       case None => s
       case Some(rec) => Unregister(ReassignIfHolding(s, rec), rec))
  }

  function Run(s: State, events: seq<Event>): (r: Option<State>)
    decreases |events|
  {
    if events == [] then Some(s)
    else if Enabled(s, events[0]) then Run(Step(s, events[0]), events[1..])
    else None
  }

  ghost predicate Reachable(s: State) {
    exists s0, events :: Init(s0) && Run(s0, events) == Some(s)
  }

  // ---------------------------------------------------------------------------------------------
  // What every event keeps
  // ---------------------------------------------------------------------------------------------

  function WorkerPieces(ws: seq<Worker>): multiset<int> {
    if ws == [] then multiset{} else WorkerPieces(ws[..|ws| - 1]) + multiset{ws[|ws| - 1].index}
  }

  function ParkedPieces(parked: seq<Parked>, jid: int): multiset<int> {
    if parked == [] then multiset{}
    else (if parked[0].jid == jid then multiset{parked[0].index} else multiset{}) + ParkedPieces(parked[1..], jid)
  }

  function MergedPieces(merged: seq<Merge>): multiset<int> {
    if merged == [] then multiset{} else MergedPieces(merged[..|merged| - 1]) + multiset{merged[|merged| - 1].index}
  }

  function Indices(n: nat): multiset<int> {
    if n == 0 then multiset{} else Indices(n - 1) + multiset{n - 1}
  }

  function Best(initial: int, merged: seq<Merge>): int {
    if merged == [] then initial
    else Max(Best(initial, merged[..|merged| - 1]), merged[|merged| - 1].value)
  }

  predicate Registered(recs: seq<Rec>, id: nat) { exists i :: 0 <= i < |recs| && recs[i].id == id }

  predicate DistinctIds(recs: seq<Rec>) { forall i, j :: 0 <= i < j < |recs| ==> recs[i].id != recs[j].id }

  predicate RecsInv(s: State) {
    && DistinctIds(s.recs)
    && (forall i :: 0 <= i < |s.recs| ==> s.recs[i].id < s.nextId)
  }

  /** A worker is a registered busy client of that job, and is on the list once. */
  ghost predicate WorkersInv(s: State) {
    forall j :: j in s.jobs ==>
      var ws := s.jobs[j].workers;
      && (forall i :: 0 <= i < |ws| ==> ws[i].client in s.busy && ws[i].client in s.jn && s.jn[ws[i].client] == j)
      && (forall i, k :: 0 <= i < k < |ws| ==> ws[i].client != ws[k].client)
  }

  predicate BusyInv(s: State) {
    && (forall c :: c in s.busy ==> Registered(s.recs, c))
    && (forall c :: c in s.jn ==> Registered(s.recs, c) && s.jn[c] in s.jobs)
  }

  /** A piece is parked only while its job still has a worker. */
  predicate ParkedInv(s: State) {
    forall i :: 0 <= i < |s.parked| ==> s.parked[i].jid in s.jobs && s.jobs[s.parked[i].jid].workers != []
  }

  /** The pieces of a job that was handed out are with a worker, parked or merged, each in exactly one place. */
  predicate Partitioned(job: Job, parked: multiset<int>) {
    job.pieces > 0 ==> WorkerPieces(job.workers) + parked + MergedPieces(job.merged) == Indices(job.pieces)
  }

  ghost predicate PiecesInv(s: State) {
    forall j :: j in s.jobs ==> Partitioned(s.jobs[j], ParkedPieces(s.parked, j))
  }

  /** The last piece a client was sent. */
  function LastSent(sent: seq<Task>, client: nat): Option<Task> {
    if sent == [] then None
    else if sent[|sent| - 1].client == client then Some(sent[|sent| - 1])
    else LastSent(sent[..|sent| - 1], client)
  }

  /** What a client holds is the last piece it was sent. */
  ghost predicate SentInv(s: State) {
    forall j, i :: j in s.jobs && s.jobs[j].pieces > 0 && 0 <= i < |s.jobs[j].workers| ==>
      var w := s.jobs[j].workers[i]; LastSent(s.sent, w.client) == Some(Task(w.client, j, w.index))
  }

  /** The result is the best of the initial value and the merged ones. */
  predicate ResultInv(s: State) {
    forall j :: j in s.jobs ==> j >= 0 && s.jobs[j].result == Best(s.jobs[j].initial, s.jobs[j].merged)
  }

  ghost predicate Inv(s: State) {
    RecsInv(s) && WorkersInv(s) && BusyInv(s) && ParkedInv(s) && PiecesInv(s) && ResultInv(s) && SentInv(s)
  }
}
