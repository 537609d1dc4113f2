/** The statements of server/src/jobs.c on values, one after the other, and that they add up to the protocol's
    events. */
module JobSteps {
  import opened Wrappers
  import opened RegistrySpec
  import opened JobProtocol
  import JobTheorems

  /** The value reported for the k-th piece on a job's worker list is merged. */
  function Merged(s: State, jid: int, k: nat, value: int): (r: State)
    requires jid in s.jobs && k < |s.jobs[jid].workers|
    ensures r == s.(jobs := r.jobs)
  {
    var job := s.jobs[jid];
    s.(jobs := s.jobs[jid :=
      job.(result := Max(job.result, value), merged := job.merged + [Merge(job.workers[k].index, value)])])
  }

  /** freeClient: the client is taken off the job's worker list, if it is on it, and is no longer busy. */
  function Release(s: State, client: nat, jid: int): (r: State)
    ensures r == s.(jobs := r.jobs, busy := r.busy)
  {
    if jid < 0 || jid !in s.jobs then s
    else match Find(s.jobs[jid].workers, client)
      case None => s
      case Some(k) =>
        var job := s.jobs[jid];
        s.(jobs := s.jobs[jid := job.(workers := RemoveAt(job.workers, k))], busy := s.busy - {client})
  }

  /** assign_pending_job: the client's place on the job's worker list gets another piece, which is sent to it. */
  function Give(s: State, client: nat, jid: int, index: int): (r: State)
    requires jid in s.jobs
    ensures r == s.(jobs := r.jobs, sent := r.sent)
  {
    match Find(s.jobs[jid].workers, client)
    case None => s
    case Some(k) =>
      var job := s.jobs[jid];
      s.(jobs := s.jobs[jid := job.(workers := job.workers[k := Worker(client, index)])],
         sent := s.sent + [Task(client, jid, index)])
  }

  /** The client gets the oldest parked piece of the job, or is released. */
  function NextStep(s: State, client: nat, jid: int): State
    requires jid in s.jobs
  {
    match Oldest(s.parked, jid)
    case Some(q) => Give(s.(parked := RemoveAt(s.parked, q)), client, jid, s.parked[q].index)
    case None => Release(s, client, jid)
  }

  /** MergeResult is: merge, look for a parked piece, then give it to the client or release the client. */
  lemma MergeInSteps(s: State, rec: Rec, jid: int, k: nat, value: int)
    requires Holding(s, rec) == Some((jid, k)) && jid >= 0
    ensures MergeResult(s, rec, jid, k, value) == NextStep(Merged(s, jid, k, value), rec.id, jid)
    ensures jid in Merged(s, jid, k, value).jobs
    ensures Find(Merged(s, jid, k, value).jobs[jid].workers, rec.id) == Some(k)
  {
    hide Oldest, RemoveAt;
  }

  // ---------------------------------------------------------------------------------------------
  // updateJobResult for any reporter
  // ---------------------------------------------------------------------------------------------

  /** The value is merged; for a reporter that holds no piece it counts for none. */
  function Counted(s: State, jid: int, held: Option<nat>, value: int): (r: State)
    requires jid in s.jobs && (held.Some? ==> held.value < |s.jobs[jid].workers|)
    ensures r == s.(jobs := r.jobs) && jid in r.jobs && r.jobs[jid].workers == s.jobs[jid].workers
  {
    match held
    case Some(k) => Merged(s, jid, k, value)
    case None => s.(jobs := s.jobs[jid := s.jobs[jid].(result := Max(s.jobs[jid].result, value))])
  }

  /** updateJobResult, whoever reports. */
  function AfterReport(s: State, cfd: int, value: int): State {
    match Newest(s.recs, cfd)
    case None => s
    case Some(rec) =>
      if rec.id !in s.jn || s.jn[rec.id] !in s.jobs then s
      else
        var jid := s.jn[rec.id];
        NextStep(Counted(s, jid, Find(s.jobs[jid].workers, rec.id), value), rec.id, jid)
  }

  /** For a client that holds a piece, or was never given work, that is the protocol's step. */
  lemma ReportInSteps(s: State, cfd: int, value: int)
    requires Inv(s) && Enabled(s, Result(cfd, value))
    ensures AfterReport(s, cfd, value) == Step(s, Result(cfd, value))
  {
    match Newest(s.recs, cfd)
    case None =>
    case Some(rec) =>
      if rec.id in s.jn {
        var (jid, k) := Holding(s, rec).value;
        assert jid >= 0;
        assert Find(s.jobs[jid].workers, rec.id) == Some(k);
        hide Inv, Find;
        MergeInSteps(s, rec, jid, k, value);
        hide MergeResult, NextStep, Merged, Newest;
      }
  }

  /** A report from a client that was given work but holds no piece any more keeps the protocol's invariant exactly if
      its value is no better than the result so far and, for a file that was divided, nothing of the job is parked;
      otherwise it raises the result for no piece, or a parked piece is lost. */
  lemma StaleReportIff(s: State, cfd: int, rec: Rec, value: int)
    requires Inv(s) && Newest(s.recs, cfd) == Some(rec) && rec.id in s.jn && Holding(s, rec) == None
    requires s.jn[rec.id] in s.jobs
    ensures var job := s.jobs[s.jn[rec.id]];
      Inv(AfterReport(s, cfd, value))
      <==> value <= job.result && (job.pieces > 0 ==> Oldest(s.parked, s.jn[rec.id]) == None)
  {
    var jid := s.jn[rec.id];
    var job := s.jobs[jid];
    var s' := AfterReport(s, cfd, value);
    assert Find(job.workers, rec.id) == None;
    assert s'.jobs == s.jobs[jid := job.(result := Max(job.result, value))];
    if value > job.result {
      assert s.jobs[jid].result == Best(job.initial, job.merged);
      assert !ResultInv(s');
      hide Inv;
    } else {
      assert s.jobs[jid := job] == s.jobs;
      match Oldest(s.parked, jid)
      case Some(q) =>
        if job.pieces > 0 { LostPiece(s, s', jid, q); } else { LostUndivided(s, s', jid, q); }
        hide Inv, Newest;
      case None => assert s' == s;
    }
  }

  /** A parked entry of a job that was never divided can go without harm to the invariant. */
  lemma LostUndivided(s: State, s': State, jid: int, q: nat)
    requires Inv(s) && q < |s.parked| && s.parked[q].jid == jid && jid in s.jobs && s.jobs[jid].pieces == 0
    requires s' == s.(parked := RemoveAt(s.parked, q))
    ensures Inv(s')
  {
    OthersStayPartitioned(s, s', jid, q);
    assert ParkedInv(s') by { hide PiecesInv, WorkersInv, BusyInv, ResultInv, SentInv; }
    hide PiecesInv, ParkedInv, LastSent, Best, Registered;
  }

  lemma OthersStayPartitioned(s: State, s': State, jid: int, q: nat)
    requires PiecesInv(s) && q < |s.parked| && s.parked[q].jid == jid && jid in s.jobs && s.jobs[jid].pieces == 0
    requires s' == s.(parked := RemoveAt(s.parked, q))
    ensures PiecesInv(s')
  {
    forall j | j in s.jobs
      ensures Partitioned(s.jobs[j], ParkedPieces(s'.parked, j))
    {
      JobTheorems.ParkedWithout(s.parked, q, j);
      hide ParkedPieces, WorkerPieces, MergedPieces, Indices;
    }
  }

  /** A state that differs in a parked piece that is gone is not partitioned. */
  lemma LostPiece(s: State, s': State, jid: int, q: nat)
    requires PiecesInv(s) && q < |s.parked| && s.parked[q].jid == jid && s'.parked == RemoveAt(s.parked, q)
    requires jid in s.jobs && jid in s'.jobs && s.jobs[jid].pieces > 0 && s'.jobs[jid].pieces == s.jobs[jid].pieces
    requires s'.jobs[jid].workers == s.jobs[jid].workers && s'.jobs[jid].merged == s.jobs[jid].merged
    ensures !PiecesInv(s')
  {
    var x := s.parked[q].index;
    var w, m := WorkerPieces(s.jobs[jid].workers), MergedPieces(s.jobs[jid].merged);
    var p, p' := ParkedPieces(s.parked, jid), ParkedPieces(s'.parked, jid);
    JobTheorems.ParkedWithout(s.parked, q, jid);
    hide WorkerPieces, MergedPieces, ParkedPieces, Indices, RemoveAt;
    assert Partitioned(s.jobs[jid], p);
    assert (w + p + m)[x] == w[x] + p[x] + m[x] && (w + p' + m)[x] == w[x] + p'[x] + m[x];
    assert p[x] == p'[x] + 1;
    assert !Partitioned(s'.jobs[jid], p');
  }

  // ---------------------------------------------------------------------------------------------
  // reassign_job
  // ---------------------------------------------------------------------------------------------

  /** A client is put on a job's worker list, marked busy and told the job. */
  function Enlisted(s: State, client: nat, jid: int, index: int): (r: State)
    requires jid in s.jobs
    ensures r == s.(jobs := r.jobs, busy := r.busy, jn := r.jn) && jid in r.jobs
  {
    var job := s.jobs[jid];
    s.(jobs := s.jobs[jid := job.(workers := job.workers + [Worker(client, index)])],
       busy := s.busy + {client}, jn := s.jn[client := jid])
  }

  function Sent(s: State, client: nat, jid: int, index: int): State {
    s.(sent := s.sent + [Task(client, jid, index)])
  }

  lemma {:induction false} FindFirst(ws: seq<Worker>, k: nat)
    requires k < |ws| && forall i :: 0 <= i < k ==> ws[i].client != ws[k].client
    ensures Find(ws, ws[k].client) == Some(k)
  {
    if k > 0 { FindFirst(ws[1..], k - 1); }
  }

  /** Handing a piece over is: enlist the free client, send it the piece, release the other. */
  lemma ReassignInSteps(s: State, rec: Rec, jid: int, k: nat, d: nat)
    requires Holding(s, rec) == Some((jid, k)) && jid >= 0
    requires FirstFree(Roster(s.recs, HomeGroup(rec)), s.busy) == Some(d)
    ensures var index := s.jobs[jid].workers[k].index;
      Reassign(s, rec, jid, k) == Release(Sent(Enlisted(s, d, jid, index), d, jid, index), rec.id, jid)
  {
    var ws := s.jobs[jid].workers;
    FindFirst(ws + [Worker(d, ws[k].index)], k);
    hide Roster, FirstFree, RemoveAt;
  }

  /** Parking is one step already. */
  lemma ParkIsReassign(s: State, rec: Rec, jid: int, k: nat)
    requires jid in s.jobs && k < |s.jobs[jid].workers| && FirstFree(Roster(s.recs, HomeGroup(rec)), s.busy) == None
    ensures var v := s.jobs[jid];
      Reassign(s, rec, jid, k) == s.(jobs := s.jobs[jid := v.(workers := RemoveAt(v.workers, k))],
                                     parked := [Parked(jid, v.workers[k].index)] + s.parked)
  {
    hide FirstFree, Roster, RemoveAt;
  }

  /** The client that hands its piece over stands before the one that was just enlisted, so `freeClient` never finds it
      last on the list there. */
  lemma HandOverFreesEarlier(s: State, rec: Rec, jid: int, k: nat, d: nat, index: int)
    requires Holding(s, rec) == Some((jid, k))
    ensures var ws := Enlisted(s, d, jid, index).jobs[jid].workers; Find(ws, rec.id) == Some(k) && k + 1 < |ws|
  {
    FindFirst(s.jobs[jid].workers + [Worker(d, index)], k);
  }

  // ---------------------------------------------------------------------------------------------
  // initJob
  // ---------------------------------------------------------------------------------------------

  /** The loop that reserves the members of a group which are not busy. */
  function ReserveAll(s: State, ids: seq<nat>, jid: int): State
    requires jid in s.jobs
    decreases |ids|
  {
    if ids == [] then s
    else if ids[0] in s.busy then ReserveAll(s, ids[1..], jid)
    else ReserveAll(Enlisted(s, ids[0], jid, 0), ids[1..], jid)
  }

  function Reserved(s: State, chosen: seq<nat>, jid: int): State
    requires jid in s.jobs
  {
    var job := s.jobs[jid];
    s.(jobs := s.jobs[jid := job.(workers := job.workers + Enlist(chosen, false))],
       busy := s.busy + (set c | c in chosen), jn := Told(s.jn, chosen, jid))
  }

  lemma ReservedNone(s: State, jid: int)
    requires jid in s.jobs
    ensures Reserved(s, [], jid) == s
  {
    var job := s.jobs[jid];
    assert job.workers + Enlist([], false) == job.workers;
    assert s.jobs[jid := job] == s.jobs && Told(s.jn, [], jid) == s.jn;
  }

  lemma SetTwice(m: map<int, Job>, jid: int, a: Job, b: Job)
    ensures m[jid := a][jid := b] == m[jid := b]
  {
  }

  lemma ToldOne(jn: map<nat, int>, c: nat, rest: seq<nat>, jid: int)
    ensures Told(jn[c := jid], rest, jid) == Told(jn, [c] + rest, jid)
  {
  }

  lemma BusyOne(busy: set<nat>, c: nat, rest: seq<nat>)
    ensures busy + {c} + (set d | d in rest) == busy + (set d | d in [c] + rest)
  {
  }

  lemma EnlistOne(ws: seq<Worker>, c: nat, rest: seq<nat>)
    ensures (ws + [Worker(c, 0)]) + Enlist(rest, false) == ws + Enlist([c] + rest, false)
  {
    assert Enlist([c] + rest, false) == [Worker(c, 0)] + Enlist(rest, false);
  }

  lemma ReservedOne(s: State, c: nat, rest: seq<nat>, jid: int)
    requires jid in s.jobs
    ensures Reserved(Enlisted(s, c, jid, 0), rest, jid) == Reserved(s, [c] + rest, jid)
  {
    hide Enlist, Told;
    var s1 := Enlisted(s, c, jid, 0);
    EnlistOne(s.jobs[jid].workers, c, rest);
    BusyOne(s.busy, c, rest);
    ToldOne(s.jn, c, rest, jid);
    SetTwice(s.jobs, jid, s1.jobs[jid], s1.jobs[jid].(workers := s1.jobs[jid].workers + Enlist(rest, false)));
  }

  lemma {:induction false} ReserveAllIsReserve(s: State, ids: seq<nat>, jid: int)
    requires jid in s.jobs
    ensures ReserveAll(s, ids, jid) == Reserved(s, Reserve(ids, s.busy), jid)
    decreases |ids|
  {
    hide Reserved;
    if ids == [] {
      ReservedNone(s, jid);
    } else if ids[0] in s.busy {
      ReserveAllIsReserve(s, ids[1..], jid);
    } else {
      ReserveAllIsReserve(Enlisted(s, ids[0], jid, 0), ids[1..], jid);
      ReservedOne(s, ids[0], Reserve(ids[1..], s.busy + {ids[0]}), jid);
    }
  }

  /** The loop of assignJob, from the i-th worker on. */
  function AssignFrom(s: State, jid: int, i: nat): State
    requires jid in s.jobs && i <= |s.jobs[jid].workers|
    decreases |s.jobs[jid].workers| - i
  {
    var ws := s.jobs[jid].workers;
    if i == |ws| then s
    else AssignFrom(Assigned(s, jid, i), jid, i + 1)
  }

  function Assigned(s: State, jid: int, i: nat): (r: State)
    requires jid in s.jobs && i < |s.jobs[jid].workers|
    ensures r == s.(jobs := r.jobs, sent := r.sent) && jid in r.jobs
    ensures |r.jobs[jid].workers| == |s.jobs[jid].workers|
  {
    var job := s.jobs[jid];
    var c := job.workers[i].client;
    s.(jobs := s.jobs[jid := job.(workers := job.workers[i := Worker(c, i)])], sent := s.sent + [Task(c, jid, i)])
  }

  lemma {:induction false} AssignFromEnlists(s: State, jid: int, i: nat, ids: seq<nat>, s0: State)
    requires jid in s.jobs && i <= |ids| && jid in s0.jobs
    requires var job := s0.jobs[jid]; var ws := Enlist(ids, true)[..i] + Enlist(ids, false)[i..];
      s == s0.(jobs := s0.jobs[jid := job.(workers := ws)], sent := s0.sent + Tasks(ids, jid)[..i])
    ensures AssignFrom(s, jid, i) == s0.(
      jobs := s0.jobs[jid := s0.jobs[jid].(workers := Enlist(ids, true))], sent := s0.sent + Tasks(ids, jid))
    decreases |ids| - i
  {
    var ws := s.jobs[jid].workers;
    if i == |ids| {
      assert ws == Enlist(ids, true) && Tasks(ids, jid)[..i] == Tasks(ids, jid);
    } else {
      assert ws[i := Worker(ids[i], i)] == Enlist(ids, true)[..i + 1] + Enlist(ids, false)[i + 1..];
      assert (s0.sent + Tasks(ids, jid)[..i]) + [Task(ids[i], jid, i)] == s0.sent + Tasks(ids, jid)[..i + 1];
      AssignFromEnlists(Assigned(s, jid, i), jid, i + 1, ids, s0);
    }
  }

  lemma AssignMore(s: State, jid: int, i: nat)
    requires jid in s.jobs && i < |s.jobs[jid].workers|
    ensures AssignFrom(s, jid, i) == AssignFrom(Assigned(s, jid, i), jid, i + 1)
  {
    hide Assigned;
  }

  lemma AssignEnd(s: State, jid: int, i: nat)
    requires jid in s.jobs && i == |s.jobs[jid].workers|
    ensures AssignFrom(s, jid, i) == s
  {
  }

  lemma ReserveMore(s: State, ids: seq<nat>, jid: int)
    requires jid in s.jobs && ids != []
    ensures ReserveAll(s, ids, jid)
         == ReserveAll(if ids[0] in s.busy then s else Enlisted(s, ids[0], jid, 0), ids[1..], jid)
  {
    hide Enlisted;
  }

  lemma ReserveEnd(s: State, jid: int)
    requires jid in s.jobs
    ensures ReserveAll(s, [], jid) == s
  {
  }

  /** The job as addJob enters it. */
  function Entered(s: State, jid: int, initial: int): State {
    s.(jobs := s.jobs[jid := Job(initial, initial, [], 0, [])])
  }

  /** All pieces of the job have been handed out. */
  function HandedOut(s: State, jid: int): State
    requires jid in s.jobs
  {
    s.(jobs := s.jobs[jid := s.jobs[jid].(pieces := |s.jobs[jid].workers|)])
  }

  /** Starting a job is: enter it, reserve the free members of the group, and, if there are any and the file could be
      divided, hand out the pieces. */
  lemma StartInSteps(s: State, gid: nat, jid: int, initial: int, divided: bool)
    requires gid > 0 && jid >= 0 && jid !in s.jobs
    ensures var s1 := ReserveAll(Entered(s, jid, initial), Roster(s.recs, gid), jid);
      && jid in s1.jobs
      && (var s2 := AssignFrom(s1, jid, 0);
          && jid in s2.jobs
          && StartJob(s, gid, jid, initial, divided)
               == if divided && s1.jobs[jid].workers != [] then HandedOut(s2, jid) else s1)
  {
    hide Roster, Reserve, ReserveAll, AssignFrom, Enlist, Tasks, Told;
    var s0 := Entered(s, jid, initial);
    var ids := Roster(s.recs, gid);
    var chosen := Reserve(ids, s.busy);
    ReserveAllIsReserve(s0, ids, jid);
    var s1 := ReserveAll(s0, ids, jid);
    var entered := Job(initial, initial, [], 0, []);
    var reserved := entered.(workers := Enlist(chosen, false));
    var filled := entered.(workers := Enlist(chosen, true));
    EnlistLength(chosen);
    assert [] + Enlist(chosen, false) == Enlist(chosen, false);
    SetTwice(s.jobs, jid, entered, reserved);
    AssignsAll(s1, jid, chosen);
    SetTwice(s.jobs, jid, reserved, filled);
    SetTwice(s.jobs, jid, filled, filled.(pieces := |chosen|));
  }

  lemma EnlistLength(ids: seq<nat>)
    ensures |Enlist(ids, true)| == |Enlist(ids, false)| == |ids|
  {
  }

  lemma AssignsAll(s: State, jid: int, ids: seq<nat>)
    requires jid in s.jobs && s.jobs[jid].workers == Enlist(ids, false)
    ensures AssignFrom(s, jid, 0) == s.(
      jobs := s.jobs[jid := s.jobs[jid].(workers := Enlist(ids, true))], sent := s.sent + Tasks(ids, jid))
  {
    assert Enlist(ids, true)[..0] + Enlist(ids, false)[0..] == Enlist(ids, false);
    assert s.jobs == s.jobs[jid := s.jobs[jid]] && s.sent == s.sent + Tasks(ids, jid)[..0];
    AssignFromEnlists(s, jid, 0, ids, s);
  }
}
