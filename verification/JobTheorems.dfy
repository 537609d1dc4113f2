/** What the job distribution of server/src/jobs.c keeps under every server event, and what follows for every run. */
module JobTheorems {
  import opened Wrappers
  import opened RegistrySpec
  import opened JobProtocol

  // ---------------------------------------------------------------------------------------------
  // Pieces
  // ---------------------------------------------------------------------------------------------

  lemma PiecesMore(ws: seq<Worker>, w: Worker)
    ensures WorkerPieces(ws + [w]) == WorkerPieces(ws) + multiset{w.index}
  {
    assert (ws + [w])[..|ws|] == ws;
  }

  lemma Swapped(a: multiset<int>, x: int, y: int)
    ensures (a + multiset{x}) + multiset{y} == (a + multiset{y}) + multiset{x}
  {
  }

  lemma {:induction false} PiecesWithout(ws: seq<Worker>, k: nat)
    requires k < |ws|
    ensures WorkerPieces(ws) == WorkerPieces(RemoveAt(ws, k)) + multiset{ws[k].index}
  {
    hide WorkerPieces;
    var front, last := ws[..|ws| - 1], ws[|ws| - 1];
    assert ws == front + [last];
    PiecesMore(front, last);
    if k < |front| {
      PiecesWithout(front, k);
      assert RemoveAt(ws, k) == RemoveAt(front, k) + [last];
      PiecesMore(RemoveAt(front, k), last);
      Swapped(WorkerPieces(RemoveAt(front, k)), front[k].index, last.index);
    } else {
      assert RemoveAt(ws, k) == front;
    }
  }

  lemma PiecesReplaced(ws: seq<Worker>, k: nat, w: Worker)
    requires k < |ws|
    ensures WorkerPieces(ws[k := w]) == WorkerPieces(RemoveAt(ws, k)) + multiset{w.index}
  {
    PiecesWithout(ws[k := w], k);
    assert RemoveAt(ws[k := w], k) == RemoveAt(ws, k);
  }

  lemma Cancel(a: multiset<int>, b: multiset<int>, x: int)
    requires a + multiset{x} == b + multiset{x}
    ensures a == b
  {
    forall y ensures a[y] == b[y] { assert (a + multiset{x})[y] == (b + multiset{x})[y]; }
  }

  lemma MovedToMerged(w: multiset<int>, p: multiset<int>, m: multiset<int>, x: int)
    ensures w + p + (m + multiset{x}) == (w + multiset{x}) + p + m
  {
  }

  lemma MovedFromParked(w: multiset<int>, p: multiset<int>, m: multiset<int>, x: int, y: int)
    ensures (w + multiset{y}) + p + (m + multiset{x}) == (w + multiset{x}) + (p + multiset{y}) + m
  {
  }

  lemma MovedToParked(w: multiset<int>, p: multiset<int>, m: multiset<int>, x: int)
    ensures w + (multiset{x} + p) + m == (w + multiset{x}) + p + m
  {
  }

  lemma PiecesMoved(ws: seq<Worker>, k: nat, d: nat)
    requires k < |ws|
    ensures WorkerPieces(RemoveAt(ws + [Worker(d, ws[k].index)], k)) == WorkerPieces(ws)
  {
    var more := ws + [Worker(d, ws[k].index)];
    assert WorkerPieces(more) == WorkerPieces(ws) + multiset{ws[k].index} by { assert more[..|ws|] == ws; }
    hide WorkerPieces, RemoveAt;
    PiecesWithout(more, k);
    Cancel(WorkerPieces(RemoveAt(more, k)), WorkerPieces(ws), ws[k].index);
  }

  lemma {:induction false} ParkedWithout(parked: seq<Parked>, q: nat, jid: int)
    requires q < |parked|
    ensures ParkedPieces(parked, jid)
         == ParkedPieces(RemoveAt(parked, q), jid)
          + if parked[q].jid == jid then multiset{parked[q].index} else multiset{}
  {
    if q > 0 {
      ParkedWithout(parked[1..], q - 1, jid);
      assert RemoveAt(parked, q)[1..] == RemoveAt(parked[1..], q - 1);
    } else {
      assert RemoveAt(parked, q) == parked[1..];
    }
  }

  lemma {:induction false} NoneParked(parked: seq<Parked>, jid: int)
    requires forall i :: 0 <= i < |parked| ==> parked[i].jid != jid
    ensures ParkedPieces(parked, jid) == multiset{}
  {
    if parked != [] { NoneParked(parked[1..], jid); }
  }

  lemma {:induction false} PiecesHandedOut(ids: seq<nat>)
    ensures WorkerPieces(Enlist(ids, true)) == Indices(|ids|)
  {
    if ids != [] {
      var last := |ids| - 1;
      PiecesHandedOut(ids[..last]);
      assert Enlist(ids, true)[..last] == Enlist(ids[..last], true);
    }
  }

  lemma {:induction false} IndexOnce(n: nat, i: int)
    ensures Indices(n)[i] == if 0 <= i < n then 1 else 0
  {
    if n > 0 { IndexOnce(n - 1, i); }
  }

  // ---------------------------------------------------------------------------------------------
  // Members
  // ---------------------------------------------------------------------------------------------

  /** Everyone on a group list is registered. */
  lemma {:induction false} RosterRegistered(recs: seq<Rec>, gid: nat, id: nat)
    requires id in Roster(recs, gid)
    ensures Registered(recs, id)
  {
    if recs[0].id != id {
      assert id in Roster(recs[1..], gid);
      RosterRegistered(recs[1..], gid, id);
      var i :| 0 <= i < |recs[1..]| && recs[1..][i].id == id;
      assert recs[i + 1].id == id;
    }
  }

  lemma {:induction false} ReserveFree(ids: seq<nat>, busy: set<nat>)
    ensures forall i :: 0 <= i < |Reserve(ids, busy)| ==> Reserve(ids, busy)[i] in ids && Reserve(ids, busy)[i] !in busy
    ensures forall i, j :: 0 <= i < j < |Reserve(ids, busy)| ==> Reserve(ids, busy)[i] != Reserve(ids, busy)[j]
    ensures forall id :: id in ids && id !in busy ==> id in Reserve(ids, busy)
  {
    if ids != [] {
      ReserveFree(ids[1..], busy);
      ReserveFree(ids[1..], busy + {ids[0]});
    }
  }

  lemma {:induction false} FirstFreeIsFree(ids: seq<nat>, busy: set<nat>)
    ensures match FirstFree(ids, busy)
            case Some(d) => d in ids && d !in busy
            case None => forall id :: id in ids ==> id in busy
  {
    if ids != [] { FirstFreeIsFree(ids[1..], busy); }
  }

  lemma {:induction false} NewestRegistered(recs: seq<Rec>, cfd: int)
    ensures Newest(recs, cfd).Some? ==> Newest(recs, cfd).value in recs && Registered(recs, Newest(recs, cfd).value.id)
  {
    if recs != [] && recs[0].cfd != cfd {
      NewestRegistered(recs[1..], cfd);
      if Newest(recs, cfd).Some? {
        var i :| 0 <= i < |recs[1..]| && recs[1..][i] == Newest(recs, cfd).value;
        assert recs[i + 1].id == Newest(recs, cfd).value.id;
      }
    }
  }

  lemma {:induction false} LeaveKeepsNumbers(recs: seq<Rec>, id: nat)
    requires DistinctIds(recs)
    ensures DistinctIds(Leave(recs, id))
  {
    if recs != [] {
      var left := Leave(recs[1..], id);
      LeaveKeepsNumbers(recs[1..], id);
      LeaveMembers(recs[1..], id);
      forall i | 0 <= i < |left|
        ensures left[i].id != recs[0].id
      {
        assert left[i] in left;
        var k :| 0 <= k < |recs[1..]| && recs[1..][k] == left[i];
        assert recs[k + 1].id != recs[0].id;
      }
      assert DistinctIds([recs[0]] + left);
    }
  }

  lemma LeaveKeepsOthers(recs: seq<Rec>, id: nat, other: nat)
    requires Registered(recs, other) && other != id
    ensures Registered(Leave(recs, id), other)
  {
    LeaveMembers(recs, id);
    var i :| 0 <= i < |recs| && recs[i].id == other;
    assert recs[i] in Leave(recs, id);
  }

  // ---------------------------------------------------------------------------------------------
  // Every event keeps the invariant
  // ---------------------------------------------------------------------------------------------

  lemma ConsRegistered(rec: Rec, recs: seq<Rec>, id: nat)
    requires Registered(recs, id)
    ensures Registered([rec] + recs, id)
  {
    var i :| 0 <= i < |recs| && recs[i].id == id;
    assert ([rec] + recs)[i + 1].id == id;
  }

  lemma JoinKeeps(s: State, rec: Rec)
    requires Inv(s) && rec.id == s.nextId
    ensures Inv(s.(recs := [rec] + s.recs, nextId := s.nextId + 1))
  {
    var recs := [rec] + s.recs;
    forall id | Registered(s.recs, id)
      ensures Registered(recs, id)
    {
      ConsRegistered(rec, s.recs, id);
    }
  }

  lemma StartKeepsWorkers(s: State, gid: int, jid: int, initial: int, divided: bool)
    requires RecsInv(s) && WorkersInv(s) && BusyInv(s) && gid > 0 && jid >= 0 && jid !in s.jobs
    ensures var s' := StartJob(s, gid, jid, initial, divided); WorkersInv(s') && BusyInv(s')
  {
    var ids := Roster(s.recs, gid);
    var chosen := Reserve(ids, s.busy);
    ReserveFree(ids, s.busy);
    forall c | c in chosen
      ensures Registered(s.recs, c) && c !in s.busy
    {
      var i :| 0 <= i < |chosen| && chosen[i] == c;
      RosterRegistered(s.recs, gid, c);
    }
    hide Roster, Reserve, Registered;
  }

  lemma StartKeepsParked(s: State, gid: int, jid: int, initial: int, divided: bool)
    requires ParkedInv(s) && ResultInv(s) && gid > 0 && jid >= 0 && jid !in s.jobs
    ensures var s' := StartJob(s, gid, jid, initial, divided); ParkedInv(s') && ResultInv(s')
  {
    hide Roster, Reserve, Enlist;
  }

  lemma StartKeepsPieces(s: State, gid: int, jid: int, initial: int, divided: bool)
    requires ParkedInv(s) && PiecesInv(s) && gid > 0 && jid >= 0 && jid !in s.jobs
    ensures PiecesInv(StartJob(s, gid, jid, initial, divided))
  {
    var chosen := Reserve(Roster(s.recs, gid), s.busy);
    NoneParked(s.parked, jid);
    PiecesHandedOut(chosen);
    assert MergedPieces([]) == multiset{};
    hide Roster, Reserve, WorkerPieces, MergedPieces, ParkedPieces, Enlist, Indices;
  }

  lemma SentMore(sent: seq<Task>, task: Task, client: nat)
    ensures LastSent(sent + [task], client) == if task.client == client then Some(task) else LastSent(sent, client)
  {
    assert (sent + [task])[..|sent|] == sent;
  }

  lemma {:induction false} SentAll(sent: seq<Task>, ids: seq<nat>, jid: int, client: nat)
    requires forall i, j :: 0 <= i < j < |ids| ==> ids[i] != ids[j]
    ensures client !in ids ==> LastSent(sent + Tasks(ids, jid), client) == LastSent(sent, client)
    ensures forall k :: 0 <= k < |ids| && ids[k] == client ==>
      LastSent(sent + Tasks(ids, jid), client) == Some(Task(client, jid, k))
  {
    if ids == [] {
      assert sent + Tasks(ids, jid) == sent;
    } else {
      var last := |ids| - 1;
      SentAll(sent, ids[..last], jid, client);
      SentMore(sent + Tasks(ids[..last], jid), Task(ids[last], jid, last), client);
      assert sent + Tasks(ids, jid) == (sent + Tasks(ids[..last], jid)) + [Task(ids[last], jid, last)];
    }
  }

  lemma StartKeepsSent(s: State, gid: int, jid: int, initial: int, divided: bool)
    requires SentInv(s) && WorkersInv(s) && gid > 0 && jid >= 0 && jid !in s.jobs
    ensures SentInv(StartJob(s, gid, jid, initial, divided))
  {
    var chosen := Reserve(Roster(s.recs, gid), s.busy);
    ReserveFree(Roster(s.recs, gid), s.busy);
    forall c: nat
      ensures c in s.busy ==> LastSent(s.sent + Tasks(chosen, jid), c) == LastSent(s.sent, c)
      ensures forall k :: 0 <= k < |chosen| && chosen[k] == c ==>
        LastSent(s.sent + Tasks(chosen, jid), c) == Some(Task(c, jid, k))
    {
      SentAll(s.sent, chosen, jid, c);
    }
    hide Roster, Reserve, LastSent, Tasks;
  }

  lemma StartKeeps(s: State, gid: int, jid: int, initial: int, divided: bool)
    requires Inv(s) && jid !in s.jobs
    ensures Inv(StartJob(s, gid, jid, initial, divided))
  {
    hide WorkersInv, BusyInv, ParkedInv, PiecesInv, ResultInv, SentInv;
    if gid > 0 && jid >= 0 {
      StartKeepsWorkers(s, gid, jid, initial, divided);
      StartKeepsParked(s, gid, jid, initial, divided);
      StartKeepsPieces(s, gid, jid, initial, divided);
      StartKeepsSent(s, gid, jid, initial, divided);
    }
  }

  lemma MergeKeepsWorkers(s: State, rec: Rec, jid: int, k: nat, value: int)
    requires WorkersInv(s) && BusyInv(s) && Holding(s, rec) == Some((jid, k))
    ensures var s' := MergeResult(s, rec, jid, k, value); WorkersInv(s') && BusyInv(s')
  {
    hide Registered, Oldest, Holding;
  }

  lemma MergeKeepsParked(s: State, rec: Rec, jid: int, k: nat, value: int)
    requires ParkedInv(s) && ResultInv(s) && Holding(s, rec) == Some((jid, k))
    ensures var s' := MergeResult(s, rec, jid, k, value); ParkedInv(s') && ResultInv(s')
  {
    var job := s.jobs[jid];
    var m := Merge(job.workers[k].index, value);
    assert (job.merged + [m])[..|job.merged|] == job.merged;
    hide Oldest, Holding;
  }

  lemma MergeUnparks(job: Job, job': Job, k: nat, w: Worker, m: Merge, parked: multiset<int>)
    requires k < |job.workers| && Partitioned(job, parked + multiset{w.index}) && m.index == job.workers[k].index
    requires job'.pieces == job.pieces && job'.workers == job.workers[k := w] && job'.merged == job.merged + [m]
    ensures Partitioned(job', parked)
  {
    PiecesWithout(job.workers, k);
    PiecesReplaced(job.workers, k, w);
    assert (job.merged + [m])[..|job.merged|] == job.merged;
    MovedFromParked(WorkerPieces(RemoveAt(job.workers, k)), parked, MergedPieces(job.merged), m.index, w.index);
  }

  lemma MergeReleases(job: Job, job': Job, k: nat, m: Merge, parked: multiset<int>)
    requires k < |job.workers| && Partitioned(job, parked) && m.index == job.workers[k].index
    requires job'.pieces == job.pieces && job'.workers == RemoveAt(job.workers, k) && job'.merged == job.merged + [m]
    ensures Partitioned(job', parked)
  {
    PiecesWithout(job.workers, k);
    assert (job.merged + [m])[..|job.merged|] == job.merged;
    MovedToMerged(WorkerPieces(RemoveAt(job.workers, k)), parked, MergedPieces(job.merged), m.index);
  }

  lemma MergeKeepsPieces(s: State, rec: Rec, jid: int, k: nat, value: int)
    requires PiecesInv(s) && Holding(s, rec) == Some((jid, k))
    ensures PiecesInv(MergeResult(s, rec, jid, k, value))
  {
    hide Partitioned, ParkedPieces, Oldest, RemoveAt, Holding;
    var job := s.jobs[jid];
    var s' := MergeResult(s, rec, jid, k, value);
    var m := Merge(job.workers[k].index, value);
    match Oldest(s.parked, jid)
    case Some(q) =>
      var y := s.parked[q].index;
      forall j
        ensures if j == jid then ParkedPieces(s.parked, j) == ParkedPieces(s'.parked, j) + multiset{y}
                else ParkedPieces(s.parked, j) == ParkedPieces(s'.parked, j)
      {
        ParkedWithout(s.parked, q, j);
      }
      MergeUnparks(job, s'.jobs[jid], k, Worker(rec.id, y), m, ParkedPieces(s'.parked, jid));
    case None =>
      MergeReleases(job, s'.jobs[jid], k, m, ParkedPieces(s.parked, jid));
  }

  lemma MergeKeepsSent(s: State, rec: Rec, jid: int, k: nat, value: int)
    requires SentInv(s) && WorkersInv(s) && Holding(s, rec) == Some((jid, k))
    ensures SentInv(MergeResult(s, rec, jid, k, value))
  {
    match Oldest(s.parked, jid) {
      case Some(q) => forall c { SentMore(s.sent, Task(rec.id, jid, s.parked[q].index), c); }
      case None =>
    }
    hide Oldest, Holding, LastSent;
  }

  lemma MergeKeeps(s: State, rec: Rec, jid: int, k: nat, value: int)
    requires Inv(s) && Holding(s, rec) == Some((jid, k))
    ensures Inv(MergeResult(s, rec, jid, k, value))
  {
    hide WorkersInv, BusyInv, ParkedInv, PiecesInv, ResultInv, SentInv, Holding, Oldest;
    MergeKeepsWorkers(s, rec, jid, k, value);
    MergeKeepsParked(s, rec, jid, k, value);
    MergeKeepsPieces(s, rec, jid, k, value);
    MergeKeepsSent(s, rec, jid, k, value);
  }

  lemma ReassignKeepsWorkers(s: State, rec: Rec, jid: int, k: nat)
    requires WorkersInv(s) && BusyInv(s) && Holding(s, rec) == Some((jid, k))
    ensures WorkersInv(Reassign(s, rec, jid, k))
  {
    FirstFreeIsFree(Roster(s.recs, HomeGroup(rec)), s.busy);
    hide Registered, Roster, FirstFree, Holding, HomeGroup;
  }

  lemma ReassignKeepsBusy(s: State, rec: Rec, jid: int, k: nat)
    requires BusyInv(s) && Holding(s, rec) == Some((jid, k))
    ensures BusyInv(Reassign(s, rec, jid, k))
  {
    var ids := Roster(s.recs, HomeGroup(rec));
    FirstFreeIsFree(ids, s.busy);
    if FirstFree(ids, s.busy).Some? { RosterRegistered(s.recs, HomeGroup(rec), FirstFree(ids, s.busy).value); }
    hide Registered, Roster, FirstFree, Holding, HomeGroup;
  }

  lemma ReassignKeepsParked(s: State, rec: Rec, jid: int, k: nat)
    requires ParkedInv(s) && ResultInv(s) && Holding(s, rec) == Some((jid, k)) && CanReassign(s, rec, jid, k)
    ensures var s' := Reassign(s, rec, jid, k); ParkedInv(s') && ResultInv(s')
  {
    hide Roster, FirstFree, Holding;
  }

  lemma ReassignKeepsPieces(s: State, rec: Rec, jid: int, k: nat)
    requires PiecesInv(s) && Holding(s, rec) == Some((jid, k))
    ensures PiecesInv(Reassign(s, rec, jid, k))
  {
    var job := s.jobs[jid];
    var s' := Reassign(s, rec, jid, k);
    match FirstFree(Roster(s.recs, HomeGroup(rec)), s.busy)
    case Some(d) =>
      PiecesMoved(job.workers, k, d);
      hide Roster, FirstFree, Holding, WorkerPieces, MergedPieces, ParkedPieces, Indices, RemoveAt;
      assert Partitioned(s.jobs[jid], ParkedPieces(s.parked, jid));
    case None =>
      PiecesWithout(job.workers, k);
      forall j
        ensures ParkedPieces(s'.parked, j)
             == (if j == jid then multiset{job.workers[k].index} else multiset{}) + ParkedPieces(s.parked, j)
      {
        assert s'.parked[1..] == s.parked;
      }
      hide Roster, FirstFree, Holding, WorkerPieces, MergedPieces, ParkedPieces, Indices, RemoveAt;
      MovedToParked(WorkerPieces(RemoveAt(job.workers, k)), ParkedPieces(s.parked, jid), MergedPieces(job.merged),
                    job.workers[k].index);
      assert Partitioned(s.jobs[jid], ParkedPieces(s.parked, jid));
      assert Partitioned(s'.jobs[jid], ParkedPieces(s'.parked, jid));
      hide Partitioned;
  }

  lemma ReassignKeepsSent(s: State, rec: Rec, jid: int, k: nat)
    requires SentInv(s) && WorkersInv(s) && Holding(s, rec) == Some((jid, k))
    ensures SentInv(Reassign(s, rec, jid, k))
  {
    var ids := Roster(s.recs, HomeGroup(rec));
    FirstFreeIsFree(ids, s.busy);
    match FirstFree(ids, s.busy) {
      case Some(d) => forall c { SentMore(s.sent, Task(d, jid, s.jobs[jid].workers[k].index), c); }
      case None =>
    }
    hide Roster, FirstFree, Holding, HomeGroup, LastSent;
  }

  lemma ReassignKeeps(s: State, rec: Rec, jid: int, k: nat)
    requires Inv(s) && Holding(s, rec) == Some((jid, k)) && CanReassign(s, rec, jid, k)
    ensures Inv(Reassign(s, rec, jid, k))
  {
    hide WorkersInv, BusyInv, ParkedInv, PiecesInv, ResultInv, SentInv, Holding, FirstFree, Roster, CanReassign;
    ReassignKeepsWorkers(s, rec, jid, k);
    ReassignKeepsBusy(s, rec, jid, k);
    ReassignKeepsParked(s, rec, jid, k);
    ReassignKeepsPieces(s, rec, jid, k);
    ReassignKeepsSent(s, rec, jid, k);
  }

  lemma LeaveKeepsRecs(s: State, id: nat)
    requires RecsInv(s)
    ensures RecsInv(s.(recs := Leave(s.recs, id)))
  {
    LeaveKeepsNumbers(s.recs, id);
    LeaveMembers(s.recs, id);
    forall i | 0 <= i < |Leave(s.recs, id)|
      ensures Leave(s.recs, id)[i].id < s.nextId
    {
      assert Leave(s.recs, id)[i] in s.recs;
    }
  }

  lemma UnregisterKeepsWorkers(s: State, rec: Rec)
    requires WorkersInv(s) && Holding(s, rec) == None
    ensures WorkersInv(Unregister(s, rec))
  {
    hide Leave;
  }

  lemma UnregisterKeepsBusy(s: State, rec: Rec)
    requires BusyInv(s)
    ensures BusyInv(Unregister(s, rec))
  {
    forall c | Registered(s.recs, c) && c != rec.id
      ensures Registered(Leave(s.recs, rec.id), c)
    {
      LeaveKeepsOthers(s.recs, rec.id, c);
    }
    hide Registered, Leave;
  }

  lemma UnregisterKeeps(s: State, rec: Rec)
    requires Inv(s) && Holding(s, rec) == None
    ensures Inv(Unregister(s, rec))
  {
    hide RecsInv, WorkersInv, BusyInv, Holding, Partitioned, Best, ParkedPieces, Leave;
    LeaveKeepsRecs(s, rec.id);
    UnregisterKeepsWorkers(s, rec);
    UnregisterKeepsBusy(s, rec);
    assert RecsInv(Unregister(s, rec)) by { RecsAlone(s.(recs := Leave(s.recs, rec.id)), Unregister(s, rec)); }
  }

  lemma RecsAlone(s: State, t: State)
    requires RecsInv(s) && t.recs == s.recs && t.nextId == s.nextId
    ensures RecsInv(t)
  {
  }

  lemma Reassigned(s: State, rec: Rec, jid: int, k: nat, j: int, i: nat)
    requires WorkersInv(s) && Holding(s, rec) == Some((jid, k))
    requires var s' := Reassign(s, rec, jid, k); j in s'.jobs && i < |s'.jobs[j].workers|
    ensures Reassign(s, rec, jid, k).jobs[j].workers[i].client != rec.id
  {
    FirstFreeIsFree(Roster(s.recs, HomeGroup(rec)), s.busy);
    hide Roster, FirstFree, Holding;
  }

  lemma ReleasedByReassign(s: State, rec: Rec)
    requires Inv(s)
    ensures Holding(ReassignIfHolding(s, rec), rec) == None
  {
    var s' := ReassignIfHolding(s, rec);
    if Holding(s, rec).Some? && Holding(s', rec).Some? {
      var (jid, k) := Holding(s, rec).value;
      var (j, i) := Holding(s', rec).value;
      Reassigned(s, rec, jid, k, j, i);
    }
  }

  lemma ReassignedInv(s: State, cfd: int)
    requires Inv(s) && MayReassign(s, cfd)
    ensures Inv(AfterReassign(s, cfd))
  {
    hide Inv, Reassign, Holding, Roster, CanReassign, Newest;
    match Newest(s.recs, cfd)
    case None =>
    case Some(rec) =>
      match Holding(s, rec)
      case None =>
      case Some((jid, k)) => ReassignKeeps(s, rec, jid, k);
  }

  lemma StepKeepsInv(s: State, e: Event)
    requires Inv(s) && Enabled(s, e)
    ensures Inv(Step(s, e))
  {
    hide Inv, StartJob, MergeResult, Reassign, Unregister, Holding, Roster, Fits, CanReassign;
    match e
    case Joins(cfd, gids) =>
      if |gids| <= MAX_MULTICAST_GROUPS && Fits(s.recs, gids) { JoinKeeps(s, Rec(s.nextId, cfd, gids)); }
    case NewJob(gid, jid, initial, divided) =>
      StartKeeps(s, gid, jid, initial, divided);
    case Result(cfd, value) =>
      match Newest(s.recs, cfd) {
        case None =>
        case Some(rec) =>
          match Holding(s, rec)
          case None =>
          case Some((jid, k)) => MergeKeeps(s, rec, jid, k, value);
      }
    case Error(cfd) => ReassignedInv(s, cfd);
    case Disconnect(cfd) =>
      match Newest(s.recs, cfd)
      case None =>
      case Some(rec) =>
        ReassignedInv(s, cfd);
        ReleasedByReassign(s, rec);
        UnregisterKeeps(ReassignIfHolding(s, rec), rec);
  }

  lemma InitInv(s: State)
    requires Init(s)
    ensures Inv(s)
  {
  }

  lemma {:induction false} RunKeepsInv(s: State, events: seq<Event>)
    requires Inv(s)
    ensures match Run(s, events) case None => true case Some(t) => Inv(t)
    decreases |events|
  {
    hide Inv, Enabled, Step;
    if events != [] && Enabled(s, events[0]) {
      StepKeepsInv(s, events[0]);
      RunKeepsInv(Step(s, events[0]), events[1..]);
    }
  }

  lemma {:induction false} RunMore(s: State, events: seq<Event>, e: Event)
    requires Run(s, events).Some? && Enabled(Run(s, events).value, e)
    ensures Run(s, events + [e]) == Some(Step(Run(s, events).value, e))
    decreases |events|
  {
    hide Enabled, Step;
    if events == [] {
      assert [] + [e] == [e] && [e][1..] == [];
      assert Run(s, [e]) == Run(Step(s, e), []);
    } else {
      RunMore(Step(s, events[0]), events[1..], e);
      assert (events + [e])[1..] == events[1..] + [e];
    }
  }

  lemma ReachableNext(s: State, e: Event)
    requires Reachable(s) && Enabled(s, e)
    ensures Reachable(Step(s, e))
  {
    hide Enabled, Step, Init;
    var s0, events :| Init(s0) && Run(s0, events) == Some(s);
    RunMore(s0, events, e);
  }

  lemma ReachableInv(s: State)
    requires Reachable(s)
    ensures Inv(s)
  {
    var s0, events :| Init(s0) && Run(s0, events) == Some(s);
    InitInv(s0);
    RunKeepsInv(s0, events);
  }

  // ---------------------------------------------------------------------------------------------
  // What follows for every run
  // ---------------------------------------------------------------------------------------------

  /** Every piece that was handed out is in one place: with a worker, parked, or merged, and only once over all of
      them. */
  lemma PieceInOnePlace(s: State, jid: int, i: int)
    requires Reachable(s) && jid in s.jobs && s.jobs[jid].pieces > 0
    ensures var job := s.jobs[jid];
      WorkerPieces(job.workers)[i] + ParkedPieces(s.parked, jid)[i] + MergedPieces(job.merged)[i]
        == if 0 <= i < job.pieces then 1 else 0
  {
    ReachableInv(s);
    var job := s.jobs[jid];
    var w, p, m := WorkerPieces(job.workers), ParkedPieces(s.parked, jid), MergedPieces(job.merged);
    IndexOnce(job.pieces, i);
    hide WorkerPieces, ParkedPieces, MergedPieces, Indices;
    assert Partitioned(job, p);
    assert (w + p + m)[i] == w[i] + p[i] + m[i];
  }

  /** All pieces were handed out and no worker is left on the job. */
  ghost predicate Complete(s: State, jid: int) {
    Reachable(s) && jid in s.jobs && s.jobs[jid].pieces > 0 && s.jobs[jid].workers == []
  }

  lemma DoneInv(s: State, jid: int)
    requires Inv(s) && jid in s.jobs && s.jobs[jid].workers == []
    ensures var job := s.jobs[jid];
      && (forall i :: 0 <= i < |s.parked| ==> s.parked[i].jid != jid)
      && (job.pieces > 0 ==> MergedPieces(job.merged) == Indices(job.pieces))
      && job.result == Best(job.initial, job.merged)
  {
    var job := s.jobs[jid];
    NoneParked(s.parked, jid);
    assert Partitioned(job, ParkedPieces(s.parked, jid));
    if job.pieces > 0 {
      assert WorkerPieces([]) + multiset{} + MergedPieces(job.merged) == MergedPieces(job.merged);
    }
  }

  /** A job without workers is complete: nothing of it is parked, and every piece was merged exactly once. */
  lemma DoneIsComplete(s: State, jid: int)
    requires Reachable(s) && jid in s.jobs && s.jobs[jid].workers == []
    ensures var job := s.jobs[jid];
      && (forall i :: 0 <= i < |s.parked| ==> s.parked[i].jid != jid)
      && (job.pieces > 0 ==> MergedPieces(job.merged) == Indices(job.pieces))
      && job.result == Best(job.initial, job.merged)
  {
    ReachableInv(s);
    DoneInv(s, jid);
  }

  lemma HandedOutStays(s: State, e: Event, jid: int)
    requires Enabled(s, e) && jid in s.jobs
    ensures jid in Step(s, e).jobs && Step(s, e).jobs[jid].pieces == s.jobs[jid].pieces
    ensures Step(s, e).jobs[jid].initial == s.jobs[jid].initial
  {
    hide Newest, Holding, Oldest, Fits, Roster, Reserve, FirstFree, CanReassign;
  }

  /** The number of pieces of a job never changes once it is started. */
  lemma {:induction false} HandedOutForever(s: State, events: seq<Event>, jid: int)
    requires jid in s.jobs && Run(s, events).Some?
    ensures var t := Run(s, events).value; jid in t.jobs && t.jobs[jid].pieces == s.jobs[jid].pieces
    decreases |events|
  {
    hide Enabled, Step;
    if events != [] {
      HandedOutStays(s, events[0], jid);
      HandedOutForever(Step(s, events[0]), events[1..], jid);
    }
  }

  /** Over all jobs a client holds at most one piece, and whoever holds one is registered, busy and points at that
      job. */
  lemma OnePieceEach(s: State, j: int, k: nat, j': int, k': nat)
    requires Reachable(s) && j in s.jobs && j' in s.jobs && k < |s.jobs[j].workers| && k' < |s.jobs[j'].workers|
    requires s.jobs[j].workers[k].client == s.jobs[j'].workers[k'].client
    ensures j == j' && k == k'
    ensures var c := s.jobs[j].workers[k].client; c in s.busy && Registered(s.recs, c) && c in s.jn && s.jn[c] == j
  {
    ReachableInv(s);
  }

  /** The piece a client holds is the last one it was sent. */
  lemma HolderWasSent(s: State, jid: int, k: nat)
    requires Reachable(s) && jid in s.jobs && s.jobs[jid].pieces > 0 && k < |s.jobs[jid].workers|
    ensures var w := s.jobs[jid].workers[k]; LastSent(s.sent, w.client) == Some(Task(w.client, jid, w.index))
  {
    ReachableInv(s);
  }

  ghost predicate Holds(s: State, client: nat, jid: int, index: int) {
    jid in s.jobs && Worker(client, index) in s.jobs[jid].workers
  }

  /** New work goes to clients that were not busy; the one exception is a parked piece of the same job, the oldest one,
      which goes to the client whose result was just merged. */
  lemma WorkGoesToTheIdle(s: State, e: Event, client: nat, jid: int, index: int)
    requires Inv(s) && Enabled(s, e) && Holds(Step(s, e), client, jid, index) && !Holds(s, client, jid, index)
    ensures client !in s.busy || (
      && e.Result? && Newest(s.recs, e.cfd).Some? && Newest(s.recs, e.cfd).value.id == client
      && client in s.jn && s.jn[client] == jid
      && Oldest(s.parked, jid).Some? && s.parked[Oldest(s.parked, jid).value].index == index)
  {
    hide Holding, Oldest, Fits, Roster, Reserve, FirstFree, CanReassign, MayReassign;
    match e
    case Joins(_, _) =>
    case NewJob(gid, jid', initial, divided) =>
      if gid > 0 && jid' >= 0 { ReserveFree(Roster(s.recs, gid), s.busy); }
    case Result(cfd, value) =>
      MergeGives(s, Newest(s.recs, cfd).value, value, client, jid, index);
    case Error(cfd) => ReassignGives(s, cfd, client, jid, index);
    case Disconnect(cfd) => ReassignGives(s, cfd, client, jid, index);
  }

  lemma MergeGives(s: State, rec: Rec, value: int, client: nat, j: int, index: int)
    requires Holds(MergeIfHolding(s, rec, value), client, j, index) && !Holds(s, client, j, index)
    ensures client == rec.id && client in s.jn && j == s.jn[client]
    ensures Oldest(s.parked, j).Some? && s.parked[Oldest(s.parked, j).value].index == index
  {
    hide Holding, Oldest;
  }

  lemma ReassignGives(s: State, cfd: int, client: nat, jid: int, index: int)
    requires Newest(s.recs, cfd).Some? ==>
      Holds(ReassignIfHolding(s, Newest(s.recs, cfd).value), client, jid, index)
    requires Newest(s.recs, cfd).Some? && !Holds(s, client, jid, index)
    ensures client !in s.busy
  {
    var rec := Newest(s.recs, cfd).value;
    var ids := Roster(s.recs, HomeGroup(rec));
    FirstFreeIsFree(ids, s.busy);
    hide Holding, FirstFree, Roster;
  }

  /** A busy client without a piece. */
  ghost predicate Stranded(s: State, client: nat) {
    client in s.busy && Registered(s.recs, client) && forall j, index :: !Holds(s, client, j, index)
  }

  /** An error leaves its worker marked busy without a piece exactly if nobody in its group is free; the piece is
      parked then. */
  lemma ErrorStrandsIff(s: State, cfd: int, rec: Rec)
    requires Inv(s) && Newest(s.recs, cfd) == Some(rec) && Enabled(s, Error(cfd)) && Holding(s, rec).Some?
    ensures Stranded(Step(s, Error(cfd)), rec.id)
      <==> forall id :: id in Roster(s.recs, HomeGroup(rec)) ==> id in s.busy
    ensures Holding(s, rec).value.0 in s.jobs
    ensures Stranded(Step(s, Error(cfd)), rec.id) ==> var (jid, k) := Holding(s, rec).value;
      Step(s, Error(cfd)).parked == [Parked(jid, s.jobs[jid].workers[k].index)] + s.parked
  {
    var (jid, k) := Holding(s, rec).value;
    FirstFreeIsFree(Roster(s.recs, HomeGroup(rec)), s.busy);
    NewestRegistered(s.recs, cfd);
    var s' := Reassign(s, rec, jid, k);
    forall j, i: nat | j in s'.jobs && i < |s'.jobs[j].workers|
      ensures s'.jobs[j].workers[i].client != rec.id
    {
      Reassigned(s, rec, jid, k, j, i);
    }
    hide Roster, FirstFree, Holding;
  }

  predicate Drops(s: State, e: Event, client: nat) {
    e.Disconnect? && Newest(s.recs, e.cfd).Some? && Newest(s.recs, e.cfd).value.id == client
  }

  lemma HoldingHolds(s: State, rec: Rec)
    requires Holding(s, rec).Some?
    ensures var (jid, k) := Holding(s, rec).value; Holds(s, rec.id, jid, s.jobs[jid].workers[k].index)
  {
    hide Holding;
    var (jid, k) := Holding(s, rec).value;
    assert s.jobs[jid].workers[k] in s.jobs[jid].workers;
  }

  lemma MergeFrees(s: State, rec: Rec, value: int, client: nat)
    requires client in s.busy && (client == rec.id ==> Holding(s, rec) == None)
    ensures client in MergeIfHolding(s, rec, value).busy && MergeIfHolding(s, rec, value).recs == s.recs
  {
    hide Holding, Oldest, RemoveAt;
  }

  lemma ReassignFrees(s: State, rec: Rec, client: nat)
    requires client in s.busy && (client == rec.id ==> Holding(s, rec) == None)
    ensures client in ReassignIfHolding(s, rec).busy && ReassignIfHolding(s, rec).recs == s.recs
  {
    hide Holding, FirstFree, Roster, RemoveAt;
  }

  lemma StrandedStaysBusy(s: State, e: Event, client: nat)
    requires Enabled(s, e) && Stranded(s, client) && !Drops(s, e, client)
    ensures client in Step(s, e).busy && Registered(Step(s, e).recs, client)
  {
    forall rec: Rec | rec.id == client
      ensures Holding(s, rec) == None
    {
      if Holding(s, rec).Some? { HoldingHolds(s, rec); }
    }
    hide Holding, Fits, MergeIfHolding, ReassignIfHolding, Holds, Leave, Newest, Registered, Roster, Reserve;
    match e
    case Joins(cfd, gids) => ConsRegistered(Rec(s.nextId, cfd, gids), s.recs, client);
    case NewJob(_, _, _, _) =>
    case Result(cfd, value) =>
      if Newest(s.recs, cfd).Some? { MergeFrees(s, Newest(s.recs, cfd).value, value, client); }
    case Error(cfd) =>
      if Newest(s.recs, cfd).Some? { ReassignFrees(s, Newest(s.recs, cfd).value, client); }
    case Disconnect(cfd) =>
      if Newest(s.recs, cfd).Some? {
        ReassignFrees(s, Newest(s.recs, cfd).value, client);
        LeaveKeepsOthers(s.recs, Newest(s.recs, cfd).value.id, client);
      }
  }

  /** Only its own disconnect ends that: until then it is never given work again. */
  lemma StrandedStays(s: State, e: Event, client: nat)
    requires Inv(s) && Enabled(s, e) && Stranded(s, client) && !Drops(s, e, client)
    ensures Stranded(Step(s, e), client)
  {
    StrandedStaysBusy(s, e, client);
    hide Step, Enabled, Inv, Holds;
    forall j, index
      ensures !Holds(Step(s, e), client, j, index)
    {
      assert !Holds(s, client, j, index);
      if Holds(Step(s, e), client, j, index) {
        WorkGoesToTheIdle(s, e, client, j, index);
        MergerHolds(s, e);
      }
    }
  }

  lemma MergerHolds(s: State, e: Event)
    requires Enabled(s, e) && e.Result? && Newest(s.recs, e.cfd).Some? && Newest(s.recs, e.cfd).value.id in s.jn
    ensures exists j, index :: Holds(s, Newest(s.recs, e.cfd).value.id, j, index)
  {
    HoldingHolds(s, Newest(s.recs, e.cfd).value);
  }

  predicate NeverDrops(s: State, events: seq<Event>, client: nat)
    decreases |events|
  {
    events != [] && Enabled(s, events[0]) ==>
      !Drops(s, events[0], client) && NeverDrops(Step(s, events[0]), events[1..], client)
  }

  lemma {:induction false} StrandedForever(s: State, events: seq<Event>, client: nat)
    requires Inv(s) && Stranded(s, client) && Run(s, events).Some? && NeverDrops(s, events, client)
    ensures Stranded(Run(s, events).value, client)
    decreases |events|
  {
    hide Inv, Enabled, Step, Drops, Stranded;
    if events != [] {
      StepKeepsInv(s, events[0]);
      StrandedStays(s, events[0], client);
      StrandedForever(Step(s, events[0]), events[1..], client);
    }
  }

  // ---------------------------------------------------------------------------------------------
  // A file that cannot be divided
  // ---------------------------------------------------------------------------------------------

  /** A client that is reserved for a job of which no piece was handed out. */
  ghost predicate Waiting(s: State, client: nat, jid: int) {
    && client in s.busy && Registered(s.recs, client) && client in s.jn && s.jn[client] == jid
    && jid in s.jobs && s.jobs[jid].pieces == 0 && Holds(s, client, jid, 0)
  }

  lemma EnlistedAt(ids: seq<nat>, c: nat)
    requires c in ids
    ensures Worker(c, 0) in Enlist(ids, false)
  {
    var i :| 0 <= i < |ids| && ids[i] == c;
    assert Enlist(ids, false)[i] == Worker(c, 0);
  }

  /** When the file of a new job cannot be divided, every member of its group that was free is reserved nevertheless,
      and nobody is sent anything. */
  lemma UndividedReserves(s: State, gid: int, jid: int, initial: int, client: nat)
    requires Enabled(s, NewJob(gid, jid, initial, false)) && gid > 0 && jid >= 0
    requires client in Roster(s.recs, gid) && client !in s.busy
    ensures Waiting(Step(s, NewJob(gid, jid, initial, false)), client, jid)
    ensures Step(s, NewJob(gid, jid, initial, false)).sent == s.sent
  {
    ReserveFree(Roster(s.recs, gid), s.busy);
    RosterRegistered(s.recs, gid, client);
    EnlistedAt(Reserve(Roster(s.recs, gid), s.busy), client);
    hide Roster, Reserve, Enlist;
  }

  /** The client reports a result or an error, or disconnects. */
  predicate Speaks(s: State, e: Event, client: nat) {
    match e
    case Result(cfd, _) => Newest(s.recs, cfd).Some? && Newest(s.recs, cfd).value.id == client
    case Error(cfd) => Newest(s.recs, cfd).Some? && Newest(s.recs, cfd).value.id == client
    case Disconnect(cfd) => Newest(s.recs, cfd).Some? && Newest(s.recs, cfd).value.id == client
    case _ => false
  }

  lemma InWithout(ws: seq<Worker>, k: nat, w: Worker)
    requires k < |ws| && w in ws && ws[k] != w
    ensures w in RemoveAt(ws, k)
  {
    var i :| 0 <= i < |ws| && ws[i] == w;
    if i < k { assert RemoveAt(ws, k)[i] == w; } else { assert RemoveAt(ws, k)[i - 1] == w; }
  }

  lemma InReplaced(ws: seq<Worker>, k: nat, w: Worker, x: Worker)
    requires k < |ws| && w in ws && ws[k] != w
    ensures w in ws[k := x]
  {
    var i :| 0 <= i < |ws| && ws[i] == w;
    assert ws[k := x][i] == w;
  }

  lemma MergeLeavesWaiting(s: State, rec: Rec, value: int, client: nat, jid: int)
    requires Waiting(s, client, jid) && rec.id != client
    ensures Waiting(MergeIfHolding(s, rec, value), client, jid)
  {
    if Holding(s, rec).Some? {
      var (j, k) := Holding(s, rec).value;
      var ws := s.jobs[j].workers;
      if j == jid {
        InWithout(ws, k, Worker(client, 0));
        var q := Oldest(s.parked, j);
        if q.Some? { InReplaced(ws, k, Worker(client, 0), Worker(rec.id, s.parked[q.value].index)); }
      }
      hide Holding, Oldest, RemoveAt, Registered;
    }
  }

  lemma ReassignLeavesWaiting(s: State, rec: Rec, client: nat, jid: int)
    requires Waiting(s, client, jid) && rec.id != client
    ensures Waiting(ReassignIfHolding(s, rec), client, jid)
  {
    if Holding(s, rec).Some? {
      var (j, k) := Holding(s, rec).value;
      var ws := s.jobs[j].workers;
      var ids := Roster(s.recs, HomeGroup(rec));
      FirstFreeIsFree(ids, s.busy);
      if j == jid {
        InWithout(ws, k, Worker(client, 0));
        var d := FirstFree(ids, s.busy);
        if d.Some? { InWithout(ws + [Worker(d.value, ws[k].index)], k, Worker(client, 0)); }
      }
      hide Holding, FirstFree, Roster, RemoveAt, Registered;
    }
  }

  lemma WaitingStays(s: State, e: Event, client: nat, jid: int)
    requires Enabled(s, e) && Waiting(s, client, jid) && !Speaks(s, e, client)
    ensures Waiting(Step(s, e), client, jid)
  {
    hide Holding, Fits, MergeIfHolding, ReassignIfHolding, Leave, Newest, Registered, Roster, Reserve, CanReassign;
    match e
    case Joins(cfd, gids) => ConsRegistered(Rec(s.nextId, cfd, gids), s.recs, client);
    case NewJob(gid, jid', _, _) => if gid > 0 && jid' >= 0 { ReserveFree(Roster(s.recs, gid), s.busy); }
    case Result(cfd, value) =>
      if Newest(s.recs, cfd).Some? { MergeLeavesWaiting(s, Newest(s.recs, cfd).value, value, client, jid); }
    case Error(cfd) =>
      if Newest(s.recs, cfd).Some? { ReassignLeavesWaiting(s, Newest(s.recs, cfd).value, client, jid); }
    case Disconnect(cfd) =>
      if Newest(s.recs, cfd).Some? {
        var rec := Newest(s.recs, cfd).value;
        ReassignLeavesWaiting(s, rec, client, jid);
        LeaveKeepsOthers(ReassignIfHolding(s, rec).recs, rec.id, client);
      }
  }

  predicate Silent(s: State, events: seq<Event>, client: nat)
    decreases |events|
  {
    events != [] && Enabled(s, events[0]) ==>
      !Speaks(s, events[0], client) && Silent(Step(s, events[0]), events[1..], client)
  }

  /** Such a client stays busy, and on that job's worker list, in every run in which it does not itself report or
      disconnect; no other job can have it. */
  lemma {:induction false} WaitingForever(s: State, events: seq<Event>, client: nat, jid: int)
    requires Waiting(s, client, jid) && Run(s, events).Some? && Silent(s, events, client)
    ensures Waiting(Run(s, events).value, client, jid)
    decreases |events|
  {
    hide Enabled, Step, Speaks, Waiting;
    if events != [] {
      WaitingStays(s, events[0], client, jid);
      WaitingForever(Step(s, events[0]), events[1..], client, jid);
    }
  }
}
