/** What each server event does, said of registrations, worker lists, the pending queue and the messages alone. */
module JobEffects {
  import opened Wrappers
  import opened RegistrySpec
  import opened JobProtocol
  import JobTheorems

  // ---------------------------------------------------------------------------------------------
  // Who is meant
  // ---------------------------------------------------------------------------------------------

  /** The newest registration of a descriptor. */
  predicate Sender(s: State, cfd: int, r: nat) {
    r < |s.recs| && s.recs[r].cfd == cfd && forall i :: 0 <= i < r ==> s.recs[i].cfd != cfd
  }

  predicate Nobody(s: State, cfd: int) { forall i :: 0 <= i < |s.recs| ==> s.recs[i].cfd != cfd }

  /** A client is in the k-th place of the worker list of the job it was last given. */
  predicate HasPiece(s: State, client: nat, jid: int, k: nat) {
    && client in s.jn && s.jn[client] == jid && jid in s.jobs
    && k < |s.jobs[jid].workers| && s.jobs[jid].workers[k].client == client
  }

  predicate HasNone(s: State, client: nat) {
    client in s.jn && s.jn[client] in s.jobs ==>
      var ws := s.jobs[s.jn[client]].workers; forall k :: 0 <= k < |ws| ==> ws[k].client != client
  }

  predicate FreeMember(s: State, gid: int, i: nat) {
    i < |s.recs| && gid in s.recs[i].gids && s.recs[i].id !in s.busy
  }

  /** The member of a group that is not busy and registered last. */
  predicate FirstFreeMember(s: State, gid: int, i: nat) {
    FreeMember(s, gid, i) && forall j: nat :: j < i ==> !FreeMember(s, gid, j)
  }

  predicate NobodyFree(s: State, gid: int) { forall j: nat :: j < |s.recs| ==> !FreeMember(s, gid, j) }

  lemma {:induction false} SenderIsNewest(recs: seq<Rec>, cfd: int, r: nat)
    requires r < |recs| && recs[r].cfd == cfd && forall i :: 0 <= i < r ==> recs[i].cfd != cfd
    ensures Newest(recs, cfd) == Some(recs[r])
  {
    if r > 0 { SenderIsNewest(recs[1..], cfd, r - 1); }
  }

  lemma {:induction false} NobodyIsNewest(recs: seq<Rec>, cfd: int)
    requires forall i :: 0 <= i < |recs| ==> recs[i].cfd != cfd
    ensures Newest(recs, cfd) == None
  {
    if recs != [] { NobodyIsNewest(recs[1..], cfd); }
  }

  lemma PieceIsHeld(s: State, rec: Rec, jid: int, k: nat)
    requires WorkersInv(s) && HasPiece(s, rec.id, jid, k)
    ensures Holding(s, rec) == Some((jid, k))
  {
    var ws := s.jobs[jid].workers;
    assert Find(ws, rec.id).Some?;
  }

  lemma NoneIsHeld(s: State, rec: Rec)
    requires HasNone(s, rec.id)
    ensures Holding(s, rec) == None
  {
  }

  // ---------------------------------------------------------------------------------------------
  // Group members
  // ---------------------------------------------------------------------------------------------

  lemma {:induction false} CountIsMultiplicity(gids: seq<nat>, gid: nat)
    ensures Count(gids, gid) == multiset(gids)[gid]
    ensures Count(gids, gid) > 0 <==> gid in gids
  {
    if gids != [] {
      CountIsMultiplicity(gids[1..], gid);
      assert gids == [gids[0]] + gids[1..];
    }
  }

  lemma {:induction false} FirstFreeOfTimes(n: nat, id: nat, rest: seq<nat>, busy: set<nat>)
    ensures FirstFree(Times(n, id) + rest, busy) == if n > 0 && id !in busy then Some(id) else FirstFree(rest, busy)
  {
    if n == 0 {
      assert Times(n, id) + rest == rest;
    } else {
      assert (Times(n, id) + rest)[1..] == Times(n - 1, id) + rest;
      FirstFreeOfTimes(n - 1, id, rest, busy);
    }
  }

  /** The search through a group list ends at the newest member that is not busy. */
  lemma {:induction false} FirstFreeFound(recs: seq<Rec>, busy: set<nat>, gid: nat, i: nat)
    requires i < |recs| && gid in recs[i].gids && recs[i].id !in busy
    requires forall j :: 0 <= j < i && gid in recs[j].gids ==> recs[j].id in busy
    ensures FirstFree(Roster(recs, gid), busy) == Some(recs[i].id)
  {
    CountIsMultiplicity(recs[0].gids, gid);
    FirstFreeOfTimes(Count(recs[0].gids, gid), recs[0].id, Roster(recs[1..], gid), busy);
    hide FirstFree;
    if i > 0 { FirstFreeFound(recs[1..], busy, gid, i - 1); }
  }

  lemma {:induction false} NoFreeFound(recs: seq<Rec>, busy: set<nat>, gid: nat)
    requires forall j :: 0 <= j < |recs| && gid in recs[j].gids ==> recs[j].id in busy
    ensures FirstFree(Roster(recs, gid), busy) == None
  {
    if recs != [] {
      CountIsMultiplicity(recs[0].gids, gid);
      FirstFreeOfTimes(Count(recs[0].gids, gid), recs[0].id, Roster(recs[1..], gid), busy);
      hide FirstFree;
      NoFreeFound(recs[1..], busy, gid);
    }
  }

  // ---------------------------------------------------------------------------------------------
  // Errors and disconnects
  // ---------------------------------------------------------------------------------------------

  /** An error of a client that has a piece hands it, in a message too, to the newest member of the last group the
      client asked for that is not busy. */
  lemma ErrorMovesPiece(s: State, cfd: int, r: nat, jid: int, k: nat, i: nat)
    requires Inv(s) && Sender(s, cfd, r) && HasPiece(s, s.recs[r].id, jid, k) && s.recs[r].gids != []
    requires FirstFreeMember(s, s.recs[r].gids[|s.recs[r].gids| - 1], i)
    ensures Enabled(s, Error(cfd))
    ensures var d, c, job := s.recs[i].id, s.recs[r].id, s.jobs[jid];
      Step(s, Error(cfd)) == s.(
        jobs := s.jobs[jid := job.(
          workers := job.workers[..k] + job.workers[k + 1..] + [Worker(d, job.workers[k].index)])],
        busy := s.busy - {c} + {d}, jn := s.jn[d := jid], sent := s.sent + [Task(d, jid, job.workers[k].index)])
  {
    var rec, job := s.recs[r], s.jobs[jid];
    SenderIsNewest(s.recs, cfd, r);
    PieceIsHeld(s, rec, jid, k);
    forall j | 0 <= j < i && HomeGroup(rec) in s.recs[j].gids
      ensures s.recs[j].id in s.busy
    {
      assert !FreeMember(s, HomeGroup(rec), j);
    }
    FirstFreeFound(s.recs, s.busy, HomeGroup(rec), i);
    var more := [Worker(s.recs[i].id, job.workers[k].index)];
    assert RemoveAt(job.workers + more, k) == job.workers[..k] + job.workers[k + 1..] + more;
    assert rec.id in s.busy;
    hide Holding, Newest, Roster, FirstFree, RemoveAt, Inv;
    assert s.busy + {s.recs[i].id} - {rec.id} == s.busy - {rec.id} + {s.recs[i].id};
  }

  /** If nobody there is free, the piece goes to the newest end of the pending queue, and its client stays busy. */
  lemma ErrorParksPiece(s: State, cfd: int, r: nat, jid: int, k: nat)
    requires Inv(s) && Sender(s, cfd, r) && HasPiece(s, s.recs[r].id, jid, k) && s.recs[r].gids != []
    requires NobodyFree(s, s.recs[r].gids[|s.recs[r].gids| - 1])
    ensures Enabled(s, Error(cfd)) <==> k + 1 < |s.jobs[jid].workers|
    ensures Enabled(s, Error(cfd)) ==> var job := s.jobs[jid];
      Step(s, Error(cfd)) == s.(
        jobs := s.jobs[jid := job.(workers := job.workers[..k] + job.workers[k + 1..])],
        parked := [Parked(jid, job.workers[k].index)] + s.parked)
  {
    var rec := s.recs[r];
    SenderIsNewest(s.recs, cfd, r);
    PieceIsHeld(s, rec, jid, k);
    forall j | 0 <= j < |s.recs| && HomeGroup(rec) in s.recs[j].gids
      ensures s.recs[j].id in s.busy
    {
      assert !FreeMember(s, HomeGroup(rec), j);
    }
    NoFreeFound(s.recs, s.busy, HomeGroup(rec));
    hide Holding, Newest, Roster, FirstFree, Inv;
  }

  /** An error of anyone else changes nothing. */
  lemma OtherErrors(s: State, cfd: int)
    requires Nobody(s, cfd) || exists r: nat :: Sender(s, cfd, r) && HasNone(s, s.recs[r].id)
    ensures Enabled(s, Error(cfd)) && Step(s, Error(cfd)) == s
  {
    if Nobody(s, cfd) {
      NobodyIsNewest(s.recs, cfd);
    } else {
      var r: nat :| Sender(s, cfd, r) && HasNone(s, s.recs[r].id);
      SenderIsNewest(s.recs, cfd, r);
      NoneIsHeld(s, s.recs[r]);
    }
    hide Newest, Holding;
  }

  lemma {:induction false} LeaveAt(recs: seq<Rec>, r: nat)
    requires DistinctIds(recs) && r < |recs|
    ensures Leave(recs, recs[r].id) == recs[..r] + recs[r + 1..]
  {
    var rest := recs[1..];
    assert DistinctIds(rest);
    if r == 0 {
      LeaveAbsent(rest, recs[0].id);
    } else {
      LeaveAt(rest, r - 1);
      assert [recs[0]] + (rest[..r - 1] + rest[r..]) == recs[..r] + recs[r + 1..];
    }
  }

  /** A disconnect is that, and the registration is removed with its busy mark and its job. */
  lemma DisconnectRemoves(s: State, cfd: int, r: nat)
    requires Inv(s) && Sender(s, cfd, r)
    ensures Enabled(s, Disconnect(cfd)) <==> Enabled(s, Error(cfd))
    ensures Enabled(s, Disconnect(cfd)) ==> var t, c := Step(s, Error(cfd)), s.recs[r].id;
      Step(s, Disconnect(cfd))
      == t.(recs := s.recs[..r] + s.recs[r + 1..], busy := t.busy - {c}, jn := t.jn - {c})
  {
    SenderIsNewest(s.recs, cfd, r);
    LeaveAt(s.recs, r);
    hide Newest, Holding, Leave, MayReassign, FirstFree, Roster, RemoveAt;
  }

  lemma NobodyDisconnects(s: State, cfd: int)
    requires Nobody(s, cfd)
    ensures Enabled(s, Disconnect(cfd)) && Step(s, Disconnect(cfd)) == s
  {
    NobodyIsNewest(s.recs, cfd);
  }

  // ---------------------------------------------------------------------------------------------
  // Results
  // ---------------------------------------------------------------------------------------------

  /** The oldest parked piece of a job: the queue has the newest in front. */
  predicate OldestParked(s: State, jid: int, q: nat) {
    q < |s.parked| && s.parked[q].jid == jid && forall i :: q < i < |s.parked| ==> s.parked[i].jid != jid
  }

  predicate NoneParked(s: State, jid: int) { forall i :: 0 <= i < |s.parked| ==> s.parked[i].jid != jid }

  /** The value that is kept. */
  predicate Better(was: int, value: int, kept: int) {
    kept >= was && kept >= value && (kept == was || kept == value)
  }

  /** A result of a client that has a piece is merged for that piece, the better value is kept, and the client gets the
      job's oldest parked piece. */
  lemma ResultThenParked(s: State, cfd: int, value: int, r: nat, jid: int, k: nat, q: nat) returns (kept: int)
    requires Inv(s) && Sender(s, cfd, r) && HasPiece(s, s.recs[r].id, jid, k) && OldestParked(s, jid, q)
    ensures Enabled(s, Result(cfd, value)) && Better(s.jobs[jid].result, value, kept)
    ensures var c, job, x := s.recs[r].id, s.jobs[jid], s.parked[q].index;
      Step(s, Result(cfd, value)) == s.(
        jobs := s.jobs[jid := job.(result := kept, merged := job.merged + [Merge(job.workers[k].index, value)],
          workers := job.workers[k := Worker(c, x)])],
        parked := s.parked[..q] + s.parked[q + 1..], sent := s.sent + [Task(c, jid, x)])
  {
    SenderIsNewest(s.recs, cfd, r);
    PieceIsHeld(s, s.recs[r], jid, k);
    assert Oldest(s.parked, jid) == Some(q);
    hide Newest, Holding, Oldest, Inv;
    kept := Max(s.jobs[jid].result, value);
  }

  /** If none is parked the client leaves the worker list and is free. */
  lemma ResultThenFree(s: State, cfd: int, value: int, r: nat, jid: int, k: nat) returns (kept: int)
    requires Inv(s) && Sender(s, cfd, r) && HasPiece(s, s.recs[r].id, jid, k) && NoneParked(s, jid)
    ensures Enabled(s, Result(cfd, value)) && Better(s.jobs[jid].result, value, kept)
    ensures var c, job := s.recs[r].id, s.jobs[jid];
      Step(s, Result(cfd, value)) == s.(
        jobs := s.jobs[jid := job.(result := kept, merged := job.merged + [Merge(job.workers[k].index, value)],
          workers := job.workers[..k] + job.workers[k + 1..])],
        busy := s.busy - {c})
  {
    SenderIsNewest(s.recs, cfd, r);
    PieceIsHeld(s, s.recs[r], jid, k);
    assert Oldest(s.parked, jid) == None;
    hide Newest, Holding, Oldest, Inv;
    kept := Max(s.jobs[jid].result, value);
  }

  /** A result from nobody, or from a client that was never given work, changes nothing. */
  lemma OtherResults(s: State, cfd: int, value: int)
    requires Nobody(s, cfd) || exists r: nat :: Sender(s, cfd, r) && s.recs[r].id !in s.jn
    ensures Enabled(s, Result(cfd, value)) && Step(s, Result(cfd, value)) == s
  {
    if Nobody(s, cfd) {
      NobodyIsNewest(s.recs, cfd);
    } else {
      var r: nat :| Sender(s, cfd, r) && s.recs[r].id !in s.jn;
      SenderIsNewest(s.recs, cfd, r);
      NoneIsHeld(s, s.recs[r]);
    }
    hide Newest, Holding;
  }

  // ---------------------------------------------------------------------------------------------
  // Joins
  // ---------------------------------------------------------------------------------------------

  /** How often registrations asked for a group. */
  function Memberships(recs: seq<Rec>, gid: nat): nat {
    if recs == [] then 0 else multiset(recs[0].gids)[gid] + Memberships(recs[1..], gid)
  }

  lemma {:induction false} RosterLength(recs: seq<Rec>, gid: nat)
    ensures |Roster(recs, gid)| == Memberships(recs, gid)
  {
    if recs != [] {
      RosterLength(recs[1..], gid);
      CountIsMultiplicity(recs[0].gids, gid);
    }
  }

  /** A request for 1 to 1000 groups is granted exactly if each has an id from 1 to 1000 and does not come to more than
      255 memberships, repetitions counted; the new client is then the newest. */
  lemma JoinRegisters(s: State, cfd: int, gids: seq<nat>)
    ensures Enabled(s, Joins(cfd, gids))
    ensures Step(s, Joins(cfd, gids)) ==
      if 0 < |gids| <= 1000 && (forall g :: g in gids ==>
        1 <= g <= 1000 && Memberships(s.recs, g) + multiset(gids)[g] <= 255)
      then s.(recs := [Rec(s.nextId, cfd, gids)] + s.recs, nextId := s.nextId + 1)
      else s
  {
    forall g | g in gids
      ensures |Roster(s.recs, g)| + Count(gids, g) == Memberships(s.recs, g) + multiset(gids)[g]
    {
      RosterLength(s.recs, g);
      CountIsMultiplicity(gids, g);
    }
    hide Roster, Count, Memberships;
  }

  // ---------------------------------------------------------------------------------------------
  // New jobs
  // ---------------------------------------------------------------------------------------------

  /** Places in the order of registration, newest first. */
  predicate Ascending(pos: seq<nat>) { forall a, b :: 0 <= a < b < |pos| ==> pos[a] < pos[b] }

  /** Exactly the members of a group that are not busy. */
  ghost predicate AllFree(s: State, gid: int, pos: seq<nat>) {
    Ascending(pos) && forall i: nat :: i in pos <==> FreeMember(s, gid, i)
  }

  function ClientsAt(recs: seq<Rec>, pos: seq<nat>): seq<nat>
    requires forall i :: 0 <= i < |pos| ==> pos[i] < |recs|
  {
    seq(|pos|, i requires 0 <= i < |pos| => recs[pos[i]].id)
  }

  lemma {:induction false} ReserveOfTimes(n: nat, id: nat, rest: seq<nat>, busy: set<nat>)
    ensures Reserve(Times(n, id) + rest, busy)
         == if n > 0 && id !in busy then [id] + Reserve(rest, busy + {id}) else Reserve(rest, busy)
  {
    if n == 0 {
      assert Times(n, id) + rest == rest;
    } else {
      assert (Times(n, id) + rest)[1..] == Times(n - 1, id) + rest;
      if id in busy { ReserveOfTimes(n - 1, id, rest, busy); } else { ReserveOfTimes(n - 1, id, rest, busy + {id}); }
    }
  }

  /** The free members as a filter of the registrations. */
  function FreePlaces(recs: seq<Rec>, busy: set<nat>, gid: nat, at: nat): (pos: seq<nat>)
    requires at <= |recs|
    ensures forall i :: 0 <= i < |pos| ==> at <= pos[i] < |recs|
    decreases |recs| - at
  {
    if at == |recs| then []
    else
      var rest := FreePlaces(recs, busy, gid, at + 1);
      if gid in recs[at].gids && recs[at].id !in busy then [at] + rest else rest
  }

  lemma {:induction false} FreePlacesAre(recs: seq<Rec>, busy: set<nat>, gid: nat, at: nat)
    requires at <= |recs|
    ensures Ascending(FreePlaces(recs, busy, gid, at))
    ensures forall i: nat ::
      i in FreePlaces(recs, busy, gid, at) <==> at <= i < |recs| && gid in recs[i].gids && recs[i].id !in busy
    decreases |recs| - at
  {
    if at < |recs| { FreePlacesAre(recs, busy, gid, at + 1); }
  }

  lemma {:induction false} BusyElsewhere(recs: seq<Rec>, busy: set<nat>, id: nat, gid: nat, at: nat)
    requires at <= |recs| && forall i :: at <= i < |recs| ==> recs[i].id != id
    ensures FreePlaces(recs, busy + {id}, gid, at) == FreePlaces(recs, busy, gid, at)
    decreases |recs| - at
  {
    if at < |recs| { BusyElsewhere(recs, busy, id, gid, at + 1); }
  }

  lemma FilterStep(recs: seq<Rec>, busy: set<nat>, gid: nat, at: nat)
    requires at < |recs|
    ensures ClientsAt(recs, FreePlaces(recs, busy, gid, at))
         == (if gid in recs[at].gids && recs[at].id !in busy then [recs[at].id] else [])
          + ClientsAt(recs, FreePlaces(recs, busy, gid, at + 1))
  {
  }

  lemma RosterStep(recs: seq<Rec>, busy: set<nat>, gid: nat, at: nat)
    requires at < |recs|
    ensures Reserve(Roster(recs[at..], gid), busy)
         == if gid in recs[at].gids && recs[at].id !in busy
            then [recs[at].id] + Reserve(Roster(recs[at + 1..], gid), busy + {recs[at].id})
            else Reserve(Roster(recs[at + 1..], gid), busy)
  {
    var rec, rest := recs[at], recs[at + 1..];
    assert recs[at..][0] == rec && recs[at..][1..] == rest;
    CountIsMultiplicity(rec.gids, gid);
    ReserveOfTimes(Count(rec.gids, gid), rec.id, Roster(rest, gid), busy);
    hide Reserve, Count;
  }

  lemma {:induction false} ReserveIsFilter(recs: seq<Rec>, busy: set<nat>, gid: nat, at: nat)
    requires at <= |recs| && DistinctIds(recs)
    ensures Reserve(Roster(recs[at..], gid), busy) == ClientsAt(recs, FreePlaces(recs, busy, gid, at))
    decreases |recs| - at
  {
    if at == |recs| {
      assert recs[at..] == [];
    } else {
      RosterStep(recs, busy, gid, at);
      FilterStep(recs, busy, gid, at);
      BusyElsewhere(recs, busy, recs[at].id, gid, at + 1);
      hide Reserve, Roster, ClientsAt, FreePlaces, DistinctIds;
      if gid in recs[at].gids && recs[at].id !in busy {
        ReserveIsFilter(recs, busy + {recs[at].id}, gid, at + 1);
      } else {
        ReserveIsFilter(recs, busy, gid, at + 1);
        assert [] + ClientsAt(recs, FreePlaces(recs, busy, gid, at + 1))
            == ClientsAt(recs, FreePlaces(recs, busy, gid, at + 1));
      }
    }
  }

  /** A new job gets all members of its group that are not busy as workers, newest registration first; they are busy
      then, and if its file was divided they are sent the pieces 0, 1, 2, ... in that order. */
  lemma NewJobReserves(s: State, gid: int, jid: int, initial: int, divided: bool) returns (pos: seq<nat>)
    requires Inv(s) && 1 <= gid <= 1000 && jid >= 0 && jid !in s.jobs
    ensures Enabled(s, NewJob(gid, jid, initial, divided)) && AllFree(s, gid, pos)
    ensures forall a :: 0 <= a < |pos| ==> pos[a] < |s.recs|
    ensures var cs := ClientsAt(s.recs, pos); Step(s, NewJob(gid, jid, initial, divided)) == s.(
        jobs := s.jobs[jid := Job(initial, initial,
          seq(|cs|, a requires 0 <= a < |cs| => Worker(cs[a], if divided then a else 0)),
          if divided then |cs| else 0, [])],
        busy := s.busy + (set c | c in cs), jn := s.jn + (map c | c in cs :: jid),
        sent := s.sent + if divided then seq(|cs|, a requires 0 <= a < |cs| => Task(cs[a], jid, a)) else [])
  {
    pos := FreePlaces(s.recs, s.busy, gid, 0);
    FreePlacesAre(s.recs, s.busy, gid, 0);
    ReserveIsFilter(s.recs, s.busy, gid, 0);
    assert s.recs[0..] == s.recs;
    var cs := ClientsAt(s.recs, pos);
    hide Reserve, Roster, FreePlaces, ClientsAt, Inv;
    StartedAs(s, gid, jid, initial, divided, cs);
  }

  lemma StartedAs(s: State, gid: int, jid: int, initial: int, divided: bool, cs: seq<nat>)
    requires gid > 0 && jid >= 0 && Reserve(Roster(s.recs, gid), s.busy) == cs
    ensures StartJob(s, gid, jid, initial, divided) == s.(
        jobs := s.jobs[jid := Job(initial, initial,
          seq(|cs|, a requires 0 <= a < |cs| => Worker(cs[a], if divided then a else 0)),
          if divided then |cs| else 0, [])],
        busy := s.busy + (set c | c in cs), jn := s.jn + (map c | c in cs :: jid),
        sent := s.sent + if divided then seq(|cs|, a requires 0 <= a < |cs| => Task(cs[a], jid, a)) else [])
  {
    hide Reserve, Roster;
    var workers := seq(|cs|, a requires 0 <= a < |cs| => Worker(cs[a], if divided then a else 0));
    assert Enlist(cs, divided && cs != []) == workers;
    assert s.sent + [] == s.sent;
    assert Tasks(cs, jid) == seq(|cs|, a requires 0 <= a < |cs| => Task(cs[a], jid, a));
  }

  /** A job for a group id of 0 or less changes nothing. */
  lemma JobRefused(s: State, gid: int, jid: int, initial: int, divided: bool)
    requires gid <= 0 && jid !in s.jobs
    ensures Enabled(s, NewJob(gid, jid, initial, divided)) && Step(s, NewJob(gid, jid, initial, divided)) == s
  {
  }

  /** Its pieces are handed out exactly if the file was divided and somebody was free. */
  lemma HandedOutIff(s: State, gid: int, jid: int, initial: int, divided: bool)
    requires Inv(s) && Enabled(s, NewJob(gid, jid, initial, divided)) && gid > 0 && jid >= 0
    ensures jid in Step(s, NewJob(gid, jid, initial, divided)).jobs
    ensures Step(s, NewJob(gid, jid, initial, divided)).jobs[jid].pieces > 0
      <==> divided && exists i :: 0 <= i < |s.recs| && gid in s.recs[i].gids && s.recs[i].id !in s.busy
  {
    var pos := NewJobReserves(s, gid, jid, initial, divided);
    hide Step, Enabled, Inv;
    assert |ClientsAt(s.recs, pos)| == |pos|;
    if i :| 0 <= i < |s.recs| && gid in s.recs[i].gids && s.recs[i].id !in s.busy {
      assert FreeMember(s, gid, i) && i in pos;
    }
    if |pos| > 0 { assert pos[0] in pos && FreeMember(s, gid, pos[0]); }
  }

  // ---------------------------------------------------------------------------------------------
  // Every registered client asked for a group
  // ---------------------------------------------------------------------------------------------

  predicate Asking(s: State) { forall i :: 0 <= i < |s.recs| ==> s.recs[i].gids != [] }

  lemma StepKeepsAsking(s: State, e: Event)
    requires Asking(s) && Enabled(s, e)
    ensures Asking(Step(s, e))
  {
    hide Holding, Oldest, Roster, Reserve, FirstFree, CanReassign;
    if e.Disconnect? && Newest(s.recs, e.cfd).Some? {
      var id := Newest(s.recs, e.cfd).value.id;
      LeaveMembers(s.recs, id);
      var recs := Leave(s.recs, id);
      forall i | 0 <= i < |recs|
        ensures recs[i].gids != []
      {
        assert recs[i] in recs;
      }
    }
    hide Newest, Leave;
  }

  lemma {:induction false} RunKeepsAsking(s: State, events: seq<Event>)
    requires Asking(s) && Run(s, events).Some?
    ensures Asking(Run(s, events).value)
    decreases |events|
  {
    hide Asking, Step, Enabled;
    if events != [] {
      StepKeepsAsking(s, events[0]);
      RunKeepsAsking(Step(s, events[0]), events[1..]);
    }
  }

  /** So the last group of a registered client is always there to be looked through. */
  lemma ReachableAsking(s: State)
    requires Reachable(s)
    ensures Asking(s)
  {
    var s0, events :| Init(s0) && Run(s0, events) == Some(s);
    RunKeepsAsking(s0, events);
  }
}
