/** What the registry of server/src/groups.c holds, on values: the registrations, newest first, from which every
    group list and every hash bucket is determined. */
module RegistrySpec {
  import opened Wrappers

  const MAX_MULTICAST_GROUPS: nat := 1000
  const MAX_CLIENTS_PER_MULTICAST_GROUP: nat := 255
  const MAX_HASHMAP_SIZE: nat := 255

  predicate ValidGid(gid: nat) { 1 <= gid <= MAX_MULTICAST_GROUPS }

  /** `cfd % max_hashmap_size`, where C converts the int to a 32-bit unsigned first. */
  function Hash(cfd: int): (h: nat)
    ensures h < MAX_HASHMAP_SIZE
  {
    (cfd % 0x1_0000_0000) % MAX_HASHMAP_SIZE
  }

  /** A descriptor's bucket is its remainder by 255, also that of a negative one as an unsigned number. */
  lemma HashIs(cfd: int)
    requires -0x8000_0000 <= cfd < 0x8000_0000
    ensures Hash(cfd) == if cfd >= 0 then cfd % 255 else (cfd + 4294967296) % 255
  {
  }

  /** One registration: its number, its descriptor and the groups it asked for. */
  datatype Rec = Rec(id: nat, cfd: int, gids: seq<nat>)

  function Count(gids: seq<nat>, gid: nat): nat {
    if gids == [] then 0 else (if gids[0] == gid then 1 else 0) + Count(gids[1..], gid)
  }

  function Times(n: nat, id: nat): seq<nat> { seq(n, _ => id) }

  /** The members of a group in list order: newest registration first, once per occurrence in its request. */
  function Roster(recs: seq<Rec>, gid: nat): seq<nat> {
    if recs == [] then [] else Times(Count(recs[0].gids, gid), recs[0].id) + Roster(recs[1..], gid)
  }

  predicate Fits(recs: seq<Rec>, gids: seq<nat>) {
    && gids != []
    && forall gid :: gid in gids ==>
         ValidGid(gid) && |Roster(recs, gid)| + Count(gids, gid) <= MAX_CLIENTS_PER_MULTICAST_GROUP
  }

  function Join(recs: seq<Rec>, rec: Rec): seq<Rec> {
    if Fits(recs, rec.gids) then [rec] + recs else recs
  }

  function Leave(recs: seq<Rec>, id: nat): seq<Rec> {
    if recs == [] then []
    else if recs[0].id == id then Leave(recs[1..], id)
    else [recs[0]] + Leave(recs[1..], id)
  }

  function Drop(ids: seq<nat>, id: nat): seq<nat> {
    if ids == [] then []
    else if ids[0] == id then Drop(ids[1..], id)
    else [ids[0]] + Drop(ids[1..], id)
  }

  lemma {:induction false} DropAppend(s: seq<nat>, t: seq<nat>, id: nat)
    ensures Drop(s + t, id) == Drop(s, id) + Drop(t, id)
  {
    if s == [] {
      assert s + t == t;
    } else {
      assert (s + t)[1..] == s[1..] + t;
      DropAppend(s[1..], t, id);
    }
  }

  lemma {:induction false} DropTimes(n: nat, other: nat, id: nat)
    ensures Drop(Times(n, other), id) == if other == id then [] else Times(n, other)
  {
    if n > 0 {
      assert Times(n, other)[1..] == Times(n - 1, other);
      DropTimes(n - 1, other, id);
    }
  }

  /** Leaving filters every group list: the others keep their places. */
  lemma {:induction false} LeaveFilters(recs: seq<Rec>, id: nat, gid: nat)
    ensures Roster(Leave(recs, id), gid) == Drop(Roster(recs, gid), id)
  {
    if recs != [] {
      LeaveFilters(recs[1..], id, gid);
      DropTimes(Count(recs[0].gids, gid), recs[0].id, id);
      DropAppend(Times(Count(recs[0].gids, gid), recs[0].id), Roster(recs[1..], gid), id);
      if recs[0].id != id { assert ([recs[0]] + Leave(recs[1..], id))[1..] == Leave(recs[1..], id); }
    }
  }

  lemma {:induction false} LeaveAbsent(recs: seq<Rec>, id: nat)
    requires forall r :: r in recs ==> r.id != id
    ensures Leave(recs, id) == recs
  {
    if recs != [] { LeaveAbsent(recs[1..], id); }
  }

  lemma {:induction false} LeaveMembers(recs: seq<Rec>, id: nat)
    ensures forall r :: r in Leave(recs, id) <==> r in recs && r.id != id
  {
    if recs != [] { LeaveMembers(recs[1..], id); }
  }

  lemma {:induction false} LeaveCommutes(recs: seq<Rec>, id: nat, other: nat)
    ensures Leave(Leave(recs, id), other) == Leave(Leave(recs, other), id)
  {
    if recs != [] {
      LeaveCommutes(recs[1..], id, other);
      if recs[0].id != id { assert Leave(recs, id)[1..] == Leave(recs[1..], id); }
      if recs[0].id != other { assert Leave(recs, other)[1..] == Leave(recs[1..], other); }
    }
  }

  // ---------------------------------------------------------------------------------------------
  // Histories
  // ---------------------------------------------------------------------------------------------

  /** A registration that succeeded, or a removal. */
  datatype Change = Added(rec: Rec) | Removed(id: nat)

  function Replay(recs: seq<Rec>, changes: seq<Change>): seq<Rec>
    decreases |changes|
  {
    if changes == [] then recs
    else match changes[0]
      case Added(rec) => Replay([rec] + recs, changes[1..])
      case Removed(id) => Replay(Leave(recs, id), changes[1..])
  }

  predicate Mentions(changes: seq<Change>, id: nat) {
    exists i :: 0 <= i < |changes| && (match changes[i] case Added(rec) => rec.id == id case Removed(x) => x == id)
  }

  lemma {:induction false} LeaveLater(recs: seq<Rec>, changes: seq<Change>, id: nat)
    requires !Mentions(changes, id)
    ensures Leave(Replay(recs, changes), id) == Replay(Leave(recs, id), changes)
    decreases |changes|
  {
    if changes != [] {
      assert !Mentions(changes[1..], id);
      assert match changes[0] case Added(rec) => rec.id != id case Removed(x) => x != id;
      match changes[0]
      case Added(rec) =>
        LeaveLater([rec] + recs, changes[1..], id);
        assert ([rec] + recs)[1..] == recs;
      case Removed(x) =>
        LeaveLater(Leave(recs, x), changes[1..], id);
        LeaveCommutes(recs, x, id);
    }
  }

  /** Removing a client undoes its registration, whatever other clients did in between: every group list is then as
      if the client had never joined. */
  lemma LeaveUndoesJoin(recs: seq<Rec>, rec: Rec, changes: seq<Change>, gid: nat)
    requires (forall r :: r in recs ==> r.id != rec.id) && !Mentions(changes, rec.id)
    ensures Leave(Replay([rec] + recs, changes), rec.id) == Replay(recs, changes)
    ensures Roster(Replay(recs, changes), gid) == Drop(Roster(Replay([rec] + recs, changes), gid), rec.id)
  {
    LeaveLater([rec] + recs, changes, rec.id);
    assert ([rec] + recs)[1..] == recs;
    LeaveAbsent(recs, rec.id);
    LeaveFilters(Replay([rec] + recs, changes), rec.id, gid);
  }

  // ---------------------------------------------------------------------------------------------
  // Buckets
  // ---------------------------------------------------------------------------------------------

  /** The newest registration of a descriptor. */
  function Newest(recs: seq<Rec>, cfd: int): Option<Rec> {
    if recs == [] then None
    else if recs[0].cfd == cfd then Some(recs[0])
    else Newest(recs[1..], cfd)
  }

  function Bucket(recs: seq<Rec>, b: nat): seq<Rec> {
    if recs == [] then []
    else if Hash(recs[0].cfd) == b then [recs[0]] + Bucket(recs[1..], b)
    else Bucket(recs[1..], b)
  }

  /** Looking only in the descriptor's bucket finds the same registration as looking through all of them. */
  lemma {:induction false} BucketAgrees(recs: seq<Rec>, cfd: int)
    ensures Newest(Bucket(recs, Hash(cfd)), cfd) == Newest(recs, cfd)
  {
    if recs != [] {
      BucketAgrees(recs[1..], cfd);
      if Hash(recs[0].cfd) == Hash(cfd) {
        assert Bucket(recs, Hash(cfd))[1..] == Bucket(recs[1..], Hash(cfd));
      }
    }
  }

  /** The buckets 0 to n - 1, one after the other. */
  function Buckets(recs: seq<Rec>, n: nat): seq<Rec> {
    if n == 0 then [] else Buckets(recs, n - 1) + Bucket(recs, n - 1)
  }

  lemma BucketsNone(recs: seq<Rec>)
    ensures Buckets(recs, 0) == []
  {
  }

  lemma BucketsMore(recs: seq<Rec>, n: nat)
    ensures Buckets(recs, n + 1) == Buckets(recs, n) + Bucket(recs, n)
  {
  }

  lemma BucketOfCons(recs: seq<Rec>, b: nat)
    requires recs != []
    ensures multiset(Bucket(recs, b)) ==
      (if Hash(recs[0].cfd) == b then multiset{recs[0]} else multiset{}) + multiset(Bucket(recs[1..], b))
  {
  }

  lemma {:induction false} BucketsOfCons(recs: seq<Rec>, n: nat)
    requires recs != []
    ensures multiset(Buckets(recs, n)) ==
      (if Hash(recs[0].cfd) < n then multiset{recs[0]} else multiset{}) + multiset(Buckets(recs[1..], n))
  {
    if n > 0 {
      hide Hash, Bucket;
      BucketsOfCons(recs, n - 1);
      BucketOfCons(recs, n - 1);
    }
  }

  /** Going through all buckets meets every registration exactly once. */
  lemma {:induction false} BucketsPartition(recs: seq<Rec>)
    ensures multiset(Buckets(recs, MAX_HASHMAP_SIZE)) == multiset(recs)
  {
    hide Buckets;
    if recs == [] {
      NoBuckets(MAX_HASHMAP_SIZE);
    } else {
      BucketsPartition(recs[1..]);
      BucketsOfCons(recs, MAX_HASHMAP_SIZE);
      assert recs == [recs[0]] + recs[1..];
    }
  }

  lemma {:induction false} NoBuckets(n: nat)
    ensures Buckets([], n) == []
  {
    if n > 0 { NoBuckets(n - 1); }
  }
}
