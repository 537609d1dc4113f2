/** The client registry of server/src/groups.c: 1000 multicast group lists and 255 hash buckets of intrusive doubly
    linked lists, threaded together by each client's chain of memberships. */
module Registry {
  import opened Wrappers
  import opened Structures
  import opened RegistrySpec

  datatype GroupHead = GroupHead(h: ClientGroup?, tc: nat)
  datatype InfoHead = InfoHead(h: ClientInfo?, tc: nat)

  // ---------------------------------------------------------------------------------------------
  // Sequences of records
  // ---------------------------------------------------------------------------------------------

  /** The list without some of its nodes. */
  ghost function Without(s: seq<ClientGroup>, xs: set<ClientGroup>): seq<ClientGroup> {
    if s == [] then []
    else if s[0] in xs then Without(s[1..], xs)
    else [s[0]] + Without(s[1..], xs)
  }

  lemma {:induction false} WithoutAppend(s: seq<ClientGroup>, t: seq<ClientGroup>, xs: set<ClientGroup>)
    ensures Without(s + t, xs) == Without(s, xs) + Without(t, xs)
  {
    if s == [] {
      assert s + t == t;
    } else {
      assert (s + t)[1..] == s[1..] + t;
      WithoutAppend(s[1..], t, xs);
    }
  }

  lemma {:induction false} WithoutIn(s: seq<ClientGroup>, xs: set<ClientGroup>, x: ClientGroup)
    ensures x in Without(s, xs) <==> x in s && x !in xs
  {
    if s != [] { WithoutIn(s[1..], xs, x); }
  }

  lemma {:induction false} WithoutNone(s: seq<ClientGroup>, xs: set<ClientGroup>)
    requires forall x :: x in s ==> x !in xs
    ensures Without(s, xs) == s
  {
    if s != [] { WithoutNone(s[1..], xs); }
  }

  lemma {:induction false} WithoutAll(s: seq<ClientGroup>, xs: set<ClientGroup>)
    requires forall i :: 0 <= i < |s| ==> s[i] in xs
    ensures Without(s, xs) == []
  {
    if s != [] { WithoutAll(s[1..], xs); }
  }

  lemma {:induction false} WithoutTwice(s: seq<ClientGroup>, xs: set<ClientGroup>, ys: set<ClientGroup>)
    ensures Without(Without(s, xs), ys) == Without(s, xs + ys)
  {
    if s != [] {
      WithoutTwice(s[1..], xs, ys);
      if s[0] !in xs { assert Without(s, xs)[1..] == Without(s[1..], xs); }
    }
  }

  lemma {:induction false} WithoutOne(s: seq<ClientGroup>, k: nat)
    requires k < |s| && forall i, j :: 0 <= i < j < |s| ==> s[i] != s[j]
    ensures Without(s, {s[k]}) == s[..k] + s[k + 1..]
  {
    if k == 0 {
      WithoutNone(s[1..], {s[0]});
    } else {
      WithoutOne(s[1..], k - 1);
      assert s[1..][k..] == s[k + 1..] && [s[0]] + s[1..][..k - 1] == s[..k];
    }
  }

  ghost function Elements(s: seq<ClientGroup>): set<ClientGroup> { set x | x in s }

  /** The clients but one. */
  ghost function Minus(cs: seq<ClientInfo>, c: ClientInfo): seq<ClientInfo> {
    if cs == [] then []
    else if cs[0] == c then Minus(cs[1..], c)
    else [cs[0]] + Minus(cs[1..], c)
  }

  lemma {:induction false} MinusIn(cs: seq<ClientInfo>, c: ClientInfo, d: ClientInfo)
    ensures d in Minus(cs, c) <==> d in cs && d != c
  {
    if cs != [] { MinusIn(cs[1..], c, d); }
  }

  lemma {:induction false} MinusNone(cs: seq<ClientInfo>, c: ClientInfo)
    requires c !in cs
    ensures Minus(cs, c) == cs
  {
    if cs != [] { MinusNone(cs[1..], c); }
  }

  lemma {:induction false} MinusOne(cs: seq<ClientInfo>, k: nat)
    requires k < |cs| && forall i, j :: 0 <= i < j < |cs| ==> cs[i] != cs[j]
    ensures Minus(cs, cs[k]) == cs[..k] + cs[k + 1..]
  {
    if k == 0 {
      MinusNone(cs[1..], cs[0]);
    } else {
      MinusOne(cs[1..], k - 1);
      assert cs[1..][k..] == cs[k + 1..] && [cs[0]] + cs[1..][..k - 1] == cs[..k];
    }
  }

  /** The nodes of one group. */
  ghost function Of(s: seq<ClientGroup>, gid: nat): seq<ClientGroup> {
    if s == [] then []
    else if s[0].gid == gid then [s[0]] + Of(s[1..], gid)
    else Of(s[1..], gid)
  }

  lemma {:induction false} OfMembers(s: seq<ClientGroup>, gid: nat)
    ensures forall i :: 0 <= i < |Of(s, gid)| ==> Of(s, gid)[i] in s && Of(s, gid)[i].gid == gid
    ensures forall x :: x in s && x.gid == gid ==> x in Of(s, gid)
  {
    if s != [] { OfMembers(s[1..], gid); }
  }

  /** The registrations behind the nodes of a group list. */
  ghost function Ids(s: seq<ClientGroup>): seq<nat> { seq(|s|, i requires 0 <= i < |s| => s[i].ci.id) }

  lemma {:induction false} IdsWithout(s: seq<ClientGroup>, xs: set<ClientGroup>, id: nat)
    requires forall x :: x in s ==> (x in xs <==> x.ci.id == id)
    ensures Ids(Without(s, xs)) == Drop(Ids(s), id)
  {
    if s != [] {
      assert Ids(s)[1..] == Ids(s[1..]);
      IdsWithout(s[1..], xs, id);
      assert s[0] in s;
    }
  }

  ghost function Record(c: ClientInfo): Rec { Rec(c.id, c.cfd, c.gids) }

  ghost function Recs(cs: seq<ClientInfo>): seq<Rec> { seq(|cs|, i requires 0 <= i < |cs| => Record(cs[i])) }

  lemma RecsCons(c: ClientInfo, cs: seq<ClientInfo>)
    ensures Recs([c] + cs) == [Record(c)] + Recs(cs)
  {
  }

  lemma {:induction false} RecsMinus(cs: seq<ClientInfo>, c: ClientInfo)
    requires forall d :: d in cs && d != c ==> d.id != c.id
    ensures Recs(Minus(cs, c)) == Leave(Recs(cs), c.id)
  {
    if cs != [] {
      assert Recs(cs)[1..] == Recs(cs[1..]);
      RecsMinus(cs[1..], c);
      assert cs[0] in cs;
    }
  }

  /** The clients of one bucket, newest first. */
  ghost function Row(cs: seq<ClientInfo>, b: nat): seq<ClientInfo> {
    if cs == [] then []
    else if Hash(cs[0].cfd) == b then [cs[0]] + Row(cs[1..], b)
    else Row(cs[1..], b)
  }

  lemma {:induction false} RowMembers(cs: seq<ClientInfo>, b: nat)
    ensures forall i :: 0 <= i < |Row(cs, b)| ==> Row(cs, b)[i] in cs && Hash(Row(cs, b)[i].cfd) == b
    ensures forall c :: c in cs && Hash(c.cfd) == b ==> c in Row(cs, b)
  {
    if cs != [] { RowMembers(cs[1..], b); }
  }

  lemma RecsAppend(cs: seq<ClientInfo>, ds: seq<ClientInfo>)
    ensures Recs(cs + ds) == Recs(cs) + Recs(ds)
  {
  }

  lemma RowCons(c: ClientInfo, cs: seq<ClientInfo>, b: nat)
    ensures Row([c] + cs, b) == if Hash(c.cfd) == b then [c] + Row(cs, b) else Row(cs, b)
  {
    assert ([c] + cs)[1..] == cs;
  }

  lemma {:induction false} RowMinus(cs: seq<ClientInfo>, c: ClientInfo, b: nat)
    ensures Row(Minus(cs, c), b) == Minus(Row(cs, b), c)
  {
    if cs != [] {
      RowMinus(cs[1..], c, b);
      if cs[0] != c { assert Minus(cs, c)[1..] == Minus(cs[1..], c); }
      if Hash(cs[0].cfd) == b { assert Row(cs, b)[1..] == Row(cs[1..], b); }
    }
  }

  lemma {:induction false} RowRecs(cs: seq<ClientInfo>, b: nat)
    ensures Recs(Row(cs, b)) == Bucket(Recs(cs), b)
  {
    if cs != [] {
      assert Recs(cs)[1..] == Recs(cs[1..]);
      RowRecs(cs[1..], b);
    }
  }

  // ---------------------------------------------------------------------------------------------
  // Chains of memberships
  // ---------------------------------------------------------------------------------------------

  /** A client's chain of memberships, linked by ncg. */
  ghost predicate Chained(cs: seq<ClientGroup>) {
    && (forall i {:trigger cs[i].rest} :: 0 <= i < |cs| ==> cs[i].rest == cs[i + 1..])
    && (forall i {:trigger cs[i].ncg} :: 0 <= i < |cs| ==> cs[i].ncg == if i == |cs| - 1 then null else cs[i + 1])
  }

  /** The chain of a client that asked for these groups: the last one joined comes first. */
  ghost predicate ChainFor(cs: seq<ClientGroup>, ci: ClientInfo, gids: seq<nat>) {
    && Chained(cs) && |cs| == |gids|
    && forall i {:trigger cs[i]} :: 0 <= i < |cs| ==> cs[i].ci == ci && cs[i].gid == gids[|cs| - 1 - i]
  }

  ghost predicate Listed(lists: seq<seq<ClientGroup>>, x: ClientGroup) {
    ValidGid(x.gid) && x.gid <= |lists| && x in lists[x.gid - 1]
  }

  lemma ChainDistinct(cs: seq<ClientGroup>, i: nat, j: nat)
    requires Chained(cs) && i < j < |cs|
    ensures cs[i] != cs[j]
  {
    assert |cs[i].rest| == |cs| - i - 1 && |cs[j].rest| == |cs| - j - 1;
  }

  lemma {:induction false} CountAppend(gids: seq<nat>, x: nat, gid: nat)
    ensures Count(gids + [x], gid) == Count(gids, gid) + (if x == gid then 1 else 0)
  {
    if gids == [] {
      assert [] + [x] == [x];
    } else {
      assert (gids + [x])[1..] == gids[1..] + [x];
      CountAppend(gids[1..], x, gid);
    }
  }

  /** The chain contributes one node to a group for each time the group was asked for. */
  lemma {:induction false} ChainShare(cs: seq<ClientGroup>, ci: ClientInfo, gids: seq<nat>, gid: nat)
    requires ChainFor(cs, ci, gids)
    ensures |Of(cs, gid)| == Count(gids, gid) && Ids(Of(cs, gid)) == Times(Count(gids, gid), ci.id)
  {
    if cs != [] {
      var last := |gids| - 1;
      assert forall i {:trigger cs[1..][i]} :: 0 <= i < |cs| - 1 ==> cs[1..][i] == cs[i + 1];
      ChainShare(cs[1..], ci, gids[..last], gid);
      assert gids == gids[..last] + [gids[last]];
      CountAppend(gids[..last], gids[last], gid);
      assert cs[0].ci == ci;
      if cs[0].gid == gid {
        assert Ids(Of(cs, gid)) == [ci.id] + Ids(Of(cs[1..], gid));
      }
    }
  }

  lemma StillListed(start: seq<seq<ClientGroup>>, now: seq<seq<ClientGroup>>, cs: seq<ClientGroup>, k: nat)
    requires |now| == |start| && k < |cs| && Chained(cs) && Listed(start, cs[k])
    requires forall g :: 0 <= g < |now| ==> now[g] == Without(start[g], Elements(cs[..k]))
    ensures Listed(now, cs[k])
  {
    WithoutIn(start[cs[k].gid - 1], Elements(cs[..k]), cs[k]);
    forall i: nat | i < k
      ensures cs[i] != cs[k]
    {
      ChainDistinct(cs, i, k);
    }
  }

  lemma NextRemoved(start: seq<seq<ClientGroup>>, was: seq<seq<ClientGroup>>, now: seq<seq<ClientGroup>>,
                    cs: seq<ClientGroup>, k: nat)
    requires |was| == |start| && k < |cs| && ValidGid(cs[k].gid) && cs[k].gid <= |was|
    requires forall g :: 0 <= g < |was| ==> was[g] == Without(start[g], Elements(cs[..k]))
    requires forall g, x :: 0 <= g < |was| && x in was[g] ==> x.gid == g + 1
    requires now == was[cs[k].gid - 1 := Without(was[cs[k].gid - 1], {cs[k]})]
    ensures forall g :: 0 <= g < |now| ==> now[g] == Without(start[g], Elements(cs[..k + 1]))
  {
    assert Elements(cs[..k + 1]) == Elements(cs[..k]) + {cs[k]};
    forall g | 0 <= g < |now|
      ensures now[g] == Without(start[g], Elements(cs[..k + 1]))
    {
      WithoutTwice(start[g], Elements(cs[..k]), {cs[k]});
      if g != cs[k].gid - 1 { WithoutNone(was[g], {cs[k]}); }
    }
  }

  // ---------------------------------------------------------------------------------------------
  // Pointer surgery
  // ---------------------------------------------------------------------------------------------

  /** A doubly linked group list: head pointer, both link directions, no node twice. */
  ghost predicate Threaded(h: ClientGroup?, s: seq<ClientGroup>)
    reads s`p, s`n
  {
    && h == (if s == [] then null else s[0])
    && (forall i {:trigger s[i].p} :: 0 <= i < |s| ==> s[i].p == if i == 0 then null else s[i - 1])
    && (forall i {:trigger s[i].n} :: 0 <= i < |s| ==> s[i].n == if i == |s| - 1 then null else s[i + 1])
    && (forall i, j :: 0 <= i < j < |s| ==> s[i] != s[j])
  }

  method Splice(me: ClientGroup, h: ClientGroup?, ghost s: seq<ClientGroup>, ghost k: nat) returns (h': ClientGroup?)
    requires k < |s| && s[k] == me && Threaded(h, s)
    modifies s`p, s`n
    ensures Threaded(h', s[..k] + s[k + 1..])
  {
    h' := h;
    if me.p != null {
      me.p.n := me.n;
    } else {
      h' := me.n;
    }
    if me.n != null {
      me.n.p := me.p;
    }
  }

  method PutFirst(node: ClientGroup, h: ClientGroup?, ghost s: seq<ClientGroup>)
    requires Threaded(h, s) && node !in s && node.p == null && node.n == h
    modifies s`p
    ensures Threaded(node, [node] + s)
  {
    if h != null {
      h.p := node;
    }
  }

  /** The same for a hash bucket. */
  ghost predicate ThreadedInfo(h: ClientInfo?, s: seq<ClientInfo>)
    reads s`l, s`r
  {
    && h == (if s == [] then null else s[0])
    && (forall i {:trigger s[i].l} :: 0 <= i < |s| ==> s[i].l == if i == 0 then null else s[i - 1])
    && (forall i {:trigger s[i].r} :: 0 <= i < |s| ==> s[i].r == if i == |s| - 1 then null else s[i + 1])
    && (forall i, j :: 0 <= i < j < |s| ==> s[i] != s[j])
  }

  method SpliceInfo(ci: ClientInfo, h: ClientInfo?, ghost s: seq<ClientInfo>, ghost k: nat) returns (h': ClientInfo?)
    requires k < |s| && s[k] == ci && ThreadedInfo(h, s)
    modifies s`l, s`r
    ensures ThreadedInfo(h', s[..k] + s[k + 1..])
  {
    h' := h;
    if ci.l != null {
      ci.l.r := ci.r;
    } else {
      h' := ci.r;
    }
    if ci.r != null {
      ci.r.l := ci.l;
    }
  }

  method PutFirstInfo(nci: ClientInfo, h: ClientInfo?, ghost s: seq<ClientInfo>)
    requires ThreadedInfo(h, s) && nci !in s && nci.l == null && nci.r == h
    modifies s`l
    ensures ThreadedInfo(nci, [nci] + s)
  {
    if h != null {
      h.l := nci;
    }
  }

  // ---------------------------------------------------------------------------------------------
  // The registry
  // ---------------------------------------------------------------------------------------------

  /** Each group has room for its share of the request at the moment its turn comes. */
  ghost predicate Admits(lists: seq<seq<ClientGroup>>, gids: seq<nat>) {
    gids == [] ||
    var last := gids[|gids| - 1];
    && Admits(lists, gids[..|gids| - 1])
    && ValidGid(last) && last <= |lists| && |lists[last - 1]| + Count(gids, last) <= MAX_CLIENTS_PER_MULTICAST_GROUP
  }

  lemma {:induction false} AdmitsPrefix(lists: seq<seq<ClientGroup>>, gids: seq<nat>, at: nat)
    requires at <= |gids| && Admits(lists, gids)
    ensures Admits(lists, gids[..at])
  {
    if at == |gids| {
      assert gids[..at] == gids;
    } else {
      assert gids[..|gids| - 1][..at] == gids[..at];
      AdmitsPrefix(lists, gids[..|gids| - 1], at);
    }
  }

  /** Every client's chain is the memberships it asked for, all of them listed; and a listed node belongs to a
      registered client and is on that client's chain. */
  ghost predicate Members(lists: seq<seq<ClientGroup>>, clients: seq<ClientInfo>,
                          chains: map<ClientInfo, seq<ClientGroup>>)
  {
    && (forall c :: c in clients ==> c in chains && c.gids != [] && ChainFor(chains[c], c, c.gids))
    && (forall c, x :: c in clients && x in chains[c] ==> x.ci == c && Listed(lists, x))
    && (forall g, x :: 0 <= g < |lists| && x in lists[g] ==> x.ci in clients && x in chains[x.ci])
  }

  lemma JoinKeepsMembers(was: seq<seq<ClientGroup>>, now: seq<seq<ClientGroup>>, clients: seq<ClientInfo>,
                         chains: map<ClientInfo, seq<ClientGroup>>, nci: ClientInfo, cs: seq<ClientGroup>)
    requires Members(was, clients, chains) && |now| == |was| == MAX_MULTICAST_GROUPS && nci !in clients
    requires ChainFor(cs, nci, nci.gids) && nci.gids != [] && forall gid :: gid in nci.gids ==> ValidGid(gid)
    requires Joined(was, now, cs)
    ensures Members(now, [nci] + clients, chains[nci := cs])
  {
    JoinedListed(was, now, cs, nci, nci.gids);
    forall g, x | 0 <= g < |now| && x in now[g]
      ensures x.ci in [nci] + clients && x in chains[nci := cs][x.ci]
    {
      if x in was[g] { assert x.ci in clients; }
    }
  }

  /** The buckets hold all registered clients, newest first; registrations are numbered upwards. */
  ghost predicate Indexed(rows: seq<seq<ClientInfo>>, clients: seq<ClientInfo>, infos: set<ClientInfo>, nextId: nat) {
    && |rows| == MAX_HASHMAP_SIZE
    && (forall i, j :: 0 <= i < j < |clients| ==> clients[i].id > clients[j].id)
    && (forall c :: c in clients ==> c.id < nextId && c in infos)
    && (forall b :: 0 <= b < |rows| ==> rows[b] == Row(clients, b))
  }

  /** Each group list is its roster: who asked for the group, newest registration first. */
  ghost predicate Rosters(lists: seq<seq<ClientGroup>>, clients: seq<ClientInfo>) {
    forall g :: 0 <= g < |lists| ==> Ids(lists[g]) == Roster(Recs(clients), g + 1)
  }

  lemma JoinKeepsIndex(rows: seq<seq<ClientInfo>>, rows': seq<seq<ClientInfo>>, clients: seq<ClientInfo>,
                       infos: set<ClientInfo>, nci: ClientInfo)
    requires Indexed(rows, clients, infos, nci.id)
    requires rows' == rows[Hash(nci.cfd) := [nci] + rows[Hash(nci.cfd)]]
    ensures Indexed(rows', [nci] + clients, infos + {nci}, nci.id + 1)
  {
    forall b | 0 <= b < |rows'|
      ensures rows'[b] == Row([nci] + clients, b)
    {
      RowCons(nci, clients, b);
    }
  }

  lemma JoinKeepsRosters(was: seq<seq<ClientGroup>>, now: seq<seq<ClientGroup>>, cs: seq<ClientGroup>, nci: ClientInfo,
                         clients: seq<ClientInfo>)
    requires ChainFor(cs, nci, nci.gids) && Joined(was, now, cs) && Rosters(was, clients)
    ensures Rosters(now, [nci] + clients)
  {
    assert Recs([nci] + clients) == [Record(nci)] + Recs(clients);
    forall g | 0 <= g < |now|
      ensures Ids(now[g]) == Roster(Recs([nci] + clients), g + 1)
    {
      ChainShare(cs, nci, nci.gids, g + 1);
      assert Ids(now[g]) == Ids(Of(cs, g + 1)) + Ids(was[g]);
      assert ([Record(nci)] + Recs(clients))[1..] == Recs(clients);
    }
  }

  /** Joining puts the client's nodes in front of the groups it asked for. */
  ghost predicate Joined(was: seq<seq<ClientGroup>>, now: seq<seq<ClientGroup>>, cs: seq<ClientGroup>) {
    |now| == |was| && forall g :: 0 <= g < |now| ==> now[g] == Of(cs, g + 1) + was[g]
  }

  class Registry {
    const groups: array<GroupHead>   // multicast_groups
    const buckets: array<InfoHead>   // client_hash_map
    ghost var lists: seq<seq<ClientGroup>>  // the nodes of each group list, head first
    ghost var nodes: set<ClientGroup>       // all nodes ever listed
    ghost var infos: set<ClientInfo>        // all clients ever registered
    ghost var clients: seq<ClientInfo>      // the registered clients, newest first
    ghost var rows: seq<seq<ClientInfo>>    // the clients of each bucket, head first
    ghost var chains: map<ClientInfo, seq<ClientGroup>>  // the memberships of each client, last joined first
    ghost var nextId: nat

    /** A group list is well formed, holds nodes of that group only, and tc is its length. */
    ghost predicate GroupOk(g: nat)
      requires g < groups.Length && g < |lists|
      reads `lists, groups, lists[g]`p, lists[g]`n
    {
      && Threaded(groups[g].h, lists[g])
      && groups[g].tc == |lists[g]| <= MAX_CLIENTS_PER_MULTICAST_GROUP
      && forall x :: x in lists[g] ==> x.gid == g + 1
    }

    ghost predicate Lists()
      reads `lists, `nodes, groups, nodes`p, nodes`n
    {
      && groups.Length == MAX_MULTICAST_GROUPS == |lists|
      && (forall g, x :: 0 <= g < |lists| && x in lists[g] ==> x in nodes)
      && (forall g :: 0 <= g < |lists| ==> GroupOk(g))
    }

    lemma Homes()
      requires Lists()
      ensures forall g, x :: 0 <= g < |lists| && x in lists[g] ==> x.gid == g + 1
    {
      forall g, x | 0 <= g < |lists| && x in lists[g]
        ensures x.gid == g + 1
      {
        assert GroupOk(g);
      }
    }

    /** Takes one node out of its group list. */
    method Unlink(me: ClientGroup)
      requires Lists() && ValidGid(me.gid) && me in lists[me.gid - 1]
      modifies `lists, groups, nodes`p, nodes`n
      ensures Lists()
      ensures lists == old(lists)[me.gid - 1 := Without(old(lists)[me.gid - 1], {me})]
    {
      hide Without;
      var g := me.gid - 1;
      ghost var was, s := lists, lists[g];
      assert GroupOk(g);
      ghost var k :| 0 <= k < |s| && s[k] == me;
      WithoutOne(s, k);
      var h := Splice(me, groups[g].h, s, k);
      groups[g] := GroupHead(h, groups[g].tc - 1);
      lists := was[g := s[..k] + s[k + 1..]];
      forall f | 0 <= f < |was|
        ensures GroupOk(f)
      {
        assert old(GroupOk(f));
        if f != g {
          assert forall x :: x in was[f] ==> x !in s;
          assert forall x :: x in was[f] ==> x.p == old(x.p) && x.n == old(x.n);
        }
      }
    }

    /** `server_del_client_from_groups`: walks the chain and takes every node of it out of its group list. */
    method DelClientFromGroups(cg: ClientGroup?)
      requires Lists() && Chained(Chain(cg)) && forall x :: x in Chain(cg) ==> Listed(lists, x)
      modifies `lists, groups, nodes`p, nodes`n
      ensures Lists()
      ensures Left(old(lists), lists, Chain(cg))
    {
      ghost var cs, k := Chain(cg), 0;
      var cur := cg;
      forall g | 0 <= g < |lists|
        ensures lists[g] == Without(lists[g], Elements(cs[..0]))
      {
        WithoutNone(lists[g], Elements(cs[..0]));
      }
      while cur != null
        invariant Lists() && 0 <= k <= |cs| && cur == (if k == |cs| then null else cs[k])
        invariant forall g :: 0 <= g < |lists| ==> lists[g] == Without(old(lists)[g], Elements(cs[..k]))
        decreases |cs| - k
      {
        var me := cur;
        cur := cur.ncg;
        StillListed(old(lists), lists, cs, k);
        Homes();
        ghost var was := lists;
        Unlink(me);
        NextRemoved(old(lists), was, lists, cs, k);
        k := k + 1;
      }
      assert cs[..k] == cs;
    }

    /** `server_add_client_to_one_group`: a new node at the head of the list, unless the group is invalid or full. */
    method AddClientToOneGroup(ci: ClientInfo, gid: nat, cg: ClientGroup?) returns (ncg: ClientGroup?)
      requires Lists()
      modifies `lists, `nodes, groups, nodes`p
      ensures Lists() && forall x :: x in nodes && x !in old(nodes) ==> fresh(x)
      ensures ncg == null <==> !(ValidGid(gid) && |old(lists)[gid - 1]| < MAX_CLIENTS_PER_MULTICAST_GROUP)
      ensures ncg == null ==> lists == old(lists)
      ensures ncg != null ==>
        && fresh(ncg) && ncg.ci == ci && ncg.gid == gid && ncg.ncg == cg && ncg.rest == Chain(cg)
        && var node: ClientGroup := ncg; lists == old(lists)[gid - 1 := [node] + old(lists)[gid - 1]]
    {
      if !ValidGid(gid) {
        return null;
      }
      var g := gid - 1;
      assert GroupOk(g);
      if groups[g].tc >= MAX_CLIENTS_PER_MULTICAST_GROUP {
        return null;
      }
      var node := new ClientGroup(groups[g].h, ci, cg, gid);
      PushNode(node, g);
      ncg := node;
    }

    /** A new node goes to the head of its group list. */
    method PushNode(node: ClientGroup, g: nat)
      requires Lists() && g < |lists| && node !in nodes && node.gid == g + 1
      requires node.p == null && node.n == groups[g].h && |lists[g]| < MAX_CLIENTS_PER_MULTICAST_GROUP
      modifies `lists, `nodes, groups, nodes`p
      ensures Lists() && nodes == old(nodes) + {node} && lists == old(lists)[g := [node] + old(lists)[g]]
    {
      ghost var was := lists;
      assert GroupOk(g);
      PutFirst(node, groups[g].h, was[g]);
      groups[g] := GroupHead(node, groups[g].tc + 1);
      lists := was[g := [node] + was[g]];
      nodes := nodes + {node};
      forall f | 0 <= f < |was|
        ensures GroupOk(f)
      {
        assert old(GroupOk(f));
        if f != g {
          assert forall x :: x in was[f] ==> x !in was[g];
          assert forall x :: x in was[f] ==> x.p == old(x.p) && x.n == old(x.n);
        }
      }
    }

    /** The call of `server_del_client_from_groups` when a later group of the request refuses. */
    method RollBackGroups(cg: ClientGroup?, ci: ClientInfo, ghost gids: seq<nat>, ghost start: seq<seq<ClientGroup>>)
      requires Lists() && |start| == |lists| && ChainFor(Chain(cg), ci, gids) && Admits(start, gids)
      requires Joined(start, lists, Chain(cg))
      requires forall g, x :: 0 <= g < |start| && x in start[g] ==> x !in Chain(cg)
      modifies `lists, groups, nodes`p, nodes`n
      ensures Lists() && lists == start
    {
      ChainGids(start, Chain(cg), ci, gids);
      RollBack(start, lists, Chain(cg));
      DelClientFromGroups(cg);
    }

    /** One turn of the loop in `server_add_client_to_groups`. */
    method JoinNext(ci: ClientInfo, gids: seq<nat>, at: nat, cg: ClientGroup?, ghost start: seq<seq<ClientGroup>>)
      returns (cgt: ClientGroup?)
      requires Lists() && |start| == |lists| && Joined(start, lists, Chain(cg))
      requires at < |gids| && ChainFor(Chain(cg), ci, gids[..at]) && Admits(start, gids[..at])
      requires forall g, x :: 0 <= g < |start| && x in start[g] ==> x !in Chain(cg)
      modifies `lists, `nodes, groups, nodes`p, nodes`n
      ensures Lists() && forall x :: x in nodes && x !in old(nodes) ==> fresh(x)
      ensures cgt == null ==> lists == start && !Admits(start, gids)
      ensures cgt != null ==> Joined(start, lists, Chain(cgt)) && ChainFor(Chain(cgt), ci, gids[..at + 1])
      ensures cgt != null ==> Admits(start, gids[..at + 1]) && fresh(cgt)
      ensures cgt != null ==> forall x :: x in Chain(cgt) ==> x == cgt || x in Chain(cg)
    {
      hide Of, ChainFor, Joined, GroupOk;
      ghost var cs, was := Chain(cg), lists;
      Turn(start, lists, cs, ci, gids, at);
      cgt := AddClientToOneGroup(ci, gids[at], cg);
      if cgt == null {
        RollBackGroups(cg, ci, gids[..at], start);
        if Admits(start, gids) { AdmitsPrefix(start, gids, at + 1); }
      } else {
        ChainGrows(cs, cgt, ci, gids, at);
        NextJoined(start, was, lists, cs, cgt);
      }
    }

    /** `server_add_client_to_groups`: joins every group of the request, or rolls back and joins none. */
    method AddClientToGroups(ci: ClientInfo, gids: seq<nat>) returns (cg: ClientGroup?)
      requires Lists()
      modifies `lists, `nodes, groups, nodes`p, nodes`n
      ensures Lists() && forall x :: x in nodes && x !in old(nodes) ==> fresh(x)
      ensures cg != null <==> gids != [] && Admits(old(lists), gids)
      ensures cg == null ==> lists == old(lists)
      ensures cg != null ==> ChainFor(Chain(cg), ci, gids) && forall x :: x in Chain(cg) ==> fresh(x)
      ensures cg != null ==> Joined(old(lists), lists, Chain(cg))
    {
      cg := null;
      var at := 0;
      assert Joined(lists, lists, Chain(cg)) && ChainFor(Chain(cg), ci, gids[..at]);
      hide Of, GroupOk, ChainFor, Chain;
      while at < |gids|
        invariant 0 <= at <= |gids| && Lists()
        invariant forall x :: x in nodes && x !in old(nodes) ==> fresh(x)
        invariant ChainFor(Chain(cg), ci, gids[..at]) && forall x :: x in Chain(cg) ==> fresh(x)
        invariant Joined(old(lists), lists, Chain(cg))
        invariant Admits(old(lists), gids[..at])
      {
        cg := JoinNext(ci, gids, at, cg, old(lists));
        if cg == null {
          return;
        }
        at := at + 1;
      }
      assert gids[..at] == gids;
    }

    // -------------------------------------------------------------------------------------------
    // The hash buckets
    // -------------------------------------------------------------------------------------------

    ghost predicate InfoOk(b: nat)
      requires b < buckets.Length && b < |rows|
      reads `rows, buckets, rows[b]`l, rows[b]`r
    {
      && ThreadedInfo(buckets[b].h, rows[b])
      && buckets[b].tc == |rows[b]|
      && forall c :: c in rows[b] ==> Hash(c.cfd) == b
    }

    /** Every bucket is a well-formed doubly linked list of registered clients with that hash. */
    ghost predicate Infos()
      reads `rows, `infos, buckets, infos`l, infos`r
    {
      && buckets.Length == MAX_HASHMAP_SIZE == |rows|
      && (forall b, c :: 0 <= b < |rows| && c in rows[b] ==> c in infos)
      && (forall b :: 0 <= b < |rows| ==> InfoOk(b))
    }

    /** The chains start at the clients' cg pointers, and tgid is their length. */
    ghost predicate Anchored()
      reads `clients, `chains, clients`cg, clients`tgid
    {
      forall c :: c in clients ==> c in chains && c.cg != null && Chain(c.cg) == chains[c] && c.tgid == |c.gids|
    }

    ghost predicate Valid()
      reads `lists, `nodes, `rows, `infos, `clients, `chains, `nextId, groups, buckets
      reads nodes`p, nodes`n, infos`l, infos`r, clients`cg, clients`tgid
    {
      && Lists() && Infos() && Indexed(rows, clients, infos, nextId) && Anchored()
      && Members(lists, clients, chains) && Rosters(lists, clients)
    }

    /** A registered client's number is its own, and its cg is the membership in the last group it asked for. */
    lemma Known(c: ClientInfo)
      requires Valid() && c in clients
      ensures c in infos && c.gids != [] && c.cg != null && c.cg.gid == c.gids[|c.gids| - 1] && ValidGid(c.cg.gid)
      ensures forall d :: d in clients && d != c ==> d.id != c.id
    {
      hide Lists, Infos, Rosters, Row;
      Numbered(rows, clients, infos, nextId);
      assert chains[c][0] == c.cg;
    }

    lemma Gone(c: ClientInfo)
      requires Valid() && c !in clients
      ensures forall b :: 0 <= b < |rows| ==> c !in rows[b]
    {
      hide Lists, Infos, Members, Rosters, Anchored;
      forall b | 0 <= b < |rows|
        ensures c !in rows[b]
      {
        RowMembers(clients, b);
      }
    }

    constructor ()
      ensures Valid() && clients == [] && nodes == {} && infos == {} && nextId == 0 && fresh(groups) && fresh(buckets)
    {
      groups := new GroupHead[MAX_MULTICAST_GROUPS](_ => GroupHead(null, 0));
      buckets := new InfoHead[MAX_HASHMAP_SIZE](_ => InfoHead(null, 0));
      lists := seq(MAX_MULTICAST_GROUPS, _ => []);
      rows := seq(MAX_HASHMAP_SIZE, _ => []);
      nodes, infos, clients, chains, nextId := {}, {}, [], map[], 0;
    }

    /** `server_search_client_fd` on the descriptor's bucket: the newest client with that descriptor, if any. */
    method SearchClientFd(cfd: int) returns (ci: ClientInfo?)
      requires Infos() && Indexed(rows, clients, infos, nextId)
      ensures ci == null <==> Newest(Recs(clients), cfd) == None
      ensures ci != null ==> ci in clients && ci.cfd == cfd && Newest(Recs(clients), cfd) == Some(Record(ci))
    {
      var b := Hash(cfd);
      ghost var row, k := rows[b], 0;
      assert InfoOk(b);
      RowMembers(clients, b);
      RowRecs(clients, b);
      BucketAgrees(Recs(clients), cfd);
      ci := buckets[b].h;
      assert row[0..] == row;
      while ci != null && ci.cfd != cfd
        invariant 0 <= k <= |row| && ci == (if k == |row| then null else row[k])
        invariant Newest(Recs(row), cfd) == Newest(Recs(row[k..]), cfd)
        decreases |row| - k
      {
        assert Recs(row[k..])[1..] == Recs(row[k + 1..]);
        ci := ci.r;
        k := k + 1;
      }
    }

    /** `FOR_ALL_CLIENT_FDS` inside a loop over the buckets: every registered client is met exactly once. */
    method AllClients() returns (seen: seq<ClientInfo>)
      requires Infos() && Indexed(rows, clients, infos, nextId)
      ensures Recs(seen) == Buckets(Recs(clients), MAX_HASHMAP_SIZE)
      ensures multiset(Recs(seen)) == multiset(Recs(clients))
    {
      hide Hash, Bucket, ThreadedInfo;
      BucketsPartition(Recs(clients));
      hide Buckets;
      seen := [];
      BucketsNone(Recs(clients));
      for b := 0 to MAX_HASHMAP_SIZE
        invariant Recs(seen) == Buckets(Recs(clients), b)
      {
        ghost var was := seen;
        seen := AddRow(b, seen);
        RowRecs(clients, b);
        RecsAppend(was, rows[b]);
        BucketsMore(Recs(clients), b);
      }
    }

    /** The walk over one bucket. */
    method AddRow(b: nat, before: seq<ClientInfo>) returns (seen: seq<ClientInfo>)
      requires Infos() && b < |rows|
      ensures seen == before + rows[b]
    {
      assert InfoOk(b);
      ghost var row, k := rows[b], 0;
      seen := before;
      var ci := buckets[b].h;
      while ci != null
        invariant 0 <= k <= |row| && ci == (if k == |row| then null else row[k]) && seen == before + row[..k]
        decreases |row| - k
      {
        seen := seen + [ci];
        ci := ci.r;
        k := k + 1;
      }
      assert row[..k] == row;
    }

    /** The end of `server_add_one_new_client_fd`: the record goes to the head of its bucket. */
    method PutInBucket(nci: ClientInfo, ghost cs: seq<ClientGroup>)
      requires Infos() && nci !in infos && nci.l == null && nci.r == buckets[Hash(nci.cfd)].h
      modifies `rows, `infos, `clients, `chains, `nextId, buckets, infos`l
      ensures clients == [nci] + old(clients) && chains == old(chains)[nci := cs] && nextId == old(nextId) + 1
      ensures Infos() && infos == old(infos) + {nci}
      ensures rows == old(rows)[Hash(nci.cfd) := [nci] + old(rows)[Hash(nci.cfd)]]
    {
      hide Hash;
      var b := Hash(nci.cfd);
      ghost var was := rows;
      assert InfoOk(b);
      PutFirstInfo(nci, buckets[b].h, was[b]);
      buckets[b] := InfoHead(nci, buckets[b].tc + 1);
      rows := was[b := [nci] + was[b]];
      infos, clients, chains, nextId := infos + {nci}, [nci] + clients, chains[nci := cs], nextId + 1;
      forall f | 0 <= f < |was|
        ensures InfoOk(f)
      {
        assert old(InfoOk(f));
        if f != b {
          assert forall c :: c in was[f] ==> c !in was[b];
          assert forall c :: c in was[f] ==> c.l == old(c.l) && c.r == old(c.r);
        }
      }
    }

    /** The second half of `server_add_one_new_client_fd`: the joined client gets its record. */
    method EnterClient(nci: ClientInfo, cg: ClientGroup, nGids: nat, ghost was: seq<seq<ClientGroup>>)
      requires nGids == |nci.gids| && Infos() && Anchored() && nci !in infos && nci.id == nextId
      requires Indexed(rows, clients, infos, nextId) && Members(was, clients, chains) && Rosters(was, clients)
      requires |was| == |lists| == MAX_MULTICAST_GROUPS && Joined(was, lists, Chain(cg))
      requires ChainFor(Chain(cg), nci, nci.gids) && nci.gids != [] && forall gid :: gid in nci.gids ==> ValidGid(gid)
      modifies `rows, `infos, `clients, `chains, `nextId, buckets, infos`l, nci
      ensures Infos() && Indexed(rows, clients, infos, nextId) && Anchored()
      ensures Members(lists, clients, chains) && Rosters(lists, clients)
      ensures clients == [nci] + old(clients) && infos == old(infos) + {nci} && !nci.busy && nci.jn == null
      ensures nextId == old(nextId) + 1 && nci.tgid == nGids
    {
      hide Chain, ChainFor, Row, Recs, Hash, Roster, InfoOk;
      hide Members, Rosters, Indexed, Joined;
      ghost var before := clients;
      Numbered(rows, clients, infos, nextId);
      JoinKeepsMembers(was, lists, before, chains, nci, Chain(cg));
      JoinKeepsRosters(was, lists, Chain(cg), nci, before);
      JoinKeepsIndex(rows, rows[Hash(nci.cfd) := [nci] + rows[Hash(nci.cfd)]], before, infos, nci);
      nci.l, nci.r, nci.cg, nci.tgid := null, buckets[Hash(nci.cfd)].h, cg, nGids;
      nci.busy, nci.jn := false, null;
      PutInBucket(nci, Chain(cg));
      assert forall c :: c in before ==> c.cg == old(c.cg) && c.tgid == old(c.tgid);
    }

    /** `server_add_one_new_client_fd`. */
    method AddOneNewClientFd(cfd: int, gids: seq<nat>) returns (ok: bool)
      requires Valid()
      modifies `lists, `nodes, `rows, `infos, `clients, `chains, `nextId, groups, buckets, nodes`p, nodes`n, infos`l
      ensures Valid() && forall x :: x in nodes && x !in old(nodes) ==> fresh(x)
      ensures ok <==> Fits(Recs(old(clients)), gids)
      ensures Recs(clients) == Join(Recs(old(clients)), Rec(old(nextId), cfd, gids))
      ensures !ok ==> clients == old(clients) && lists == old(lists) && infos == old(infos) && nextId == old(nextId)
      ensures ok ==> nextId == old(nextId) + 1
      ensures ok ==> |clients| > 0 && clients == [clients[0]] + old(clients) && fresh(clients[0])
      ensures ok ==> infos == old(infos) + {clients[0]} && clients[0].tgid == |gids|
      ensures ok ==> Record(clients[0]) == Rec(old(nextId), cfd, gids) && !clients[0].busy && clients[0].jn == null
    {
      hide Members, Row, Roster, ChainFor, GroupOk, InfoOk;
      var nci := new ClientInfo(cfd, nextId, gids);
      AdmitsIsFits(lists, Recs(clients), gids);
      var cg := AddClientToGroups(nci, gids);
      ok := cg != null;
      if ok {
        EnterClient(nci, cg, |gids|, old(lists));
        RecsCons(nci, old(clients));
      }
    }

    /** `server_add_one_client_fd`: the caller only learns whether the request was too long.  A descriptor that is
        already registered gets a second record, which hides the first. */
    method AddOneClientFd(cfd: int, gids: seq<nat>) returns (ok: bool)
      requires Valid()
      modifies `lists, `nodes, `rows, `infos, `clients, `chains, `nextId, groups, buckets, nodes`p, nodes`n, infos`l
      ensures Valid() && forall x :: x in nodes && x !in old(nodes) ==> fresh(x)
      ensures ok <==> |gids| <= MAX_MULTICAST_GROUPS
      ensures Recs(clients) == if ok then Join(Recs(old(clients)), Rec(old(nextId), cfd, gids)) else Recs(old(clients))
      ensures nextId == old(nextId) + if ok && Fits(Recs(old(clients)), gids) then 1 else 0
      ensures !(ok && Fits(Recs(old(clients)), gids)) ==> clients == old(clients) && infos == old(infos)
      ensures ok && Fits(Recs(old(clients)), gids) ==>
        && |clients| > 0 && clients == [clients[0]] + old(clients) && fresh(clients[0])
        && !clients[0].busy && clients[0].jn == null && infos == old(infos) + {clients[0]}
    {
      if |gids| > MAX_MULTICAST_GROUPS {
        return false;
      }
      hide Valid, Fits, Recs, Join;
      var added := AddOneNewClientFd(cfd, gids);
      return true;
    }

    /** Takes a client out of its bucket. */
    method TakeFromBucket(ci: ClientInfo)
      requires Infos() && ci in rows[Hash(ci.cfd)]
      modifies `rows, `clients, buckets, infos`l, infos`r
      ensures clients == Minus(old(clients), ci) && forall d :: d in clients ==> d in old(clients)
      ensures Infos() && rows == old(rows)[Hash(ci.cfd) := Minus(old(rows)[Hash(ci.cfd)], ci)]
    {
      hide Minus, Hash;
      var b := Hash(ci.cfd);
      ghost var was, s := rows, rows[b];
      assert InfoOk(b);
      ghost var k :| 0 <= k < |s| && s[k] == ci;
      MinusOne(s, k);
      var h := SpliceInfo(ci, buckets[b].h, s, k);
      buckets[b] := InfoHead(h, buckets[b].tc - 1);
      forall d | d in Minus(clients, ci)
        ensures d in clients
      {
        MinusIn(clients, ci, d);
      }
      rows, clients := was[b := s[..k] + s[k + 1..]], Minus(clients, ci);
      forall f | 0 <= f < |was|
        ensures InfoOk(f)
      {
        assert old(InfoOk(f));
        if f != b {
          assert forall c :: c in was[f] ==> c !in s;
          assert forall c :: c in was[f] ==> c.l == old(c.l) && c.r == old(c.r);
        }
      }
    }

    /** A client leaves all its groups. */
    method LeaveGroups(ci: ClientInfo)
      requires Lists() && ci in clients && Members(lists, clients, chains) && Rosters(lists, clients)
      requires ci.cg != null && ci in chains && Chain(ci.cg) == chains[ci]
      requires forall i, j :: 0 <= i < j < |clients| ==> clients[i].id > clients[j].id
      modifies `lists, groups, nodes`p, nodes`n
      ensures Lists() && Members(lists, Minus(clients, ci), chains) && Rosters(lists, Minus(clients, ci))
      ensures forall g, x :: 0 <= g < |lists| && x in lists[g] ==> x.ci != ci
      ensures Recs(Minus(clients, ci)) == Leave(Recs(clients), ci.id)
    {
      hide Row, Roster, Recs, Members, Rosters, Left, Minus, Leave, GroupOk;
      ghost var was := lists;
      OwnChain(lists, clients, chains, ci);
      DelClientFromGroups(ci.cg);
      LeaveKeepsMembers(was, lists, clients, chains, ci);
      LeaveKeepsRosters(was, lists, clients, chains, ci);
    }

    /** The record of a client leaves its groups and its bucket. */
    method RemoveClient(ci: ClientInfo, ghost k: nat)
      requires Valid() && k < |clients| && clients[k] == ci
      modifies `lists, `rows, `clients, groups, buckets, nodes`p, nodes`n, infos`l, infos`r
      ensures Valid() && clients == Minus(old(clients), ci) && ci !in clients
      ensures Recs(clients) == Leave(Recs(old(clients)), ci.id)
      ensures forall g, x :: 0 <= g < |lists| && x in lists[g] ==> x.ci != ci
    {
      hide Row, Roster, Recs, Members, Rosters, Indexed, Minus, Chain, Lists, Infos, Leave;
      LeaveKeepsIndex(rows, clients, infos, nextId, k);
      Numbered(rows, clients, infos, nextId);
      MinusIn(clients, ci, ci);
      LeaveGroups(ci);
      TakeFromBucket(ci);
    }

    /** `server_del_one_client_fd`: the newest record of the descriptor, the k-th client, is removed. */
    method DelOneClientFd(cfd: int) returns (ok: bool, ghost k: nat)
      requires Valid()
      modifies `lists, `rows, `clients, groups, buckets, nodes`p, nodes`n, infos`l, infos`r
      ensures Valid()
      ensures ok <==> Newest(Recs(old(clients)), cfd) != None
      ensures !ok ==> clients == old(clients) && lists == old(lists)
      ensures ok ==> k < |old(clients)| && Newest(Recs(old(clients)), cfd) == Some(Record(old(clients)[k]))
      ensures ok ==> clients == Minus(old(clients), old(clients)[k]) && old(clients)[k] !in clients
      ensures ok ==> Recs(clients) == Leave(Recs(old(clients)), old(clients)[k].id)
      ensures ok ==> forall g, x :: 0 <= g < |lists| && x in lists[g] ==> x.ci != old(clients)[k]
    {
      hide Row, Recs, Members, Rosters, Indexed, Minus, Lists, Infos, Newest, Leave;
      k := 0;
      var ci := SearchClientFd(cfd);
      ok := ci != null;
      if ok {
        k :| 0 <= k < |clients| && clients[k] == ci;
        RemoveClient(ci, k);
      }
    }
  }

  lemma OwnChain(lists: seq<seq<ClientGroup>>, clients: seq<ClientInfo>, chains: map<ClientInfo, seq<ClientGroup>>,
                 c: ClientInfo)
    requires c in clients && Members(lists, clients, chains)
    ensures c in chains && Chained(chains[c]) && forall x :: x in chains[c] ==> Listed(lists, x)
  {
  }

  lemma Numbered(rows: seq<seq<ClientInfo>>, clients: seq<ClientInfo>, infos: set<ClientInfo>, nextId: nat)
    requires Indexed(rows, clients, infos, nextId)
    ensures |rows| == MAX_HASHMAP_SIZE && forall c :: c in clients ==> c in infos
    ensures forall i, j :: 0 <= i < j < |clients| ==> clients[i].id > clients[j].id
  {
  }

  lemma LeaveKeepsIndex(rows: seq<seq<ClientInfo>>, clients: seq<ClientInfo>, infos: set<ClientInfo>, nextId: nat,
                        k: nat)
    requires Indexed(rows, clients, infos, nextId) && k < |clients|
    ensures var c := clients[k]; var b := Hash(c.cfd);
      c in rows[b] && Indexed(rows[b := Minus(rows[b], c)], Minus(clients, c), infos, nextId)
  {
    hide Minus, Row, Hash;
    var c := clients[k];
    var b := Hash(c.cfd);
    RowMembers(clients, b);
    MinusOne(clients, k);
    forall d | 0 <= d < |rows|
      ensures rows[b := Minus(rows[b], c)][d] == Row(Minus(clients, c), d)
    {
      RowMinus(clients, c, d);
      if d != b {
        RowMembers(clients, d);
        MinusNone(Row(clients, d), c);
      }
    }
  }

  ghost predicate Left(was: seq<seq<ClientGroup>>, now: seq<seq<ClientGroup>>, cs: seq<ClientGroup>) {
    |now| == |was| && forall g :: 0 <= g < |now| ==> now[g] == Without(was[g], Elements(cs))
  }

  lemma StaysListed(was: seq<seq<ClientGroup>>, now: seq<seq<ClientGroup>>, cs: seq<ClientGroup>, x: ClientGroup)
    requires Left(was, now, cs) && Listed(was, x) && x !in cs
    ensures Listed(now, x)
  {
    WithoutIn(was[x.gid - 1], Elements(cs), x);
  }

  lemma WasListed(was: seq<seq<ClientGroup>>, now: seq<seq<ClientGroup>>, cs: seq<ClientGroup>, g: nat, x: ClientGroup)
    requires Left(was, now, cs) && g < |now| && x in now[g]
    ensures x in was[g] && x !in cs
  {
    WithoutIn(was[g], Elements(cs), x);
  }

  lemma ClientStays(was: seq<seq<ClientGroup>>, now: seq<seq<ClientGroup>>, clients: seq<ClientInfo>,
                    chains: map<ClientInfo, seq<ClientGroup>>, c: ClientInfo, d: ClientInfo)
    requires c in clients && Members(was, clients, chains) && Left(was, now, chains[c]) && d in Minus(clients, c)
    ensures d in chains && d.gids != [] && ChainFor(chains[d], d, d.gids)
    ensures forall x :: x in chains[d] ==> x.ci == d && Listed(now, x)
  {
    hide ChainFor;
    MinusIn(clients, c, d);
    forall x | x in chains[d]
      ensures x.ci == d && Listed(now, x)
    {
      StaysListed(was, now, chains[c], x);
    }
  }

  lemma NodeStays(was: seq<seq<ClientGroup>>, now: seq<seq<ClientGroup>>, clients: seq<ClientInfo>,
                  chains: map<ClientInfo, seq<ClientGroup>>, c: ClientInfo, g: nat, x: ClientGroup)
    requires c in clients && Members(was, clients, chains) && Left(was, now, chains[c]) && g < |now| && x in now[g]
    ensures x.ci in Minus(clients, c) && x.ci != c && x.ci in chains && x in chains[x.ci]
  {
    hide ChainFor;
    WasListed(was, now, chains[c], g, x);
    MinusIn(clients, c, x.ci);
  }

  lemma LeaveKeepsMembers(was: seq<seq<ClientGroup>>, now: seq<seq<ClientGroup>>, clients: seq<ClientInfo>,
                          chains: map<ClientInfo, seq<ClientGroup>>, c: ClientInfo)
    requires c in clients && Members(was, clients, chains) && Left(was, now, chains[c])
    ensures Members(now, Minus(clients, c), chains)
    ensures forall g, x :: 0 <= g < |now| && x in now[g] ==> x.ci != c
  {
    hide ChainFor, Minus, Listed, Left;
    forall d | d in Minus(clients, c)
      ensures d in chains && d.gids != [] && ChainFor(chains[d], d, d.gids)
      ensures forall x :: x in chains[d] ==> x.ci == d && Listed(now, x)
    {
      ClientStays(was, now, clients, chains, c, d);
    }
    forall g: nat, x | g < |now| && x in now[g]
      ensures x.ci in Minus(clients, c) && x.ci != c && x.ci in chains && x in chains[x.ci]
    {
      NodeStays(was, now, clients, chains, c, g, x);
    }
  }

  lemma LeaveKeepsRoster(was: seq<seq<ClientGroup>>, now: seq<seq<ClientGroup>>, clients: seq<ClientInfo>,
                         chains: map<ClientInfo, seq<ClientGroup>>, c: ClientInfo, g: nat)
    requires c in clients && Members(was, clients, chains) && Left(was, now, chains[c])
    requires Rosters(was, clients) && forall i, j :: 0 <= i < j < |clients| ==> clients[i].id > clients[j].id
    requires g < |now|
    ensures Ids(now[g]) == Roster(Leave(Recs(clients), c.id), g + 1)
  {
    var cs := chains[c];
    OwnNodes(was, clients, chains, c, g);
    hide Members, Recs, Elements;
    IdsWithout(was[g], Elements(cs), c.id);
    LeaveFilters(Recs(clients), c.id, g + 1);
  }

  lemma LeaveKeepsRosters(was: seq<seq<ClientGroup>>, now: seq<seq<ClientGroup>>, clients: seq<ClientInfo>,
                          chains: map<ClientInfo, seq<ClientGroup>>, c: ClientInfo)
    requires c in clients && Members(was, clients, chains) && Left(was, now, chains[c])
    requires Rosters(was, clients) && forall i, j :: 0 <= i < j < |clients| ==> clients[i].id > clients[j].id
    ensures Rosters(now, Minus(clients, c))
    ensures Recs(Minus(clients, c)) == Leave(Recs(clients), c.id)
  {
    RecsMinus(clients, c);
    forall g: nat | g < |now|
      ensures Ids(now[g]) == Roster(Leave(Recs(clients), c.id), g + 1)
    {
      LeaveKeepsRoster(was, now, clients, chains, c, g);
    }
  }

  lemma OwnNodes(lists: seq<seq<ClientGroup>>, clients: seq<ClientInfo>, chains: map<ClientInfo, seq<ClientGroup>>,
                 c: ClientInfo, g: nat)
    requires c in clients && Members(lists, clients, chains) && g < |lists|
    requires forall i, j :: 0 <= i < j < |clients| ==> clients[i].id > clients[j].id
    ensures forall x :: x in lists[g] ==> (x in Elements(chains[c]) <==> x.ci.id == c.id)
  {
    hide ChainFor;
    forall x | x in lists[g]
      ensures x in Elements(chains[c]) <==> x.ci.id == c.id
    {
      assert x.ci in clients && x in chains[x.ci];
    }
  }

  lemma {:induction false} CountPrefix(gids: seq<nat>, at: nat, gid: nat)
    requires at <= |gids|
    ensures Count(gids[..at], gid) <= Count(gids, gid)
  {
    if at < |gids| {
      var last := |gids| - 1;
      assert gids == gids[..last] + [gids[last]] && gids[..last][..at] == gids[..at];
      CountAppend(gids[..last], gids[last], gid);
      CountPrefix(gids[..last], at, gid);
    } else {
      assert gids[..at] == gids;
    }
  }

  /** Admitting the groups one after the other is having room for the whole request in each of them. */
  lemma {:induction false} AdmitsIsRoom(lists: seq<seq<ClientGroup>>, gids: seq<nat>)
    ensures Admits(lists, gids) <==> forall gid :: gid in gids ==>
      ValidGid(gid) && gid <= |lists| && |lists[gid - 1]| + Count(gids, gid) <= MAX_CLIENTS_PER_MULTICAST_GROUP
  {
    if gids != [] {
      var last := |gids| - 1;
      var before := gids[..last];
      AdmitsIsRoom(lists, before);
      assert gids == before + [gids[last]];
      forall gid
        ensures Count(gids, gid) == Count(before, gid) + (if gids[last] == gid then 1 else 0)
        ensures Count(before, gid) <= Count(gids, gid)
      {
        CountAppend(before, gids[last], gid);
      }
    }
  }

  lemma AdmitsIsFits(lists: seq<seq<ClientGroup>>, recs: seq<Rec>, gids: seq<nat>)
    requires |lists| == MAX_MULTICAST_GROUPS
    requires forall g :: 0 <= g < |lists| ==> Ids(lists[g]) == Roster(recs, g + 1)
    ensures gids != [] && Admits(lists, gids) <==> Fits(recs, gids)
  {
    AdmitsIsRoom(lists, gids);
    forall gid | gid in gids && ValidGid(gid)
      ensures |lists[gid - 1]| == |Roster(recs, gid)|
    {
      assert Ids(lists[gid - 1]) == Roster(recs, gid);
    }
  }

  lemma JoinedListed(was: seq<seq<ClientGroup>>, now: seq<seq<ClientGroup>>, cs: seq<ClientGroup>, nci: ClientInfo,
                     gids: seq<nat>)
    requires ChainFor(cs, nci, gids) && |now| == |was| == MAX_MULTICAST_GROUPS
    requires forall gid :: gid in gids ==> ValidGid(gid)
    requires Joined(was, now, cs)
    ensures forall x :: Listed(was, x) ==> Listed(now, x)
    ensures forall i {:trigger cs[i]} :: 0 <= i < |cs| ==> Listed(now, cs[i])
    ensures forall g, x :: 0 <= g < |now| && x in now[g] ==> x in was[g] || (x in cs && x.ci == nci)
  {
    forall i {:trigger cs[i]} | 0 <= i < |cs|
      ensures Listed(now, cs[i])
    {
      OfMembers(cs, cs[i].gid);
    }
    forall g, x | 0 <= g < |now| && x in now[g]
      ensures x in was[g] || (x in cs && x.ci == nci)
    {
      OfMembers(cs, g + 1);
      assert now[g] == Of(cs, g + 1) + was[g];
      if x !in was[g] {
        assert x in Of(cs, g + 1);
        var i :| 0 <= i < |cs| && cs[i] == x;
      }
    }
  }

  /** Whether the next group has room, told from the lists the request started from. */
  lemma Turn(start: seq<seq<ClientGroup>>, now: seq<seq<ClientGroup>>, cs: seq<ClientGroup>, ci: ClientInfo,
             gids: seq<nat>, at: nat)
    requires at < |gids| && Admits(start, gids[..at]) && ChainFor(cs, ci, gids[..at]) && Joined(start, now, cs)
    ensures ValidGid(gids[at]) && gids[at] <= |now| ==>
      (Admits(start, gids[..at + 1]) <==> |now[gids[at] - 1]| < MAX_CLIENTS_PER_MULTICAST_GROUP)
    ensures Admits(start, gids[..at + 1]) ==> ValidGid(gids[at])
  {
    var gid := gids[at];
    assert gids[..at + 1][..at] == gids[..at];
    assert gids[..at + 1] == gids[..at] + [gid];
    CountAppend(gids[..at], gid, gid);
    ChainShare(cs, ci, gids[..at], gid);
  }

  lemma ChainGrows(cs: seq<ClientGroup>, node: ClientGroup, ci: ClientInfo, gids: seq<nat>, at: nat)
    requires at < |gids| && ChainFor(cs, ci, gids[..at])
    requires node.ci == ci && node.gid == gids[at] && node.rest == cs && node.ncg == (if cs == [] then null else cs[0])
    ensures ChainFor([node] + cs, ci, gids[..at + 1])
  {
    var all := [node] + cs;
    forall i | 0 <= i < |all|
      ensures all[i].rest == all[i + 1..] && all[i].ncg == if i == |all| - 1 then null else all[i + 1]
      ensures all[i].ci == ci && all[i].gid == gids[..at + 1][|all| - 1 - i]
    {
      if i == 0 {
        assert all[1..] == cs;
      } else {
        assert all[i] == cs[i - 1] && all[i + 1..] == cs[i..];
        assert cs[i - 1].gid == gids[..at][|cs| - i];
      }
    }
  }

  lemma NextJoined(start: seq<seq<ClientGroup>>, was: seq<seq<ClientGroup>>, now: seq<seq<ClientGroup>>,
                   cs: seq<ClientGroup>, node: ClientGroup)
    requires Joined(start, was, cs)
    requires 1 <= node.gid <= |was| && now == was[node.gid - 1 := [node] + was[node.gid - 1]]
    ensures Joined(start, now, [node] + cs)
  {
    assert ([node] + cs)[1..] == cs;
    forall g | 0 <= g < |now|
      ensures now[g] == Of([node] + cs, g + 1) + start[g]
    {
      if g == node.gid - 1 { assert [node] + (Of(cs, g + 1) + start[g]) == ([node] + Of(cs, g + 1)) + start[g]; }
    }
  }

  lemma {:induction false} ChainGids(lists: seq<seq<ClientGroup>>, cs: seq<ClientGroup>, ci: ClientInfo, gids: seq<nat>)
    requires ChainFor(cs, ci, gids) && Admits(lists, gids)
    ensures forall x :: x in cs ==> ValidGid(x.gid) && x.gid <= |lists|
  {
    forall x | x in cs
      ensures ValidGid(x.gid) && x.gid <= |lists|
    {
      var i :| 0 <= i < |cs| && cs[i] == x;
      AdmitsPrefix(lists, gids, |cs| - i);
    }
  }

  lemma RollBack(start: seq<seq<ClientGroup>>, now: seq<seq<ClientGroup>>, cs: seq<ClientGroup>)
    requires Joined(start, now, cs)
    requires forall g, x :: 0 <= g < |start| && x in start[g] ==> x !in cs
    requires forall x :: x in cs ==> ValidGid(x.gid) && x.gid <= |start|
    ensures forall g :: 0 <= g < |now| ==> Without(now[g], Elements(cs)) == start[g]
    ensures forall x :: x in cs ==> Listed(now, x)
  {
    forall x | x in cs
      ensures Listed(now, x)
    {
      OfMembers(cs, x.gid);
    }
    assert forall x :: x in cs ==> x in Elements(cs);
    forall g | 0 <= g < |now|
      ensures Without(now[g], Elements(cs)) == start[g]
    {
      WithoutAppend(Of(cs, g + 1), start[g], Elements(cs));
      OfMembers(cs, g + 1);
      WithoutAll(Of(cs, g + 1), Elements(cs));
      WithoutNone(start[g], Elements(cs));
    }
  }
}
