/** The events of server/src/server.c on the linked records of server/src/jobs.c and server/src/groups.c.  Each event
    does to the records what JobProtocol's step does to the state. */
module JobServer {
  import opened Wrappers
  import opened Structures
  import opened RegistrySpec
  import opened Registry
  import opened JobProtocol
  import opened JobSteps
  import JobEffects
  import JobTheorems
  import opened JobLists

  /** A worker list and its value: the same clients with the same pieces, all of them registered. */
  ghost predicate Shows(ws: seq<ClientNode>, vs: seq<Worker>, clients: seq<ClientInfo>)
    reads ws`client, ws`index
  {
    |ws| == |vs| && forall i :: 0 <= i < |ws| ==> ShowsOne(ws[i], vs[i], clients)
  }

  ghost predicate ShowsOne(x: ClientNode, w: Worker, clients: seq<ClientInfo>)
    reads x`client, x`index
  {
    x.client != null && x.client in clients && x.client.id == w.client && x.index == w.index
  }

  ghost predicate JobTied(job: JobNode, v: Job, clients: seq<ClientInfo>)
    reads job`result, job`workers, job.workers`client, job.workers`index
  {
    job.result == v.result && Shows(job.workers, v.workers, clients)
  }

  lemma TiedShows(job: JobNode, v: Job, clients: seq<ClientInfo>)
    requires JobTied(job, v, clients)
    ensures job.result == v.result && |job.workers| == |v.workers| && Shows(job.workers, v.workers, clients)
  {
  }

  lemma TiedMore(job: JobNode, v: Job, ws: seq<ClientNode>, clients: seq<ClientInfo>, x: ClientNode, w: Worker)
    requires Shows(ws, v.workers, clients) && ShowsOne(x, w, clients) && job.result == v.result
    requires job.workers == ws + [x]
    ensures JobTied(job, v.(workers := v.workers + [w]), clients)
  {
  }

  lemma TiedWithout(job: JobNode, v: Job, ws: seq<ClientNode>, clients: seq<ClientInfo>, k: nat)
    requires k < |ws| && Shows(ws, v.workers, clients) && job.workers == RemoveAt(ws, k) && job.result == v.result
    ensures k < |v.workers| && JobTied(job, v.(workers := RemoveAt(v.workers, k)), clients)
  {
  }

  ghost predicate ClientTied(c: ClientInfo, nodes: seq<JobNode>, busy: set<nat>, jn: map<nat, int>)
    reads c`busy, c`jn
  {
    && (c.busy <==> c.id in busy)
    && (c.jn == null <==> c.id !in jn)
    && (c.jn != null ==> c.jn in nodes && c.jn.id == jn[c.id])
  }

  ghost predicate ShowsQueue(q: seq<ClientNode>, parked: seq<Parked>)
    reads q`index
  {
    |q| == |parked| && forall i :: 0 <= i < |q| ==> q[i].jid == parked[i].jid && q[i].index == parked[i].index
  }

  /** Every job has its record. */
  ghost predicate Named(nodes: seq<JobNode>, vs: map<int, Job>) {
    forall id :: id in vs ==> exists i :: 0 <= i < |nodes| && nodes[i].id == id
  }

  class Server {
    const registry: Registry
    const jobs: JobDll
    const pending: PendingQueue
    ghost var cnodes: set<ClientNode>  // all nodes ever listed
    ghost var st: State

    /** All lists are well formed. */
    ghost predicate Wired()
      reads `cnodes, jobs, jobs.head`next, jobs.nodes`next, jobs.nodes`tail, jobs.nodes`numClients, jobs.nodes`workers
      reads pending, cnodes`prev, cnodes`next, cnodes`client
    {
      && jobs.Valid()
      && (forall x :: x in pending.nodes ==> x in cnodes) && pending.Valid()
      && (forall job :: job in jobs.nodes ==> job.head in cnodes)
      && (forall job, x :: job in jobs.nodes && x in job.workers ==> x in cnodes)
      && (forall job :: job in jobs.nodes ==> JobOk(job))
    }

    ghost predicate JobsTied(vs: map<int, Job>)
      reads registry`clients, `cnodes, jobs`nodes, jobs.nodes`result, jobs.nodes`workers, cnodes`client, cnodes`index
    {
      && (forall job, x :: job in jobs.nodes && x in job.workers ==> x in cnodes)
      && (forall job :: job in jobs.nodes ==> job.id in vs && JobTied(job, vs[job.id], registry.clients))
      && Named(jobs.nodes, vs)
    }

    ghost predicate ClientsTied(recs: seq<Rec>, nextId: nat, busy: set<nat>, jn: map<nat, int>)
      reads jobs`nodes, registry`clients, registry`nextId, registry.clients`busy, registry.clients`jn
    {
      && Recs(registry.clients) == recs && registry.nextId == nextId
      && forall c :: c in registry.clients ==> ClientTied(c, jobs.nodes, busy, jn)
    }

    ghost predicate Tied()
      reads this, registry, jobs, jobs.head`next, jobs.nodes, pending, cnodes
      reads registry.groups, registry.buckets, registry.nodes, registry.infos, registry.clients
    {
      && registry.Valid() && Wired() && JobsTied(st.jobs) && ClientsTied(st.recs, st.nextId, st.busy, st.jn)
      && ShowsQueue(pending.nodes, st.parked)
    }

    ghost predicate Valid()
      reads this, registry, jobs, jobs.head`next, jobs.nodes, pending, cnodes
      reads registry.groups, registry.buckets, registry.nodes, registry.infos, registry.clients
    {
      Tied() && Inv(st)
    }

    constructor ()
      ensures Valid() && Init(st) && st.nextId == 0
      ensures fresh(registry) && fresh(registry.groups) && fresh(registry.buckets)
      ensures registry.nodes == {} && registry.infos == {}
      ensures fresh(jobs) && fresh(jobs.head) && jobs.nodes == [] && fresh(pending) && cnodes == {}
    {
      registry := new Registry();
      jobs := new JobDll();
      pending := new PendingQueue();
      cnodes := {};
      new;
      st := State([], registry.nextId, map[], [], {}, map[], []);
    }

    // -------------------------------------------------------------------------------------------
    // Parts of events
    // -------------------------------------------------------------------------------------------

    /** A reported value is merged into the job's result. */
    method MergeValue(job: JobNode, value: int, ghost held: Option<nat>)
      requires jobs.Valid() && JobsTied(st.jobs) && job in jobs.nodes && job.id in st.jobs
      requires held.Some? ==> held.value < |st.jobs[job.id].workers|
      modifies `st, job`result
      ensures JobsTied(st.jobs) && st == Counted(old(st), job.id, held, value)
    {
      hide Shows;
      assert JobTied(job, st.jobs[job.id], registry.clients);
      if job.result < value {
        job.result := value;
      }
      st := Counted(st, job.id, held, value);
      forall x | x in jobs.nodes
        ensures x.id in st.jobs && JobTied(x, st.jobs[x.id], registry.clients)
      {
        assert old(JobTied(x, st.jobs[x.id], registry.clients));
      }
    }

    ghost predicate Apart(job: JobNode, j: JobNode)
      reads job`workers, j`workers
    {
      && j.id != job.id && j.head != job.head && j.head !in job.workers && job.head !in j.workers
      && forall x :: x in j.workers ==> x !in job.workers
    }

    lemma JobsApart(job: JobNode, j: JobNode)
      requires Wired() && job in jobs.nodes && j in jobs.nodes && j != job
      ensures Apart(job, j)
    {
      hide Linked;
      assert JobOk(job) && JobOk(j);
    }

    lemma QueueApart(job: JobNode)
      requires Wired() && job in jobs.nodes
      ensures job.head !in pending.nodes && forall x :: x in pending.nodes ==> x !in job.workers
    {
      hide Linked;
      assert JobOk(job);
    }

    method TakeOutWired(job: JobNode, node: ClientNode, ghost k: nat)
      requires Wired() && job in jobs.nodes && k < |job.workers| && job.workers[k] == node
      modifies job`tail, job`numClients, job`workers, cnodes`prev, cnodes`next
      ensures Wired() && job.workers == RemoveAt(old(job.workers), k)
      ensures forall j, x :: j in jobs.nodes && x in j.workers ==> x in cnodes
    {
      QueueApart(job);
      forall j | j in jobs.nodes && j != job
        ensures Apart(job, j)
      {
        JobsApart(job, j);
      }
      hide JobDll.Valid;
      TakeOut(job, node, k);
      forall j | j in jobs.nodes
        ensures JobOk(j)
      {
        if j != job {
          assert old(JobOk(j)) && old(Apart(job, j));
          assert j.head.prev == old(j.head.prev) && j.head.next == old(j.head.next);
          assert forall x :: x in j.workers ==>
            x.prev == old(x.prev) && x.next == old(x.next) && x.client == old(x.client);
        }
      }
      assert jobs.Valid();
      assert forall x :: x in job.workers ==> x in old(job.workers);
      assert forall x :: x in pending.nodes ==>
        x.prev == old(x.prev) && x.next == old(x.next) && x.client == old(x.client);
      assert pending.Valid();
    }

    method AddWired(job: JobNode, client: ClientInfo) returns (node: ClientNode)
      requires Wired() && job in jobs.nodes
      modifies `cnodes, job`tail, job`numClients, job`workers, cnodes`next
      ensures Wired() && job.workers == old(job.workers) + [node] && fresh(node) && node.client == client
      ensures cnodes == old(cnodes) + {node} && node.index == 0
      ensures forall j, x :: j in jobs.nodes && x in j.workers ==> x in cnodes
    {
      QueueApart(job);
      forall j | j in jobs.nodes && j != job
        ensures Apart(job, j)
      {
        JobsApart(job, j);
      }
      hide JobDll.Valid;
      assert JobOk(job) && job.tail in [job.head] + job.workers;
      node := AddClientToJob(job, client);
      cnodes := cnodes + {node};
      forall j | j in jobs.nodes
        ensures JobOk(j)
      {
        if j != job {
          assert old(JobOk(j)) && old(Apart(job, j));
          assert j.head.prev == old(j.head.prev) && j.head.next == old(j.head.next);
          assert forall x :: x in j.workers ==>
            x.prev == old(x.prev) && x.next == old(x.next) && x.client == old(x.client);
        }
      }
      assert jobs.Valid();
      assert forall x :: x in pending.nodes ==>
        x.prev == old(x.prev) && x.next == old(x.next) && x.client == old(x.client);
      assert pending.Valid();
    }

    /** The ties to the other jobs. */
    ghost predicate OthersTied(job: JobNode, vs: map<int, Job>)
      reads registry`clients, `cnodes, jobs`nodes, jobs.nodes`result, jobs.nodes`workers, cnodes`client, cnodes`index
    {
      && (forall j, x :: j in jobs.nodes && x in j.workers ==> x in cnodes)
      && (forall j :: j in jobs.nodes && j != job ==> j.id in vs && JobTied(j, vs[j.id], registry.clients))
    }

    lemma JobBefore(job: JobNode, vs: map<int, Job>)
      requires JobsTied(vs) && job in jobs.nodes
      ensures OthersTied(job, vs) && job.id in vs && JobTied(job, vs[job.id], registry.clients) && Named(jobs.nodes, vs)
      ensures job.result == vs[job.id].result && |job.workers| == |vs[job.id].workers|
    {
    }

    lemma JobChanged(job: JobNode, vs: map<int, Job>, v: Job)
      requires Wired() && job in jobs.nodes && job.id in vs
      requires OthersTied(job, vs) && JobTied(job, v, registry.clients)
      requires Named(jobs.nodes, vs)
      ensures JobsTied(vs[job.id := v])
    {
      hide JobTied, JobOk;
      forall j | j in jobs.nodes && j != job
        ensures j.id != job.id
      {
        JobsApart(job, j);
      }
    }

    /** A worker leaves its job's list. */
    method TakeOutWorker(job: JobNode, node: ClientNode, ghost k: nat, ghost v: Job)
      requires Wired() && JobsTied(st.jobs) && job in jobs.nodes && k < |job.workers| && job.workers[k] == node
      requires job.id in st.jobs && v == st.jobs[job.id] && k < |v.workers|
      modifies `st, job`tail, job`numClients, job`workers, cnodes`prev, cnodes`next
      ensures Wired() && job.workers == RemoveAt(old(job.workers), k)
      ensures st == old(st).(jobs := old(st.jobs)[job.id := v.(workers := RemoveAt(v.workers, k))])
      ensures JobsTied(st.jobs)
    {
      hide Wired, Shows, RemoveAt, JobTied, JobsTied, Named;
      JobBefore(job, st.jobs);
      TiedShows(job, v, registry.clients);
      TakeOutWired(job, node, k);
      forall j | j in jobs.nodes && j != job
        ensures j.id in st.jobs && JobTied(j, st.jobs[j.id], registry.clients)
      {
        assert old(JobTied(j, st.jobs[j.id], registry.clients));
      }
      TiedWithout(job, v, old(job.workers), registry.clients, k);
      JobChanged(job, st.jobs, v.(workers := RemoveAt(v.workers, k)));
      st := st.(jobs := st.jobs[job.id := v.(workers := RemoveAt(v.workers, k))]);
    }

    /** A client becomes the last worker of a job, with piece 0 for now. */
    method AddWorker(job: JobNode, client: ClientInfo, ghost v: Job) returns (node: ClientNode)
      requires Wired() && JobsTied(st.jobs) && job in jobs.nodes && client in registry.clients
      requires job.id in st.jobs && v == st.jobs[job.id]
      modifies `st, `cnodes, job`tail, job`numClients, job`workers, cnodes`next
      ensures Wired() && job.workers == old(job.workers) + [node] && fresh(node)
      ensures cnodes == old(cnodes) + {node} && node.index == 0 && node.client != null
      ensures st == old(st).(jobs := old(st.jobs)[job.id := v.(workers := v.workers + [Worker(client.id, 0)])])
      ensures JobsTied(st.jobs)
    {
      hide Wired, Shows, JobTied, JobsTied, Named;
      JobBefore(job, st.jobs);
      TiedShows(job, v, registry.clients);
      node := AddWired(job, client);
      forall j | j in jobs.nodes && j != job
        ensures j.id in st.jobs && JobTied(j, st.jobs[j.id], registry.clients)
      {
        assert old(JobTied(j, st.jobs[j.id], registry.clients));
      }
      ghost var w := Worker(client.id, 0);
      TiedMore(job, v, old(job.workers), registry.clients, node, w);
      JobChanged(job, st.jobs, v.(workers := v.workers + [w]));
      st := st.(jobs := st.jobs[job.id := v.(workers := v.workers + [w])]);
    }

    lemma NodesDiffer(job: JobNode)
      requires Wired() && job in jobs.nodes
      ensures forall i, j :: 0 <= i < j < |job.workers| ==> job.workers[i] != job.workers[j]
      ensures forall x :: x in job.workers ==> x.client != null
    {
      assert JobOk(job);
      assert forall i :: 0 <= i < |job.workers| ==> ([job.head] + job.workers)[i + 1] == job.workers[i];
    }

    method PutIndex(job: JobNode, ghost k: nat, node: ClientNode, index: int, ghost vs: map<int, Job>, ghost v: Job)
      requires OthersTied(job, vs) && JobTied(job, v, registry.clients) && job in jobs.nodes
      requires k < |job.workers| && job.workers[k] == node && node !in pending.nodes
      requires forall j :: j in jobs.nodes && j != job ==> node !in j.workers
      requires forall i, j :: 0 <= i < j < |job.workers| ==> job.workers[i] != job.workers[j]
      modifies node`index
      ensures OthersTied(job, vs)
      ensures JobTied(job, v.(workers := v.workers[k := Worker(v.workers[k].client, index)]), registry.clients)
    {
      hide JobTied, Shows;
      TiedEach(job, v, registry.clients);
      node.index := index;
      forall j | j in jobs.nodes && j != job
        ensures j.id in vs && JobTied(j, vs[j.id], registry.clients)
      {
        assert old(JobTied(j, vs[j.id], registry.clients));
        assert node !in j.workers;
      }
      ghost var v' := v.(workers := v.workers[k := Worker(v.workers[k].client, index)]);
      forall i | 0 <= i < |job.workers|
        ensures ShowsOne(job.workers[i], v'.workers[i], registry.clients)
      {
        assert old(ShowsOne(job.workers[i], v.workers[i], registry.clients));
      }
      TiedSet(job, v', registry.clients);
    }

    /** A worker's piece is set. */
    method SetIndex(job: JobNode, ghost k: nat, node: ClientNode, index: int, ghost v: Job)
      requires Wired() && JobsTied(st.jobs) && job in jobs.nodes && k < |job.workers| && job.workers[k] == node
      requires ShowsQueue(pending.nodes, st.parked)
      requires job.id in st.jobs && v == st.jobs[job.id] && k < |v.workers|
      modifies `st, node`index
      ensures Wired() && JobsTied(st.jobs) && ShowsQueue(pending.nodes, st.parked)
      ensures st == old(st).(jobs :=
        old(st.jobs)[job.id := v.(workers := v.workers[k := Worker(v.workers[k].client, index)])])
    {
      QueueApart(job);
      NodesDiffer(job);
      forall j | j in jobs.nodes && j != job
        ensures node !in j.workers
      {
        JobsApart(job, j);
      }
      hide Wired, JobTied, ShowsQueue, JobsTied, OthersTied, Named;
      JobBefore(job, st.jobs);
      ghost var v' := v.(workers := v.workers[k := Worker(v.workers[k].client, index)]);
      PutIndex(job, k, node, index, st.jobs, v);
      assert node !in pending.nodes;
      JobChanged(job, st.jobs, v');
      st := st.(jobs := st.jobs[job.id := v']);
    }

    /** A client is given work of a job, or is done with it. */
    method SetBusy(client: ClientInfo, job: JobNode)
      requires ClientsTied(st.recs, st.nextId, st.busy, st.jn) && client in registry.clients && job in jobs.nodes
      requires forall d :: d in registry.clients && d != client ==> d.id != client.id
      modifies `st, client`busy, client`jn
      ensures ClientsTied(st.recs, st.nextId, st.busy, st.jn)
      ensures st == old(st).(busy := old(st.busy) + {client.id}, jn := old(st.jn)[client.id := job.id])
    {
      hide Recs;
      client.busy, client.jn := true, job;
      st := st.(busy := st.busy + {client.id}, jn := st.jn[client.id := job.id]);
      forall c | c in registry.clients
        ensures ClientTied(c, jobs.nodes, st.busy, st.jn)
      {
        assert old(ClientTied(c, jobs.nodes, st.busy, st.jn));
      }
    }

    method SetFree(client: ClientInfo)
      requires ClientsTied(st.recs, st.nextId, st.busy, st.jn) && client in registry.clients
      requires forall d :: d in registry.clients && d != client ==> d.id != client.id
      modifies `st, client`busy
      ensures ClientsTied(st.recs, st.nextId, st.busy, st.jn) && st == old(st).(busy := old(st.busy) - {client.id})
    {
      hide Recs;
      client.busy := false;
      st := st.(busy := st.busy - {client.id});
      forall c | c in registry.clients
        ensures ClientTied(c, jobs.nodes, st.busy, st.jn)
      {
        assert old(ClientTied(c, jobs.nodes, st.busy, st.jn));
      }
    }

    method UnparkWired(jid: int) returns (cn: ClientNode?, ghost k: nat)
      requires Wired()
      modifies pending, cnodes`prev, cnodes`next
      ensures Wired()
      ensures cn == null ==> forall i :: 0 <= i < |pending.nodes| ==> pending.nodes[i].jid != jid
      ensures cn == null ==> pending.nodes == old(pending.nodes)
      ensures cn != null ==> k < |old(pending.nodes)| && old(pending.nodes)[k] == cn && cn.jid == jid
      ensures cn != null ==> forall i :: k < i < |old(pending.nodes)| ==> old(pending.nodes)[i].jid != jid
      ensures cn != null ==> pending.nodes == RemoveAt(old(pending.nodes), k)
    {
      forall j | j in jobs.nodes
        ensures j.head !in pending.nodes && forall x :: x in pending.nodes ==> x !in j.workers
      {
        QueueApart(j);
      }
      hide PendingQueue.Valid, JobDll.Valid;
      cn, k := pending.Dequeue(jid);
      forall j | j in jobs.nodes
        ensures JobOk(j)
      {
        assert old(JobOk(j));
        assert j.head.prev == old(j.head.prev) && j.head.next == old(j.head.next);
        assert forall x :: x in j.workers ==>
          x.prev == old(x.prev) && x.next == old(x.next) && x.client == old(x.client);
      }
      assert jobs.Valid();
      assert forall x :: x in pending.nodes ==> x in old(pending.nodes);
    }

    /** The oldest parked piece of a job leaves the queue. */
    method Unpark(jid: int) returns (cn: ClientNode?)
      requires Wired() && ShowsQueue(pending.nodes, st.parked)
      modifies `st, pending, cnodes`prev, cnodes`next
      ensures Wired() && ShowsQueue(pending.nodes, st.parked)
      ensures cn == null <==> Oldest(old(st.parked), jid) == None
      ensures cn == null ==> st == old(st)
      ensures cn != null ==> var q := Oldest(old(st.parked), jid).value;
        cn.index == old(st.parked)[q].index && st == old(st).(parked := RemoveAt(old(st.parked), q))
    {
      hide Wired;
      ghost var k;
      cn, k := UnparkWired(jid);
      if cn != null {
        assert st.parked[k].jid == jid;
        st := st.(parked := RemoveAt(st.parked, k));
      }
    }

    method ParkWired(node: ClientNode)
      requires Wired() && node in cnodes && !node.sentinel && node !in pending.nodes
      requires forall j :: j in jobs.nodes ==> node !in j.workers && node != j.head
      modifies pending, node`client, cnodes`prev, cnodes`next
      ensures Wired() && pending.nodes == [node] + old(pending.nodes)
    {
      forall j | j in jobs.nodes
        ensures j.head !in pending.nodes && forall x :: x in pending.nodes ==> x !in j.workers
      {
        QueueApart(j);
      }
      hide JobDll.Valid;
      node.client := null;
      pending.Enqueue(node);
      hide PendingQueue.Valid;
      forall j | j in jobs.nodes
        ensures JobOk(j)
      {
        assert old(JobOk(j));
        assert j.head.prev == old(j.head.prev) && j.head.next == old(j.head.next);
        assert forall x :: x in j.workers ==>
          x.prev == old(x.prev) && x.next == old(x.next) && x.client == old(x.client);
      }
      assert jobs.Valid();
    }

    /** A node that left its worker list goes to the head of the queue, without a client. */
    method Park(node: ClientNode)
      requires Wired() && JobsTied(st.jobs) && ShowsQueue(pending.nodes, st.parked)
      requires node in cnodes && !node.sentinel && node !in pending.nodes
      requires forall j :: j in jobs.nodes ==> node !in j.workers && node != j.head
      modifies `st, pending, node`client, cnodes`prev, cnodes`next
      ensures Wired() && JobsTied(st.jobs) && ShowsQueue(pending.nodes, st.parked)
      ensures st == old(st).(parked := [Parked(node.jid, node.index)] + old(st.parked))
    {
      hide Wired, JobTied, Named;
      ParkWired(node);
      st := st.(parked := [Parked(node.jid, node.index)] + st.parked);
      forall j | j in jobs.nodes
        ensures JobTied(j, st.jobs[j.id], registry.clients)
      {
        assert old(JobTied(j, st.jobs[j.id], registry.clients));
        assert node !in j.workers;
      }
    }

    method EnterWired(id: int, initial: int) returns (job: JobNode)
      requires Wired() && forall x :: x in jobs.nodes ==> x.id != id
      modifies `cnodes, jobs`tail, jobs`nodes, jobs.head`next, jobs.nodes`next
      ensures Wired() && jobs.nodes == old(jobs.nodes) + [job] && fresh(job) && fresh(job.head)
      ensures cnodes == old(cnodes) + {job.head}
      ensures job.id == id && job.workers == [] && job.result == initial
    {
      hide PendingQueue.Valid;
      assert jobs.tail in [jobs.head] + jobs.nodes;
      job := jobs.AddJob(id, initial);
      hide Linked, JobDll.Valid;
      cnodes := cnodes + {job.head};
      forall j | j in jobs.nodes
        ensures JobOk(j)
      {
        if j != job { assert old(JobOk(j)); }
      }
    }

    /** `addJob`. */
    method EnterJob(id: int, initial: int) returns (job: JobNode)
      requires Wired() && JobsTied(st.jobs) && ClientsTied(st.recs, st.nextId, st.busy, st.jn) && id !in st.jobs
      modifies `st, `cnodes, jobs`tail, jobs`nodes, jobs.head`next, jobs.nodes`next
      ensures Wired() && JobsTied(st.jobs) && ClientsTied(st.recs, st.nextId, st.busy, st.jn)
      ensures jobs.nodes == old(jobs.nodes) + [job] && fresh(job) && fresh(job.head)
      ensures cnodes == old(cnodes) + {job.head} && job.id == id && job.workers == []
      ensures st == old(st).(jobs := old(st.jobs)[id := Job(initial, initial, [], 0, [])])
    {
      hide Wired, Recs;
      job := EnterWired(id, initial);
      ghost var v := Job(initial, initial, [], 0, []);
      assert JobTied(job, v, registry.clients);
      hide JobTied;
      forall j | j in jobs.nodes && j != job
        ensures j.id in st.jobs && JobTied(j, st.jobs[j.id], registry.clients)
      {
        assert old(JobTied(j, st.jobs[j.id], registry.clients));
      }
      assert jobs.nodes[..|jobs.nodes| - 1] == old(jobs.nodes);
      JobEntered(job, st.jobs, v);
      hide JobsTied;
      st := st.(jobs := st.jobs[id := v]);
    }

    lemma JobEntered(job: JobNode, vs: map<int, Job>, v: Job)
      requires OthersTied(job, vs) && job.id !in vs && JobTied(job, v, registry.clients)
      requires |jobs.nodes| > 0 && jobs.nodes[|jobs.nodes| - 1] == job && Named(jobs.nodes[..|jobs.nodes| - 1], vs)
      ensures JobsTied(vs[job.id := v])
    {
      hide JobTied;
    }

    // -------------------------------------------------------------------------------------------
    // Who holds what
    // -------------------------------------------------------------------------------------------

    ghost predicate Alone(client: ClientInfo)
      reads registry`clients
    {
      client in registry.clients && forall d :: d in registry.clients && d != client ==> d.id != client.id
    }

    lemma WorkersKnown(job: JobNode)
      requires Wired() && job in jobs.nodes
      ensures forall x :: x in job.workers ==> x.client != null && x in cnodes && !x.sentinel && x.jid == job.id
      ensures forall x :: x in job.workers ==> x !in pending.nodes
      ensures JobOk(job)
    {
      QueueApart(job);
    }

    lemma FoundIsFind(job: JobNode, client: ClientInfo, v: Job, k: nat)
      requires JobTied(job, v, registry.clients) && Alone(client)
      requires k < |job.workers| && job.workers[k].client == client
      requires forall i :: 0 <= i < k ==> job.workers[i].client != client
      ensures Find(v.workers, client.id) == Some(k)
    {
      TiedEach(job, v, registry.clients);
      forall i | 0 <= i < k
        ensures v.workers[i].client != client.id
      {
        assert ShowsOne(job.workers[i], v.workers[i], registry.clients);
      }
      assert ShowsOne(job.workers[k], v.workers[k], registry.clients);
    }

    lemma NotFoundIsNone(job: JobNode, client: ClientInfo, v: Job)
      requires JobTied(job, v, registry.clients) && Alone(client)
      requires forall i :: 0 <= i < |job.workers| ==> job.workers[i].client != client
      ensures Find(v.workers, client.id) == None
    {
      TiedEach(job, v, registry.clients);
      forall i | 0 <= i < |job.workers|
        ensures v.workers[i].client != client.id
      {
        assert ShowsOne(job.workers[i], v.workers[i], registry.clients);
      }
    }

    /** `getClientNode` on a job's list. */
    method NodeOf(job: JobNode, client: ClientInfo) returns (node: ClientNode?, ghost k: nat)
      requires Wired() && JobsTied(st.jobs) && job in jobs.nodes && Alone(client)
      ensures job.id in st.jobs
      ensures node == null <==> Find(st.jobs[job.id].workers, client.id) == None
      ensures node != null ==> Find(st.jobs[job.id].workers, client.id) == Some(k)
      ensures node != null ==> k < |job.workers| && job.workers[k] == node && node in cnodes && !node.sentinel
      ensures node != null ==> node !in pending.nodes && node.index == st.jobs[job.id].workers[k].index
      ensures node != null ==> node.jid == job.id
    {
      WorkersKnown(job);
      JobBefore(job, st.jobs);
      hide Wired, JobsTied, JobTied, Alone;
      node, k := GetClientNode(job, client);
      if node == null {
        NotFoundIsNone(job, client, st.jobs[job.id]);
      } else {
        FoundIsFind(job, client, st.jobs[job.id], k);
        TiedEach(job, st.jobs[job.id], registry.clients);
        assert ShowsOne(job.workers[k], st.jobs[job.id].workers[k], registry.clients);
      }
    }

    /** `assign_pending_job`. */
    method AssignPendingJob(job: JobNode, cn: ClientNode, client: ClientInfo) returns (ok: bool)
      requires Wired() && JobsTied(st.jobs) && ShowsQueue(pending.nodes, st.parked)
      requires job in jobs.nodes && Alone(client)
      modifies `st, cnodes`index
      ensures Wired() && JobsTied(st.jobs) && ShowsQueue(pending.nodes, st.parked)
      ensures job.id in old(st.jobs) && st == Give(old(st), client.id, job.id, old(cn.index))
      ensures ok <==> Find(old(st.jobs)[job.id].workers, client.id).Some?
    {
      hide Wired, JobsTied, ShowsQueue;
      var node;
      ghost var k;
      node, k := NodeOf(job, client);
      if node == null {
        return false;
      }
      var index := cn.index;
      SetIndex(job, k, node, index, st.jobs[job.id]);
      st := st.(sent := st.sent + [Task(client.id, job.id, index)]);
      ok := true;
    }

    method FreeFrom(job: JobNode, client: ClientInfo)
      requires Wired() && JobsTied(st.jobs) && ClientsTied(st.recs, st.nextId, st.busy, st.jn)
      requires job in jobs.nodes && Alone(client) && job.id >= 0
      modifies `st, jobs.nodes, cnodes`prev, cnodes`next, client`busy
      ensures Wired() && JobsTied(st.jobs) && ClientsTied(st.recs, st.nextId, st.busy, st.jn)
      ensures st == Release(old(st), client.id, job.id)
    {
      hide Wired, JobsTied, ClientsTied, RemoveAt;
      var current;
      ghost var k;
      current, k := NodeOf(job, client);
      if current != null {
        TakeOutWorker(job, current, k, st.jobs[job.id]);
        SetFree(client);
      }
    }

    lemma JobsNamed(job: JobNode?, id: int)
      requires JobsTied(st.jobs)
      requires job == null <==> forall x :: x in jobs.nodes ==> x.id != id
      requires job != null ==> job in jobs.nodes && job.id == id
      ensures job != null <==> id in st.jobs
    {
      hide JobTied;
      if id in st.jobs {
        assert Named(jobs.nodes, st.jobs);
        var i :| 0 <= i < |jobs.nodes| && jobs.nodes[i].id == id;
        assert jobs.nodes[i] in jobs.nodes;
      }
    }

    lemma WiredJobs()
      requires Wired()
      ensures jobs.Valid()
    {
    }

    /** `freeClient`, with the unlinking it is for. */
    method FreeClient(jobId: int, client: ClientInfo) returns (ok: bool)
      requires Wired() && JobsTied(st.jobs) && ClientsTied(st.recs, st.nextId, st.busy, st.jn)
      requires Alone(client)
      modifies `st, jobs.nodes, cnodes`prev, cnodes`next, client`busy
      ensures Wired() && JobsTied(st.jobs) && ClientsTied(st.recs, st.nextId, st.busy, st.jn)
      ensures ok <==> jobId >= 0 && jobId in old(st.jobs)
      ensures st == Release(old(st), client.id, jobId)
    {
      if jobId < 0 {
        return false;
      }
      hide Wired, JobsTied, ClientsTied, Alone, JobDll.Valid;
      WiredJobs();
      var jobNode := jobs.GetJobNode(jobId);
      JobsNamed(jobNode, jobId);
      if jobNode == null {
        return false;
      }
      FreeFrom(jobNode, client);
      ok := true;
    }

    // -------------------------------------------------------------------------------------------
    // Events
    // -------------------------------------------------------------------------------------------

    /** The newest client of a descriptor, and its job. */
    method Lookup(cfd: int) returns (client: ClientInfo?)
      requires registry.Valid() && Wired() && JobsTied(st.jobs) && ClientsTied(st.recs, st.nextId, st.busy, st.jn)
      ensures client == null <==> Newest(st.recs, cfd) == None
      ensures client != null ==> Alone(client) && client in registry.infos && client.cfd == cfd
      ensures client != null ==> Newest(st.recs, cfd) == Some(Record(client))
      ensures client != null ==>
        client.cg != null && ValidGid(client.cg.gid) && client.cg.gid == HomeGroup(Record(client))
      ensures client != null && client.jn == null ==> client.id !in st.jn
      ensures client != null && client.jn != null ==> client.jn in jobs.nodes && client.id in st.jn
      ensures client != null && client.jn != null ==> client.jn.id == st.jn[client.id] && client.jn.id in st.jobs
    {
      hide Recs, Newest, JobTied, Wired;
      client := registry.SearchClientFd(cfd);
      if client != null {
        registry.Known(client);
        assert ClientTied(client, jobs.nodes, st.busy, st.jn);
      }
    }

    /** The second half of `updateJobResult`: the client gets the oldest parked piece of the job, or is freed. */
    method NextPiece(job: JobNode, client: ClientInfo) returns (ok: bool)
      requires Wired() && JobsTied(st.jobs) && ClientsTied(st.recs, st.nextId, st.busy, st.jn)
      requires ShowsQueue(pending.nodes, st.parked) && job in jobs.nodes && Alone(client)
      requires job.id >= 0 && job.id in st.jobs
      modifies `st, jobs.nodes, cnodes`prev, cnodes`next, cnodes`index, pending, client`busy
      ensures Wired() && JobsTied(st.jobs) && ClientsTied(st.recs, st.nextId, st.busy, st.jn)
      ensures ShowsQueue(pending.nodes, st.parked) && ok
      ensures st == NextStep(old(st), client.id, job.id)
    {
      hide Wired, JobsTied, ClientsTied, ShowsQueue, Alone, Oldest, RemoveAt, Give, Release;
      var cn := Unpark(job.id);
      if cn != null {
        var given := AssignPendingJob(job, cn, client);
        ok := true;
      } else {
        ok := FreeClient(job.id, client);
      }
    }

    /** What `updateJobResult` does for a client with a job. */
    method FinishPiece(job: JobNode, client: ClientInfo, value: int) returns (ok: bool)
      requires Wired() && JobsTied(st.jobs) && ClientsTied(st.recs, st.nextId, st.busy, st.jn)
      requires ShowsQueue(pending.nodes, st.parked) && job in jobs.nodes && Alone(client)
      requires job.id >= 0 && job.id in st.jobs
      modifies `st, jobs.nodes, cnodes`prev, cnodes`next, cnodes`index, pending, client`busy
      ensures Wired() && JobsTied(st.jobs) && ClientsTied(st.recs, st.nextId, st.busy, st.jn)
      ensures ShowsQueue(pending.nodes, st.parked)
      ensures var held := Find(old(st).jobs[job.id].workers, client.id);
        ok && st == NextStep(Counted(old(st), job.id, held, value), client.id, job.id)
    {
      hide Wired, JobsTied, ClientsTied, ShowsQueue, Alone, Counted, NextStep;
      WiredJobs();
      hide JobDll.Valid;
      JobBefore(job, st.jobs);
      MergeValue(job, value, Find(st.jobs[job.id].workers, client.id));
      ok := NextPiece(job, client);
    }

    /** `updateJobResult`, whoever reports: for a client that holds a piece, or was never given work, the protocol's
        step; for others what the code does then, which StaleReportIff tells. */
    method UpdateJobResult(cfd: int, value: int) returns (ok: bool)
      requires Valid()
      modifies `st, jobs.nodes, cnodes`prev, cnodes`next, cnodes`index, pending, registry.infos`busy
      ensures Tied() && st == AfterReport(old(st), cfd, value)
      ensures Enabled(old(st), Result(cfd, value)) ==> Valid() && st == Step(old(st), Result(cfd, value))
      ensures ok <==> Newest(old(st).recs, cfd).Some? && Newest(old(st).recs, cfd).value.id in old(st).jn
    {
      hide Wired, JobsTied, ClientsTied, ShowsQueue, Alone, Registry.Valid, Inv, Newest, Step, Enabled, NextStep, Find;
      if Enabled(st, Result(cfd, value)) {
        JobTheorems.StepKeepsInv(st, Result(cfd, value));
        ReportInSteps(st, cfd, value);
      }
      IdsOk(st);
      var client := Lookup(cfd);
      if client == null || client.jn == null {
        return false;
      }
      ok := FinishPiece(client.jn, client, value);
    }

    /** A client goes on a job's worker list, with piece 0 for now. */
    method PutToWork(job: JobNode, client: ClientInfo) returns (node: ClientNode)
      requires Wired() && JobsTied(st.jobs) && ClientsTied(st.recs, st.nextId, st.busy, st.jn)
      requires job in jobs.nodes && Alone(client) && job.id in st.jobs
      modifies `st, `cnodes, job`tail, job`numClients, job`workers, cnodes`next, client`busy, client`jn
      ensures Wired() && JobsTied(st.jobs) && ClientsTied(st.recs, st.nextId, st.busy, st.jn)
      ensures st == Enlisted(old(st), client.id, job.id, 0)
      ensures job.workers == old(job.workers) + [node] && fresh(node) && cnodes == old(cnodes) + {node}
    {
      hide Wired, JobsTied, ClientsTied;
      node := AddWorker(job, client, st.jobs[job.id]);
      SetBusy(client, job);
    }

    /** The walk through one list. */
    static method FirstIn(h: ClientGroup?, ghost s: seq<ClientGroup>, ghost busy: set<nat>)
      returns (cg: ClientGroup?, ghost k: nat)
      requires Threaded(h, s) && forall i :: 0 <= i < |s| ==> (s[i].ci.busy <==> s[i].ci.id in busy)
      ensures k <= |s| && forall x :: x in s[..k] ==> x.ci.busy
      ensures cg == null ==> k == |s| && FirstFree(Ids(s), busy) == None
      ensures cg != null ==> k < |s| && s[k] == cg && !cg.ci.busy && FirstFree(Ids(s), busy) == Some(cg.ci.id)
    {
      hide FirstFree;
      k := 0;
      cg := h;
      assert Ids(s)[0..] == Ids(s);
      while cg != null && cg.ci.busy
        invariant 0 <= k <= |s| && cg == (if k == |s| then null else s[k])
        invariant FirstFree(Ids(s), busy) == FirstFree(Ids(s)[k..], busy)
        invariant forall j :: 0 <= j < k ==> s[j].ci.busy
        decreases |s| - k
      {
        FreeLater(Ids(s), k, busy);
        cg := cg.n;
        k := k + 1;
      }
      if cg != null {
        FreeHere(Ids(s), k, busy);
      } else {
        NoneFree(busy);
        assert Ids(s)[k..] == [];
      }
    }

    static lemma FreeLater(ids: seq<nat>, k: nat, busy: set<nat>)
      requires k < |ids| && ids[k] in busy
      ensures FirstFree(ids[k..], busy) == FirstFree(ids[k + 1..], busy)
    {
      assert ids[k..][1..] == ids[k + 1..];
    }

    static lemma FreeHere(ids: seq<nat>, k: nat, busy: set<nat>)
      requires k < |ids| && ids[k] !in busy
      ensures FirstFree(ids[k..], busy) == Some(ids[k])
    {
    }

    static lemma NoneFree(busy: set<nat>)
      ensures FirstFree([], busy) == None
    {
    }

    /** The first member of a group list that is not busy. */
    method FindFree(gid: nat) returns (cg: ClientGroup?, ghost k: nat)
      requires registry.Valid() && ClientsTied(st.recs, st.nextId, st.busy, st.jn) && ValidGid(gid)
      ensures gid <= |registry.lists| && k <= |registry.lists[gid - 1]|
      ensures forall x :: x in registry.lists[gid - 1][..k] ==> x.ci.busy
      ensures cg == null ==> k == |registry.lists[gid - 1]|
      ensures cg != null ==> k < |registry.lists[gid - 1]| && registry.lists[gid - 1][k] == cg && !cg.ci.busy
      ensures cg == null <==> FirstFree(Roster(st.recs, gid), st.busy) == None
      ensures cg != null ==> FirstFree(Roster(st.recs, gid), st.busy) == Some(cg.ci.id)
      ensures cg != null ==> cg.ci in registry.clients
    {
      GroupListed(gid);
      hide Roster, Recs, Registry.Valid, ClientsTied, Registry.GroupOk, FirstFree, Threaded;
      cg, k := FirstIn(registry.groups[gid - 1].h, registry.lists[gid - 1], st.busy);
    }

    lemma GroupListed(gid: nat)
      requires registry.Valid() && ClientsTied(st.recs, st.nextId, st.busy, st.jn) && ValidGid(gid)
      ensures |registry.lists| == registry.groups.Length == MAX_MULTICAST_GROUPS
      ensures var s := registry.lists[gid - 1];
        && Ids(s) == Roster(st.recs, gid) && Threaded(registry.groups[gid - 1].h, s)
        && (forall i :: 0 <= i < |s| ==> s[i].ci in registry.clients)
        && (forall i :: 0 <= i < |s| ==> (s[i].ci.busy <==> s[i].ci.id in st.busy))
    {
      hide Roster, Recs, Registry.Infos, Indexed, Registry.Anchored, Threaded;
      ghost var s := registry.lists[gid - 1];
      assert registry.GroupOk(gid - 1);
      forall i | 0 <= i < |s|
        ensures s[i].ci in registry.clients && (s[i].ci.busy <==> s[i].ci.id in st.busy)
      {
        assert s[i] in s && s[i].ci in registry.clients;
        assert ClientTied(s[i].ci, jobs.nodes, st.busy, st.jn);
      }
    }

    /** The free client found by `reassign_job` gets the piece of `oldcn` and is sent it. */
    method HandOver(job: JobNode, oldcn: ClientNode, client: ClientInfo)
      requires Wired() && JobsTied(st.jobs) && ClientsTied(st.recs, st.nextId, st.busy, st.jn)
      requires ShowsQueue(pending.nodes, st.parked)
      requires job in jobs.nodes && Alone(client) && job.id in st.jobs && oldcn in cnodes
      modifies `st, `cnodes, job`tail, job`numClients, job`workers, cnodes`next, client`busy, client`jn
      ensures Wired() && JobsTied(st.jobs) && ClientsTied(st.recs, st.nextId, st.busy, st.jn)
      ensures ShowsQueue(pending.nodes, st.parked)
      ensures st == Sent(Enlisted(old(st), client.id, job.id, oldcn.index), client.id, job.id, oldcn.index)
      ensures forall x :: x in cnodes && x !in old(cnodes) ==> fresh(x)
    {
      hide Wired, JobsTied, ClientsTied, ShowsQueue;
      JobBefore(job, st.jobs);
      ghost var k, was := |job.workers|, st;
      var cn := PutToWork(job, client);
      var index := oldcn.index;
      JobBefore(job, st.jobs);
      SetIndex(job, k, cn, index, st.jobs[job.id]);
      st := st.(sent := st.sent + [Task(client.id, job.id, index)]);
      IndexedLater(was, st, client.id, job.id, index);
    }

    /** The parking branch of `reassign_job`, which is only right while a later worker is on the list. */
    method ParkWorker(job: JobNode, oldcn: ClientNode, ghost k: nat)
      requires Wired() && JobsTied(st.jobs) && ShowsQueue(pending.nodes, st.parked)
      requires job in jobs.nodes && k + 1 < |job.workers| && job.workers[k] == oldcn
      requires job.id in st.jobs && k < |st.jobs[job.id].workers|
      modifies `st, jobs.nodes, pending, cnodes`client, cnodes`prev, cnodes`next
      ensures Wired() && JobsTied(st.jobs) && ShowsQueue(pending.nodes, st.parked)
      ensures var v := old(st.jobs[job.id]); st == old(st).(
        jobs := old(st.jobs)[job.id := v.(workers := RemoveAt(v.workers, k))],
        parked := [Parked(job.id, v.workers[k].index)] + old(st.parked))
    {
      hide Wired, JobsTied, ShowsQueue, RemoveAt;
      NodeLeaves(job, k);
      TakeOutWorker(job, oldcn, k, st.jobs[job.id]);
      Park(oldcn);
    }

    /** A node that leaves a worker list is then on none. */
    lemma NodeLeaves(job: JobNode, k: nat)
      requires Wired() && JobsTied(st.jobs) && job in jobs.nodes && k < |job.workers|
      ensures var x := job.workers[k]; x.jid == job.id && !x.sentinel && x in cnodes && x !in pending.nodes
      ensures job.id in st.jobs && k < |st.jobs[job.id].workers|
      ensures job.workers[k].index == st.jobs[job.id].workers[k].index
      ensures job.workers[k] !in RemoveAt(job.workers, k)
      ensures forall j :: j in jobs.nodes ==> job.workers[k] != j.head
      ensures forall j :: j in jobs.nodes && j != job ==> job.workers[k] !in j.workers
    {
      WorkersKnown(job);
      NodesDiffer(job);
      JobBefore(job, st.jobs);
      TiedEach(job, st.jobs[job.id], registry.clients);
      assert ShowsOne(job.workers[k], st.jobs[job.id].workers[k], registry.clients);
      forall j | j in jobs.nodes && j != job
        ensures job.workers[k] != j.head && job.workers[k] !in j.workers
      {
        JobsApart(job, j);
        assert JobOk(j);
      }
    }

    lemma OthersAlone(d: ClientInfo)
      requires registry.Valid() && d in registry.clients
      ensures Alone(d) && d in registry.infos
    {
      registry.Known(d);
    }

    /** What `reassign_job` does for a client that holds a piece. */
    method MovePiece(job: JobNode, client: ClientInfo, oldcn: ClientNode, gid: nat, ghost k: nat) returns (ok: bool)
      requires registry.Valid() && ValidGid(gid) && gid == HomeGroup(Record(client))
      requires Wired() && JobsTied(st.jobs) && ClientsTied(st.recs, st.nextId, st.busy, st.jn)
      requires ShowsQueue(pending.nodes, st.parked) && job in jobs.nodes && Alone(client)
      requires job.id >= 0 && Holding(st, Record(client)) == Some((job.id, k))
      requires CanReassign(st, Record(client), job.id, k)
      requires k < |job.workers| == |st.jobs[job.id].workers| && job.workers[k] == oldcn && oldcn in cnodes
      requires oldcn.index == st.jobs[job.id].workers[k].index && client in registry.infos
      modifies `st, `cnodes, jobs.nodes, cnodes, pending, registry.infos`busy, registry.infos`jn
      ensures Wired() && JobsTied(st.jobs) && ClientsTied(st.recs, st.nextId, st.busy, st.jn)
      ensures ShowsQueue(pending.nodes, st.parked) && ok
      ensures st == Reassign(old(st), Record(client), job.id, k)
      ensures forall x :: x in cnodes && x !in old(cnodes) ==> fresh(x)
    {
      hide Registry.Valid, Wired, JobsTied, ClientsTied, ShowsQueue, Alone, Roster, Holding, HomeGroup;
      hide Release, Enlisted, FirstFree, RemoveAt, Reassign;
      var cg, at := FindFree(gid);
      if cg == null {
        ParkIsReassign(st, Record(client), job.id, k);
        ParkWorker(job, oldcn, k);
      } else {
        OthersAlone(cg.ci);
        ReassignInSteps(st, Record(client), job.id, k, cg.ci.id);
        HandOver(job, oldcn, cg.ci);
        var freed := FreeClient(job.id, client);
      }
      ok := true;
    }

    method ReassignParts(cfd: int) returns (ok: bool)
      requires registry.Valid() && MayReassign(st, cfd) && forall j :: j in st.jobs ==> j >= 0
      requires Wired() && JobsTied(st.jobs) && ClientsTied(st.recs, st.nextId, st.busy, st.jn)
      requires ShowsQueue(pending.nodes, st.parked)
      modifies `st, `cnodes, jobs.nodes, cnodes, pending, registry.infos`busy, registry.infos`jn
      ensures Wired() && JobsTied(st.jobs) && ClientsTied(st.recs, st.nextId, st.busy, st.jn)
      ensures ShowsQueue(pending.nodes, st.parked) && ok && st == AfterReassign(old(st), cfd)
      ensures forall x :: x in cnodes && x !in old(cnodes) ==> fresh(x)
    {
      hide Registry.Valid, Wired, JobsTied, ClientsTied, ShowsQueue, Alone, Newest, Reassign, CanReassign;
      hide Holding, HomeGroup, Find;
      ok := true;
      var client := Lookup(cfd);
      if client == null {
        return;
      }
      var jobNode := client.jn;
      HoldingIsFind(st, Record(client));
      if jobNode == null {
        return;
      }
      var groupId := client.cg.gid;
      var oldcn;
      ghost var k;
      oldcn, k := NodeOf(jobNode, client);
      if oldcn == null {
        return;
      }
      JobBefore(jobNode, st.jobs);
      ok := MovePiece(jobNode, client, oldcn, groupId, k);
    }

    /** `reassign_job`, on an ALGO_ERROR. */
    method ReassignJob(cfd: int) returns (ok: bool)
      requires Valid() && Enabled(st, Error(cfd))
      modifies `st, `cnodes, jobs.nodes, cnodes, pending, registry.infos`busy, registry.infos`jn
      ensures Valid() && st == Step(old(st), Error(cfd)) && ok
      ensures forall x :: x in cnodes && x !in old(cnodes) ==> fresh(x)
    {
      hide Registry.Valid, Wired, JobsTied, ClientsTied, ShowsQueue, Inv, AfterReassign, MayReassign;
      JobTheorems.ReassignedInv(st, cfd);
      IdsOk(st);
      ok := ReassignParts(cfd);
    }

    /** No worker list, queue node, group list or bucket refers to the client. */
    ghost predicate Unreferenced(c: ClientInfo)
      reads registry`clients, registry`lists, registry`rows, jobs`nodes, jobs.nodes`workers, pending`nodes
      reads (set job, x | job in jobs.nodes && x in job.workers :: x)`client, pending.nodes`client
    {
      && c !in registry.clients
      && (forall job, x :: job in jobs.nodes && x in job.workers ==> x.client != c)
      && (forall x :: x in pending.nodes ==> x.client == null)
      && (forall g, x :: 0 <= g < |registry.lists| && x in registry.lists[g] ==> x.ci != c)
      && (forall b :: 0 <= b < |registry.rows| ==> c !in registry.rows[b])
    }

    /** A client without a piece is on no worker list. */
    lemma NotWorking(c: ClientInfo)
      requires Tied() && Inv(st) && c in registry.clients && Holding(st, Record(c)) == None
      ensures forall job, x :: job in jobs.nodes && x in job.workers ==> x.client != null && x.client != c
    {
      hide Inv, Registry.Valid, Wired, JobOk;
      forall job, x | job in jobs.nodes && x in job.workers
        ensures x.client != null && x.client != c
      {
        JobBefore(job, st.jobs);
        var v := st.jobs[job.id];
        TiedEach(job, v, registry.clients);
        var i :| 0 <= i < |job.workers| && job.workers[i] == x;
        assert ShowsOne(job.workers[i], v.workers[i], registry.clients);
        WorkersHold(st, job.id, i);
      }
    }

    lemma JobsShown()
      requires JobsTied(st.jobs)
      ensures forall job :: job in jobs.nodes ==> job.id in st.jobs && JobTied(job, st.jobs[job.id], registry.clients)
      ensures forall job, x :: job in jobs.nodes && x in job.workers ==> x in cnodes
      ensures Named(jobs.nodes, st.jobs)
    {
    }

    lemma QueueHasNoClients()
      requires Wired()
      ensures forall x :: x in pending.nodes ==> x.client == null
    {
    }

    lemma OtherClientsTied(c: ClientInfo, was: seq<ClientInfo>, busy: set<nat>, jn: map<nat, int>)
      requires registry.clients == Minus(was, c)
      requires forall d :: d in was && d != c ==> d.id != c.id && ClientTied(d, jobs.nodes, busy, jn)
      ensures forall d :: d in registry.clients ==> ClientTied(d, jobs.nodes, busy - {c.id}, jn - {c.id})
    {
      hide Minus;
      forall d | d in registry.clients
        ensures ClientTied(d, jobs.nodes, busy - {c.id}, jn - {c.id})
      {
        MinusIn(was, c, d);
      }
    }

    /** `server_del_one_client_fd` for a descriptor whose client, if it has one, is on no worker list. */
    method DropClient(cfd: int) returns (ghost c: ClientInfo?)
      requires registry.Valid() && Wired() && JobsTied(st.jobs) && ClientsTied(st.recs, st.nextId, st.busy, st.jn)
      requires forall d, job, x ::
        d in registry.clients && Newest(st.recs, cfd) == Some(Record(d)) && job in jobs.nodes && x in job.workers
        ==> x.client != d
      modifies `st, registry`lists, registry`rows, registry`clients, registry.groups, registry.buckets
      modifies registry.nodes`p, registry.nodes`n, registry.infos`l, registry.infos`r
      ensures registry.Valid() && Wired() && JobsTied(st.jobs) && ClientsTied(st.recs, st.nextId, st.busy, st.jn)
      ensures st == AfterDrop(old(st), cfd)
      ensures c == null <==> Newest(old(st).recs, cfd) == None
      ensures c != null ==> c in old(registry.clients) && Newest(old(st).recs, cfd) == Some(Record(c))
      ensures c != null ==> Unreferenced(c)
    {
      hide Registry.Valid, Wired, Recs, Minus, Newest, Leave, JobTied, ClientTied, JobsTied, Named;
      ghost var was := registry.clients;
      JobsShown();
      QueueHasNoClients();
      forall d | d in was
        ensures ClientTied(d, jobs.nodes, st.busy, st.jn) && forall e :: e in was && e != d ==> e.id != d.id
      {
        OthersAlone(d);
      }
      var ok;
      ghost var k;
      ok, k := registry.DelOneClientFd(cfd);
      c := null;
      if ok {
        c := was[k];
        ghost var rec := Record(was[k]);
        TiesWithout(was[k], was, st);
        registry.Gone(was[k]);
        OtherClientsTied(was[k], was, st.busy, st.jn);
        st := Unregister(st, rec);
      }
    }

    /** The end of `receive_data` for a closed connection: the piece its client holds goes elsewhere, then the client
        leaves the registry, and nothing refers to it any more. */
    method Disconnected(cfd: int) returns (ghost c: ClientInfo?)
      requires Valid() && Enabled(st, Disconnect(cfd))
      modifies `st, `cnodes, jobs.nodes, cnodes, pending, registry.infos
      modifies registry`lists, registry`rows, registry`clients, registry.groups, registry.buckets
      modifies registry.nodes`p, registry.nodes`n
      ensures Valid() && st == Step(old(st), Disconnect(cfd))
      ensures forall x :: x in cnodes && x !in old(cnodes) ==> fresh(x)
      ensures c == null <==> Newest(old(st).recs, cfd) == None
      ensures c != null ==> c in old(registry.clients) && Newest(old(st).recs, cfd) == Some(Record(c))
      ensures c != null ==> Unreferenced(c)
    {
      hide Registry.Valid, Wired, JobsTied, ClientsTied, ShowsQueue, Inv, Newest, Holding, Unreferenced, Unregister;
      hide ReassignIfHolding;
      ghost var s0 := st;
      JobTheorems.StepKeepsInv(st, Disconnect(cfd));
      var ok := ReassignJob(cfd);
      DisconnectInSteps(s0, cfd);
      forall d, job, x |
        d in registry.clients && Newest(st.recs, cfd) == Some(Record(d)) && job in jobs.nodes && x in job.workers
        ensures x.client != d
      {
        NotWorking(d);
      }
      c := DropClient(cfd);
    }

    /** One turn of the loop that reserves clients in `initJob`. */
    method ReserveOne(job: JobNode, ci: ClientInfo)
      requires registry.Valid() && ci in registry.clients
      requires Wired() && JobsTied(st.jobs) && ClientsTied(st.recs, st.nextId, st.busy, st.jn)
      requires ShowsQueue(pending.nodes, st.parked) && job in jobs.nodes && job.id in st.jobs
      modifies `st, `cnodes, job`tail, job`numClients, job`workers, cnodes`next, registry.infos`busy, registry.infos`jn
      ensures Wired() && JobsTied(st.jobs) && ClientsTied(st.recs, st.nextId, st.busy, st.jn)
      ensures ShowsQueue(pending.nodes, st.parked) && job.id in st.jobs && st.recs == old(st.recs)
      ensures st == if ci.id in old(st).busy then old(st) else Enlisted(old(st), ci.id, job.id, 0)
      ensures forall x :: x in cnodes && x !in old(cnodes) ==> fresh(x)
    {
      hide Registry.Valid, Wired, JobsTied, ShowsQueue, Alone, Recs;
      OthersAlone(ci);
      assert ClientTied(ci, jobs.nodes, st.busy, st.jn);
      hide ClientsTied;
      if !ci.busy {
        var node := PutToWork(job, ci);
        assert Enlisted(old(st), ci.id, job.id, 0).jobs.Keys == old(st).jobs.Keys;
      }
    }

    /** The k-th node of a group list, as the walk over the list meets it. */
    lemma Member(gid: nat, k: nat)
      requires registry.Valid() && ClientsTied(st.recs, st.nextId, st.busy, st.jn) && ValidGid(gid)
      ensures gid <= |registry.lists| && gid <= registry.groups.Length
      ensures var s := registry.lists[gid - 1];
        && Ids(s) == Roster(st.recs, gid) && |Roster(st.recs, gid)| == |s|
        && registry.groups[gid - 1].h == (if s == [] then null else s[0])
        && (k < |s| ==> s[k].ci in registry.clients && s[k].n == (if k == |s| - 1 then null else s[k + 1]))
        && (k < |s| ==> Ids(s)[k] == s[k].ci.id)
    {
      hide Roster, Recs, Registry.Infos, Indexed, Registry.Anchored;
      assert registry.GroupOk(gid - 1);
      var s := registry.lists[gid - 1];
      if k < |s| { assert s[k] in s; }
    }

    /** The loop of `initJob` over a group list. */
    method ReserveMembers(job: JobNode, gid: nat)
      requires registry.Valid() && ValidGid(gid)
      requires Wired() && JobsTied(st.jobs) && ClientsTied(st.recs, st.nextId, st.busy, st.jn)
      requires ShowsQueue(pending.nodes, st.parked) && job in jobs.nodes && job.id in st.jobs
      modifies `st, `cnodes, job`tail, job`numClients, job`workers, cnodes`next, registry.infos`busy, registry.infos`jn
      ensures Wired() && JobsTied(st.jobs) && ClientsTied(st.recs, st.nextId, st.busy, st.jn)
      ensures ShowsQueue(pending.nodes, st.parked)
      ensures st == ReserveAll(old(st), Roster(old(st).recs, gid), job.id) && job.id in st.jobs
      ensures forall x :: x in cnodes && x !in old(cnodes) ==> fresh(x)
    {
      hide Registry.Valid, Wired, JobsTied, ClientsTied, ShowsQueue, Roster, Enlisted, ReserveAll, Ids;
      Member(gid, 0);
      ghost var s, k := registry.lists[gid - 1], 0;
      ghost var ids := Roster(st.recs, gid);
      var cg := registry.groups[gid - 1].h;
      assert ids[0..] == ids;
      while cg != null
        invariant 0 <= k <= |s| == |ids| && cg == (if k == |s| then null else s[k])
        invariant Wired() && JobsTied(st.jobs) && ClientsTied(st.recs, st.nextId, st.busy, st.jn)
        invariant ShowsQueue(pending.nodes, st.parked) && job.id in st.jobs && st.recs == old(st).recs
        invariant ReserveAll(st, ids[k..], job.id) == ReserveAll(old(st), ids, job.id)
        invariant forall x :: x in cnodes && x !in old(cnodes) ==> fresh(x)
        decreases |s| - k
      {
        Member(gid, k);
        assert ids[k..][1..] == ids[k + 1..];
        ReserveMore(st, ids[k..], job.id);
        ReserveOne(job, cg.ci);
        cg := cg.n;
        k := k + 1;
      }
      assert ids[k..] == [];
      ReserveEnd(st, job.id);
    }

    method AssignOne(job: JobNode, i: nat, current: ClientNode)
      requires Wired() && JobsTied(st.jobs) && ShowsQueue(pending.nodes, st.parked)
      requires job in jobs.nodes && i < |job.workers| && job.workers[i] == current
      requires job.id in st.jobs && |st.jobs[job.id].workers| == |job.workers|
      modifies `st, current`index
      ensures Wired() && JobsTied(st.jobs) && ShowsQueue(pending.nodes, st.parked)
      ensures st == Assigned(old(st), job.id, i)
    {
      hide Wired, JobsTied, ShowsQueue;
      ghost var client := st.jobs[job.id].workers[i].client;
      SetIndex(job, i, current, i, st.jobs[job.id]);
      st := st.(sent := st.sent + [Task(client, job.id, i)]);
    }

    lemma Walk(job: JobNode)
      requires Wired() && JobsTied(st.jobs) && job in jobs.nodes
      ensures job.id in st.jobs && job.numClients == |job.workers| == |st.jobs[job.id].workers|
      ensures job.head.next == if job.workers == [] then null else job.workers[0]
      ensures forall i {:trigger job.workers[i]} :: 0 <= i < |job.workers| ==>
        job.workers[i] in cnodes && job.workers[i].next == if i == |job.workers| - 1 then null else job.workers[i + 1]
    {
      JobBefore(job, st.jobs);
      assert JobOk(job) && forall x :: x in job.workers ==> x in cnodes;
      hide Wired, JobsTied, OthersTied, JobTied, Named;
      Links(job);
    }

    static lemma Links(job: JobNode)
      requires JobOk(job)
      ensures job.numClients == |job.workers|
      ensures job.head.next == if job.workers == [] then null else job.workers[0]
      ensures forall i {:trigger job.workers[i]} :: 0 <= i < |job.workers| ==>
        job.workers[i].next == if i == |job.workers| - 1 then null else job.workers[i + 1]
    {
      ghost var ws := job.workers;
      ghost var s := [job.head] + ws;
      assert s[0] == job.head && s[0].next == if |s| == 1 then null else s[1];
      forall i | 0 <= i < |ws|
        ensures ws[i].next == if i == |ws| - 1 then null else ws[i + 1]
      {
        assert s[i + 1] == ws[i] && s[i + 1].next == if i + 1 == |s| - 1 then null else s[i + 2];
      }
    }

    /** `assignJob`: the workers get the pieces 0, 1, 2, ... in list order, and are sent them. */
    method AssignJob(job: JobNode)
      requires Wired() && JobsTied(st.jobs) && ShowsQueue(pending.nodes, st.parked)
      requires job in jobs.nodes && job.id in st.jobs
      modifies `st, cnodes`index
      ensures Wired() && JobsTied(st.jobs) && ShowsQueue(pending.nodes, st.parked)
      ensures st == AssignFrom(old(st), job.id, 0) == old(st).(jobs := st.jobs, sent := st.sent) && job.id in st.jobs
      ensures |st.jobs[job.id].workers| == |job.workers|
    {
      hide Wired, JobsTied, ShowsQueue, AssignFrom, Assigned;
      Walk(job);
      var current := job.head.next;
      var i := 0;
      while current != null
        invariant 0 <= i <= |job.workers| && current == (if i == |job.workers| then null else job.workers[i])
        invariant Wired() && JobsTied(st.jobs) && ShowsQueue(pending.nodes, st.parked)
        invariant job.id in st.jobs && |st.jobs[job.id].workers| == |job.workers|
        invariant AssignFrom(st, job.id, i) == AssignFrom(old(st), job.id, 0)
        invariant st == old(st).(jobs := st.jobs, sent := st.sent)
        decreases |job.workers| - i
      {
        AssignMore(st, job.id, i);
        AssignOne(job, i, current);
        current := current.next;
        i := i + 1;
      }
      AssignEnd(st, job.id, i);
    }

    /** The number of pieces is known from now on. */
    ghost method HandOut(job: JobNode)
      requires JobsTied(st.jobs) && job in jobs.nodes && job.id in st.jobs
      modifies `st
      ensures JobsTied(st.jobs) && st == HandedOut(old(st), job.id)
    {
      hide Shows;
      st := HandedOut(st, job.id);
    }

    /** The first half of `initJob`. */
    method EnterAndReserve(groupId: nat, jobId: int, initial: int) returns (job: JobNode)
      requires registry.Valid() && ValidGid(groupId) && jobId !in st.jobs
      requires Wired() && JobsTied(st.jobs) && ClientsTied(st.recs, st.nextId, st.busy, st.jn)
      requires ShowsQueue(pending.nodes, st.parked)
      modifies `st, `cnodes, jobs`tail, jobs`nodes, jobs.head`next, jobs.nodes, cnodes
      modifies registry.infos`busy, registry.infos`jn
      ensures Wired() && JobsTied(st.jobs) && ClientsTied(st.recs, st.nextId, st.busy, st.jn)
      ensures ShowsQueue(pending.nodes, st.parked) && job in jobs.nodes && job.id == jobId && jobId in st.jobs
      ensures st == ReserveAll(Entered(old(st), jobId, initial), Roster(old(st).recs, groupId), jobId)
      ensures forall i :: |old(jobs.nodes)| <= i < |jobs.nodes| ==> fresh(jobs.nodes[i])
      ensures forall x :: x in cnodes && x !in old(cnodes) ==> fresh(x)
    {
      hide Registry.Valid, Wired, JobsTied, ClientsTied, ShowsQueue, ReserveAll, Roster;
      job := EnterJob(jobId, initial);
      ReserveMembers(job, groupId);
    }

    /** The second half of `initJob`. */
    method DivideAndAssign(job: JobNode, divided: bool) returns (sent: bool)
      requires Wired() && JobsTied(st.jobs) && ShowsQueue(pending.nodes, st.parked)
      requires job in jobs.nodes && job.id in st.jobs
      modifies `st, cnodes`index
      ensures Wired() && JobsTied(st.jobs) && ShowsQueue(pending.nodes, st.parked)
      ensures sent <==> divided && old(st).jobs[job.id].workers != []
      ensures st == old(st).(jobs := st.jobs, sent := st.sent)
      ensures !sent ==> st == old(st)
      ensures var s2 := AssignFrom(old(st), job.id, 0); sent ==> job.id in s2.jobs && st == HandedOut(s2, job.id)
      ensures sent ==> st.jobs[job.id].pieces > 0
    {
      hide Wired, JobsTied, ShowsQueue, AssignFrom;
      Walk(job);
      if job.numClients == 0 {
        return false;
      }
      if !divided {
        return false;
      }
      AssignJob(job);
      HandOut(job);
      return true;
    }

    method InitParts(groupId: int, jobId: int, initial: int, divided: bool) returns (sent: bool)
      requires registry.Valid() && groupId <= MAX_MULTICAST_GROUPS && jobId !in st.jobs
      requires Wired() && JobsTied(st.jobs) && ClientsTied(st.recs, st.nextId, st.busy, st.jn)
      requires ShowsQueue(pending.nodes, st.parked)
      modifies `st, `cnodes, jobs`tail, jobs`nodes, jobs.head`next, jobs.nodes, cnodes
      modifies registry.infos`busy, registry.infos`jn
      ensures Wired() && JobsTied(st.jobs) && ClientsTied(st.recs, st.nextId, st.busy, st.jn)
      ensures ShowsQueue(pending.nodes, st.parked)
      ensures st == StartJob(old(st), groupId, jobId, initial, divided)
      ensures forall x :: x in cnodes && x !in old(cnodes) ==> fresh(x)
      ensures forall i :: |old(jobs.nodes)| <= i < |jobs.nodes| ==> fresh(jobs.nodes[i])
      ensures sent <==> groupId > 0 && jobId >= 0 && jobId in st.jobs && st.jobs[jobId].pieces > 0
    {
      hide Registry.Valid, Wired, JobsTied, ClientsTied, ShowsQueue, StartJob, ReserveAll, AssignFrom, Roster;
      if groupId <= 0 || jobId < 0 {
        StartNothing(st, groupId, jobId, initial, divided);
        return false;
      }
      StartInSteps(st, groupId, jobId, initial, divided);
      var job := EnterAndReserve(groupId, jobId, initial);
      sent := DivideAndAssign(job, divided);
      StartedPieces(old(st), groupId, jobId, initial, divided);
    }

    lemma StartedPieces(s: State, gid: int, jid: int, initial: int, divided: bool)
      requires gid > 0 && jid >= 0
      ensures var t := StartJob(s, gid, jid, initial, divided);
        jid in t.jobs && (t.jobs[jid].pieces > 0 <==> divided && t.jobs[jid].workers != [])
    {
      hide Roster, Reserve;
    }

    /** `initJob`; the protocol's number of pieces is only set when they are handed out. */
    method InitJob(groupId: int, jobId: int, initial: int, divided: bool) returns (sent: bool)
      requires Valid() && Enabled(st, NewJob(groupId, jobId, initial, divided))
      modifies `st, `cnodes, jobs`tail, jobs`nodes, jobs.head`next, jobs.nodes, cnodes
      modifies registry.infos`busy, registry.infos`jn
      ensures Valid() && st == Step(old(st), NewJob(groupId, jobId, initial, divided))
      ensures forall x :: x in cnodes && x !in old(cnodes) ==> fresh(x)
      ensures forall i :: |old(jobs.nodes)| <= i < |jobs.nodes| ==> fresh(jobs.nodes[i])
      ensures sent <==> groupId > 0 && jobId >= 0 && divided && exists i ::
        0 <= i < |old(st).recs| && groupId in old(st).recs[i].gids && old(st).recs[i].id !in old(st).busy
    {
      hide Registry.Valid, Wired, JobsTied, ClientsTied, ShowsQueue, Inv, StartJob;
      if groupId > 0 && jobId >= 0 { JobEffects.HandedOutIff(st, groupId, jobId, initial, divided); }
      JobTheorems.StepKeepsInv(st, NewJob(groupId, jobId, initial, divided));
      sent := InitParts(groupId, jobId, initial, divided);
    }

    lemma TiesWith(c: ClientInfo, was: seq<ClientInfo>)
      requires registry.clients == [c] + was
      requires forall job :: job in jobs.nodes ==> job.id in st.jobs && JobTied(job, st.jobs[job.id], was)
      requires forall job, x :: job in jobs.nodes && x in job.workers ==> x in cnodes
      requires Named(jobs.nodes, st.jobs)
      ensures JobsTied(st.jobs)
    {
      hide Named;
      forall job | job in jobs.nodes
        ensures JobTied(job, st.jobs[job.id], registry.clients)
      {
        TiedEach(job, st.jobs[job.id], was);
        TiedSet(job, st.jobs[job.id], registry.clients);
      }
    }

    /** JOIN_GROUP: a client registers with the groups it asks for. */
    method JoinGroups(cfd: int, gids: seq<nat>)
      requires Valid()
      modifies `st, registry`lists, registry`nodes, registry`rows, registry`infos, registry`clients, registry`chains
      modifies registry`nextId, registry.groups, registry.buckets, registry.nodes`p, registry.nodes`n, registry.infos`l
      ensures Valid() && st == Step(old(st), Joins(cfd, gids))
      ensures forall x :: x in registry.nodes && x !in old(registry.nodes) ==> fresh(x)
      ensures forall c :: c in registry.infos && c !in old(registry.infos) ==> fresh(c)
    {
      hide Registry.Valid, Wired, JobsTied, JobTied, ClientTied, ShowsQueue, Inv, Named, Fits, Recs;
      JobTheorems.StepKeepsInv(st, Joins(cfd, gids));
      ghost var was := registry.clients;
      JobsShown();
      NewNumber(st);
      var ok := registry.AddOneClientFd(cfd, gids);
      if ok && Fits(st.recs, gids) {
        RecsFirst(registry.clients);
        TiesWith(registry.clients[0], was);
        NewClientTied(registry.clients[0], jobs.nodes, st);
      }
      st := Step(st, Joins(cfd, gids));
    }

    lemma TiesWithout(c: ClientInfo, was: seq<ClientInfo>, s: State)
      requires registry.clients == Minus(was, c)
      requires forall job, x :: job in jobs.nodes && x in job.workers ==> x.client != c
      requires forall job :: job in jobs.nodes ==> job.id in s.jobs && JobTied(job, s.jobs[job.id], was)
      requires forall job, x :: job in jobs.nodes && x in job.workers ==> x in cnodes
      requires Named(jobs.nodes, s.jobs)
      ensures JobsTied(s.jobs)
    {
      hide Minus, Named;
      forall job | job in jobs.nodes
        ensures JobTied(job, s.jobs[job.id], registry.clients)
      {
        TiedEach(job, s.jobs[job.id], was);
        forall i | 0 <= i < |job.workers|
          ensures ShowsOne(job.workers[i], s.jobs[job.id].workers[i], registry.clients)
        {
          assert ShowsOne(job.workers[i], s.jobs[job.id].workers[i], was);
          assert job.workers[i] in job.workers;
          MinusIn(was, c, job.workers[i].client);
        }
        TiedSet(job, s.jobs[job.id], registry.clients);
      }
    }
  }

  lemma StartNothing(s: State, gid: int, jid: int, initial: int, divided: bool)
    requires gid <= 0 || jid < 0
    ensures StartJob(s, gid, jid, initial, divided) == s
  {
  }

  lemma NewNumber(s: State)
    requires Inv(s)
    ensures s.nextId !in s.busy && s.nextId !in s.jn
  {
    hide Partitioned, Best, ParkedPieces, WorkersInv, SentInv, ParkedInv;
  }

  lemma RecsFirst(cs: seq<ClientInfo>)
    requires cs != []
    ensures Recs(cs) != [] && Recs(cs)[0] == Record(cs[0])
  {
  }

  lemma NewClientTied(c: ClientInfo, nodes: seq<JobNode>, s: State)
    requires !c.busy && c.jn == null && c.id !in s.busy && c.id !in s.jn
    ensures ClientTied(c, nodes, s.busy, s.jn)
  {
  }

  function AfterDrop(s: State, cfd: int): State {
    match Newest(s.recs, cfd)
    case None => s
    case Some(rec) => Unregister(s, rec)
  }

  /** After its piece has moved, the client of the descriptor holds none, and is still the one to remove. */
  lemma DisconnectInSteps(s: State, cfd: int)
    requires Inv(s) && Enabled(s, Disconnect(cfd))
    ensures var t := AfterReassign(s, cfd);
      && t.recs == s.recs && Step(s, Disconnect(cfd)) == AfterDrop(t, cfd)
      && forall rec: Rec :: Newest(t.recs, cfd) == Some(rec) ==> Holding(t, rec) == None
  {
    hide Inv, Newest, Unregister, Holding;
    if Newest(s.recs, cfd).Some? {
      var rec := Newest(s.recs, cfd).value;
      JobTheorems.ReleasedByReassign(s, rec);
      RecsStay(s, rec);
    }
  }

  lemma RecsStay(s: State, rec: Rec)
    ensures ReassignIfHolding(s, rec).recs == s.recs
  {
    hide Holding, FirstFree, Roster, RemoveAt;
  }

  lemma WorkersHold(s: State, j: int, i: nat)
    requires Inv(s) && j in s.jobs && i < |s.jobs[j].workers|
    ensures var c := s.jobs[j].workers[i].client; forall rec: Rec :: rec.id == c ==> Holding(s, rec) != None
  {
    hide Partitioned, Best, ParkedPieces, Registered;
  }

  /** Enlisting a client with piece 0 and setting its piece afterwards is enlisting it with that piece. */
  lemma IndexedLater(s: State, t: State, client: nat, jid: int, index: int)
    requires jid in s.jobs
    requires var s1 := Enlisted(s, client, jid, 0); var v := s1.jobs[jid]; var k := |s.jobs[jid].workers|;
      t == s1.(jobs := s1.jobs[jid := v.(workers := v.workers[k := Worker(v.workers[k].client, index)])],
               sent := s1.sent + [Task(client, jid, index)])
    ensures t == Sent(Enlisted(s, client, jid, index), client, jid, index)
  {
    var ws := s.jobs[jid].workers;
    assert (ws + [Worker(client, 0)])[|ws| := Worker(client, index)] == ws + [Worker(client, index)];
  }

  lemma HoldingIsFind(s: State, rec: Rec)
    ensures rec.id !in s.jn ==> Holding(s, rec) == None
    ensures rec.id in s.jn && s.jn[rec.id] in s.jobs ==>
      var jid := s.jn[rec.id]; var found := Find(s.jobs[jid].workers, rec.id);
      Holding(s, rec) == if found.Some? then Some((jid, found.value)) else None
  {
  }

  lemma IdsOk(s: State)
    requires Inv(s)
    ensures forall j :: j in s.jobs ==> j >= 0
  {
  }

  lemma TiedEach(job: JobNode, v: Job, clients: seq<ClientInfo>)
    requires JobTied(job, v, clients)
    ensures job.result == v.result && |job.workers| == |v.workers|
    ensures forall i :: 0 <= i < |job.workers| ==> ShowsOne(job.workers[i], v.workers[i], clients)
  {
  }

  lemma TiedSet(job: JobNode, v: Job, clients: seq<ClientInfo>)
    requires job.result == v.result && |job.workers| == |v.workers|
    requires forall i :: 0 <= i < |job.workers| ==> ShowsOne(job.workers[i], v.workers[i], clients)
    ensures JobTied(job, v, clients)
  {
  }
}
