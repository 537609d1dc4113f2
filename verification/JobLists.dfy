/** The linked lists of server/src/jobs.c: the worker list of a job, which starts at a dummy node, and the queue of
    pending pieces. */
module JobLists {
  import opened Structures
  import opened JobProtocol

  // ---------------------------------------------------------------------------------------------
  // Pointer surgery
  // ---------------------------------------------------------------------------------------------

  /** A doubly linked list: both link directions, no node twice. */
  ghost predicate Linked(s: seq<ClientNode>)
    reads s`prev, s`next
  {
    && (forall i {:trigger s[i].prev} :: 0 <= i < |s| ==> s[i].prev == if i == 0 then null else s[i - 1])
    && (forall i {:trigger s[i].next} :: 0 <= i < |s| ==> s[i].next == if i == |s| - 1 then null else s[i + 1])
    && (forall i, j :: 0 <= i < j < |s| ==> s[i] != s[j])
  }

  method LinkLast(node: ClientNode, last: ClientNode, ghost s: seq<ClientNode>)
    requires Linked(s) && s != [] && s[|s| - 1] == last && node !in s && node.prev == last && node.next == null
    modifies last`next
    ensures Linked(s + [node])
  {
    last.next := node;
  }

  /** Both neighbours of a node, if it has them, are linked past it. */
  method LinkPast(node: ClientNode, ghost s: seq<ClientNode>, ghost k: nat)
    requires k < |s| && s[k] == node && Linked(s)
    modifies s`prev, s`next
    ensures Linked(RemoveAt(s, k))
    ensures node.prev == old(node.prev) && node.next == old(node.next)
  {
    if node.prev != null {
      node.prev.next := node.next;
    }
    if node.next != null {
      node.next.prev := node.prev;
    }
  }

  // ---------------------------------------------------------------------------------------------
  // The worker list of a job
  // ---------------------------------------------------------------------------------------------

  /** The worker list is linked from the dummy to the tail, and numClients is its length. */
  ghost predicate JobOk(job: JobNode)
    reads job`tail, job`numClients, job`workers, job.head`prev, job.head`next
    reads job.workers`prev, job.workers`next, job.workers`client
  {
    && Linked([job.head] + job.workers)
    && job.tail == ([job.head] + job.workers)[|job.workers|]
    && job.numClients == |job.workers|
    && job.head.sentinel && job.head.jid == job.id
    && forall x :: x in job.workers ==> x.jid == job.id && !x.sentinel && x.client != null
  }

  /** `addClientToJob`: a new node at the tail. */
  method AddClientToJob(job: JobNode, client: ClientInfo) returns (node: ClientNode)
    requires JobOk(job)
    modifies job`tail, job`numClients, job`workers, job.tail`next
    ensures JobOk(job) && job.workers == old(job.workers) + [node]
    ensures fresh(node) && node.client == client && node.jid == job.id && node.index == 0
  {
    node := new ClientNode(client, job.id, false);
    node.next, node.prev := null, job.tail;
    LinkLast(node, job.tail, [job.head] + job.workers);
    job.tail := node;
    job.numClients := job.numClients + 1;
    assert [job.head] + (job.workers + [node]) == ([job.head] + job.workers) + [node];
    job.workers := job.workers + [node];
  }

  /** `getClientNode`: the client's node on the list, or null. */
  method GetClientNode(job: JobNode, client: ClientInfo) returns (current: ClientNode?, ghost k: nat)
    requires JobOk(job)
    ensures current == null ==> forall i :: 0 <= i < |job.workers| ==> job.workers[i].client != client
    ensures current != null ==> k < |job.workers| && job.workers[k] == current && current.client == client
    ensures current != null ==> forall i :: 0 <= i < k ==> job.workers[i].client != client
  {
    ghost var all := [job.head] + job.workers;
    k := 0;
    assert job.head == all[0];
    current := job.head.next;
    while current != null && current.client != client
      invariant 0 <= k <= |job.workers| && current == (if k == |job.workers| then null else job.workers[k])
      invariant forall i :: 0 <= i < k ==> job.workers[i].client != client
      decreases |job.workers| - k
    {
      assert current == all[k + 1];
      current := current.next;
      k := k + 1;
    }
  }

  /** The unlinking that `freeClient` and the parking branch of `reassign_job` are for: the node leaves the list. */
  method TakeOut(job: JobNode, node: ClientNode, ghost k: nat)
    requires JobOk(job) && k < |job.workers| && job.workers[k] == node
    modifies job`tail, job`numClients, job`workers, job.head`prev, job.head`next, job.workers`prev, job.workers`next
    ensures JobOk(job) && job.workers == RemoveAt(old(job.workers), k)
  {
    ghost var all := [job.head] + job.workers;
    assert all[k + 1] == node && RemoveAt(all, k + 1) == [job.head] + RemoveAt(job.workers, k);
    if node.next == null {
      job.tail := node.prev;
    }
    LinkPast(node, all, k + 1);
    job.numClients := job.numClients - 1;
    job.workers := RemoveAt(job.workers, k);
  }

  /** `freeClient` as the code has it: with a later worker on the list, only that worker's back link is mended, so the
      list still leads to the freed node.  It is well formed afterwards exactly if the freed worker was the last. */
  method FreeClientAsWritten(job: JobNode, client: ClientInfo) returns (ghost k: nat)
    requires JobOk(job) && exists i :: 0 <= i < |job.workers| && job.workers[i].client == client
    modifies job`tail, job`numClients, client`busy, job.head`next, job.workers`prev, job.workers`next
    ensures k < |job.workers| && job.workers[k].client == client && !client.busy
    ensures forall i :: 0 <= i < k ==> job.workers[i].client != client
    ensures Linked([job.head] + RemoveAt(job.workers, k)) <==> k + 1 == |job.workers|
    ensures k + 1 < |job.workers| ==> ([job.head] + job.workers)[k].next == job.workers[k]
    ensures k + 1 < |job.workers| ==>
      job.workers[k + 1].prev == ([job.head] + job.workers)[k] && job.tail == old(job.tail)
    ensures k + 1 == |job.workers| ==> job.tail == ([job.head] + job.workers)[k]
    ensures job.numClients == |RemoveAt(job.workers, k)|
  {
    ghost var all := [job.head] + job.workers;
    var current;
    current, k := GetClientNode(job, client);
    assert all[k + 1] == current;
    assert RemoveAt(all, k + 1) == [job.head] + RemoveAt(job.workers, k);
    if current.next == null {
      current.prev.next := null;
      client.busy := false;
      job.tail := current.prev;
      job.numClients := job.numClients - 1;
    } else {
      current.next.prev := current.prev;
      client.busy := false;
      job.numClients := job.numClients - 1;
      var rest := RemoveAt(all, k + 1);
      assert rest[k] == all[k] && rest[k + 1] == all[k + 2] && rest[k].next == all[k + 1];
    }
  }

  // ---------------------------------------------------------------------------------------------
  // The queue of pending pieces
  // ---------------------------------------------------------------------------------------------

  /** `reassignQ`. */
  class PendingQueue {
    var head: ClientNode?
    var tail: ClientNode?
    ghost var nodes: seq<ClientNode>  // head first, so newest first

    ghost predicate Valid()
      reads this, nodes`prev, nodes`next, nodes`client
    {
      && Linked(nodes)
      && head == (if nodes == [] then null else nodes[0])
      && tail == (if nodes == [] then null else nodes[|nodes| - 1])
      && forall x :: x in nodes ==> !x.sentinel && x.client == null
    }

    constructor ()
      ensures Valid() && nodes == []
    {
      head, tail, nodes := null, null, [];
    }

    /** `enqueue_pending_job`. */
    method Enqueue(cn: ClientNode)
      requires Valid() && cn !in nodes && !cn.sentinel && cn.client == null
      modifies this, cn`prev, cn`next, nodes`prev
      ensures Valid() && nodes == [cn] + old(nodes)
    {
      cn.next := head;
      cn.prev := null;
      if head != null {
        head.prev := cn;
      } else {
        tail := cn;
      }
      head := cn;
      nodes := [cn] + nodes;
    }

    /** `dequeue_pending_job`: the job's oldest piece leaves the queue; all others keep their places. */
    method Dequeue(jid: int) returns (cur: ClientNode?, ghost k: nat)
      requires Valid()
      modifies this, nodes`prev, nodes`next
      ensures Valid()
      ensures cur == null ==> nodes == old(nodes) && forall i :: 0 <= i < |nodes| ==> nodes[i].jid != jid
      ensures cur != null ==> k < |old(nodes)| && old(nodes)[k] == cur && cur.jid == jid
      ensures cur != null ==> forall i :: k < i < |old(nodes)| ==> old(nodes)[i].jid != jid
      ensures cur != null ==> nodes == RemoveAt(old(nodes), k) && cur !in nodes
    {
      cur := tail;
      k := if nodes == [] then 0 else |nodes| - 1;
      while cur != null && cur.jid != jid
        invariant cur != null ==> k < |nodes| && nodes[k] == cur
        invariant forall i :: (if cur == null then 0 else k + 1) <= i < |nodes| ==> nodes[i].jid != jid
        decreases if cur == null then 0 else k + 1
      {
        cur := cur.prev;
        if cur != null { k := k - 1; }
      }
      if cur != null {
        Drop(cur, k);
      }
    }

    method Drop(cur: ClientNode, ghost k: nat)
      requires Valid() && k < |nodes| && nodes[k] == cur
      modifies this, nodes`prev, nodes`next
      ensures Valid() && nodes == RemoveAt(old(nodes), k) && cur !in nodes
    {
      if cur.prev == null {
        head := cur.next;
      }
      if cur.next == null {
        tail := cur.prev;
      }
      LinkPast(cur, nodes, k);
      nodes := RemoveAt(nodes, k);
    }
  }

  // ---------------------------------------------------------------------------------------------
  // The list of jobs
  // ---------------------------------------------------------------------------------------------

  /** `pHead` and `pTail`. */
  class JobDll {
    const head: JobNode   // the dummy with id -1
    var tail: JobNode
    ghost var nodes: seq<JobNode>

    ghost predicate Valid()
      reads this, head`next, nodes`next
    {
      var all := [head] + nodes;
      && tail == all[|nodes|]
      && (forall i {:trigger all[i].next} :: 0 <= i < |all| ==>
            all[i].next == if i == |nodes| then null else all[i + 1])
      && (forall i, j :: 0 <= i < j < |all| ==> all[i] != all[j])
      && (forall i, j :: 0 <= i < j < |nodes| ==> nodes[i].id != nodes[j].id)
    }

    /** `initializeJobDll`. */
    constructor ()
      ensures Valid() && nodes == [] && fresh(head)
    {
      var dummy := new JobNode(-1, 0);
      head := dummy;
      tail := dummy;
      nodes := [];
    }

    /** `addJob`. */
    method AddJob(id: int, result: int) returns (job: JobNode)
      requires Valid() && forall x :: x in nodes ==> x.id != id
      modifies `tail, `nodes, tail`next
      ensures Valid() && nodes == old(nodes) + [job] && fresh(job) && fresh(job.head)
      ensures JobOk(job) && job.id == id && job.result == result && job.workers == []
    {
      job := new JobNode(id, result);
      tail.next := job;
      tail := job;
      assert [head] + (nodes + [job]) == ([head] + nodes) + [job];
      nodes := nodes + [job];
    }

    /** `getJobNode`. */
    method GetJobNode(id: int) returns (job: JobNode?)
      requires Valid()
      ensures job == null <==> forall x :: x in nodes ==> x.id != id
      ensures job != null ==> job in nodes && job.id == id
    {
      ghost var all, k := [head] + nodes, 0;
      assert all[0] == head;
      job := head.next;
      while job != null && job.id != id
        invariant 0 <= k <= |nodes| && job == (if k == |nodes| then null else nodes[k])
        invariant forall i :: 0 <= i < k ==> nodes[i].id != id
        decreases |nodes| - k
      {
        assert job == all[k + 1];
        job := job.next;
        k := k + 1;
      }
    }
  }
}
