/** The linked records of server/src/groups.h and server/src/jobs.h.  Members that the server sets once, when it
    creates a record, are constants. */
module Structures {

  /** One membership of one client in one multicast group. */
  class ClientGroup {
    var p: ClientGroup?
    var n: ClientGroup?
    const ci: ClientInfo
    const ncg: ClientGroup?
    const gid: nat
    ghost const rest: seq<ClientGroup>  // the client's chain from ncg on

    constructor (n: ClientGroup?, ci: ClientInfo, ncg: ClientGroup?, gid: nat)
      ensures this.p == null && this.n == n && this.ci == ci && this.ncg == ncg && this.gid == gid
      ensures this.rest == Chain(ncg)
    {
      this.p, this.n, this.ci, this.ncg, this.gid := null, n, ci, ncg, gid;
      this.rest := Chain(ncg);
    }
  }

  ghost function Chain(cg: ClientGroup?): seq<ClientGroup> {
    if cg == null then [] else [cg] + cg.rest
  }

  /** A registered connection. */
  class ClientInfo {
    var l: ClientInfo?
    var r: ClientInfo?
    var cg: ClientGroup?
    var tgid: nat
    const cfd: int
    var busy: bool
    var jn: JobNode?
    ghost const id: nat          // the number of the registration
    ghost const gids: seq<nat>   // the groups it asked for

    constructor (cfd: int, ghost id: nat, ghost gids: seq<nat>)
      ensures this.cfd == cfd && this.id == id && this.gids == gids
    {
      this.cfd, this.id, this.gids := cfd, id, gids;
      l, r, cg, tgid, busy, jn := null, null, null, 0, false, null;
    }
  }

  /** A piece of a job: on its job's worker list with a client, or parked in the pending queue without one. */
  class ClientNode {
    var client: ClientInfo?
    var prev: ClientNode?
    var next: ClientNode?
    var index: int
    const jid: int
    ghost const sentinel: bool  // the dummy at the head of a worker list

    constructor (client: ClientInfo?, jid: int, ghost sentinel: bool)
      ensures this.client == client && this.jid == jid && this.sentinel == sentinel
      ensures this.prev == null && this.next == null && this.index == 0
    {
      this.client, this.jid, this.sentinel := client, jid, sentinel;
      prev, next, index := null, null, 0;
    }
  }

  class JobNode {
    const id: int
    var result: int
    const head: ClientNode
    var tail: ClientNode
    var numClients: int
    var next: JobNode?
    ghost var workers: seq<ClientNode>

    constructor (id: int, result: int)
      ensures this.id == id && this.result == result && this.next == null && this.numClients == 0
      ensures fresh(head) && tail == head && head.next == null && head.prev == null && head.sentinel && head.jid == id
      ensures workers == []
    {
      this.id, this.result := id, result;
      var dummy := new ClientNode(null, id, true);
      head := dummy;
      tail := dummy;
      numClients, next := 0, null;
      workers := [];
    }
  }
}
