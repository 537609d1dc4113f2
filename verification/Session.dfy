/** One session of the server, event by event on its records: two clients join, a job is divided between them, one
    disconnects and its piece is parked, the other finishes both pieces. */
module Session {
  import opened Wrappers
  import opened RegistrySpec
  import opened JobProtocol
  import opened JobQueue
  import opened Handover
  import Commands
  import Dispatch
  import Division
  import JobServer
  import JobSteps
  import JobTheorems
  import Tlv

  const STARTED: State := State([], 0, map[], [], {}, map[], [])

  const ONE_JOINED: State := STARTED.(recs := [Rec(0, 3, [1])], nextId := 1)

  /** The second client comes on this descriptor. */
  function JoinedBy(cfd: int): State { STARTED.(recs := [Rec(1, cfd, [1]), Rec(0, 3, [1])], nextId := 2) }

  function AssignedTo(cfd: int): State {
    State(JoinedBy(cfd).recs, 2, map[7 := Job(0, 0, [Worker(1, 0), Worker(0, 1)], 2, [])], [], {0, 1},
          map[0 := 7, 1 := 7], [Task(1, 7, 0), Task(0, 7, 1)])
  }

  const ASSIGNED: State := AssignedTo(4)

  const STRANDED: State := ASSIGNED.(jobs := map[7 := Job(0, 0, [Worker(0, 1)], 2, [])], parked := [Parked(7, 0)])

  const PARKED: State := State([Rec(0, 3, [1])], 2, map[7 := Job(0, 0, [Worker(0, 1)], 2, [])], [Parked(7, 0)], {0},
    map[0 := 7], ASSIGNED.sent)

  const HALF_DONE: State := State(PARKED.recs, 2, map[7 := Job(0, 5, [Worker(0, 0)], 2, [Merge(1, 5)])], [], {0},
    map[0 := 7], ASSIGNED.sent + [Task(0, 7, 0)])

  const DONE: State := State(PARKED.recs, 2, map[7 := Job(0, 9, [], 2, [Merge(1, 5), Merge(0, 9)])], [], {},
    map[0 := 7], HALF_DONE.sent)

  lemma TheyJoin(cfd: int)
    ensures Step(STARTED, Joins(3, [1])) == ONE_JOINED && Step(ONE_JOINED, Joins(cfd, [1])) == JoinedBy(cfd)
  {
    assert Roster(ONE_JOINED.recs, 1) == [0];
  }

  lemma TheJobStarts(cfd: int)
    ensures Enabled(JoinedBy(cfd), NewJob(1, 7, 0, true))
    ensures Step(JoinedBy(cfd), NewJob(1, 7, 0, true)) == AssignedTo(cfd)
  {
    var s := JoinedBy(cfd);
    assert Roster([Rec(0, 3, [1])], 1) == [0];
    assert s.recs[1..] == [Rec(0, 3, [1])];
    assert Roster(s.recs, 1) == [1, 0];
    assert Reserve([0], {1}) == [0];
    assert [1, 0][1..] == [0] && {} + {1} == {1};
    assert Reserve([1, 0], {}) == [1, 0];
    assert (set c | c in [1, 0]) == {0, 1};
    assert Told(map[], [1, 0], 7) == map[0 := 7, 1 := 7];
    assert Enlist([1, 0], true) == [Worker(1, 0), Worker(0, 1)];
    assert [] + Tasks([1, 0], 7) == [Task(1, 7, 0), Task(0, 7, 1)];
    assert s.busy + (set c | c in [1, 0]) == {0, 1};
  }

  lemma OneLeaves()
    ensures Enabled(ASSIGNED, Disconnect(4)) && Step(ASSIGNED, Disconnect(4)) == PARKED
  {
    var rec := Rec(1, 4, [1]);
    assert Roster([Rec(0, 3, [1])], 1) == [0];
    assert ASSIGNED.recs[1..] == [Rec(0, 3, [1])];
    assert Roster(ASSIGNED.recs, 1) == [1, 0];
    assert [1, 0][1..] == [0];
    assert FirstFree([1, 0], {0, 1}) == None;
    assert Holding(ASSIGNED, rec) == Some((7, 0));
    assert RemoveAt([Worker(1, 0), Worker(0, 1)], 0) == [Worker(0, 1)];
    assert Leave(ASSIGNED.recs, 1) == [Rec(0, 3, [1])];
    assert {0, 1} - {1} == {0} && map[0 := 7, 1 := 7] - {1} == map[0 := 7];
  }

  lemma TheOtherFinishes()
    ensures Enabled(PARKED, Result(3, 5)) && Step(PARKED, Result(3, 5)) == HALF_DONE
    ensures Enabled(HALF_DONE, Result(3, 9)) && Step(HALF_DONE, Result(3, 9)) == DONE
  {
    var rec := Rec(0, 3, [1]);
    assert Holding(PARKED, rec) == Some((7, 0)) && Holding(HALF_DONE, rec) == Some((7, 0));
    assert Oldest([Parked(7, 0)], 7) == Some(0) && Oldest([], 7) == None;
    assert [Worker(0, 1)][0 := Worker(0, 0)] == [Worker(0, 0)] && [] + [Merge(1, 5)] == [Merge(1, 5)];
    assert [Merge(1, 5)] + [Merge(0, 9)] == [Merge(1, 5), Merge(0, 9)] && {0} - {0} == {};
    assert RemoveAt([Parked(7, 0)], 0) == [] && RemoveAt([Worker(0, 0)], 0) == [];
  }

  lemma AssignedIsReached(cfd: int)
    ensures Reachable(AssignedTo(cfd))
  {
    TheyJoin(cfd);
    TheJobStarts(cfd);
    hide Step, Enabled;
    assert Run(STARTED, []) == Some(STARTED) && Init(STARTED);
    AlwaysJoin(STARTED, 3);
    JobTheorems.ReachableNext(STARTED, Joins(3, [1]));
    AlwaysJoin(ONE_JOINED, cfd);
    JobTheorems.ReachableNext(ONE_JOINED, Joins(cfd, [1]));
    JobTheorems.ReachableNext(JoinedBy(cfd), NewJob(1, 7, 0, true));
  }

  lemma AlwaysJoin(s: State, cfd: int)
    ensures Enabled(s, Joins(cfd, [1]))
  {
  }

  lemma OneErrs()
    ensures Enabled(ASSIGNED, Error(4)) && Step(ASSIGNED, Error(4)) == STRANDED
    ensures Newest(ASSIGNED.recs, 4) == Some(Rec(1, 4, [1])) && Holding(ASSIGNED, Rec(1, 4, [1])) == Some((7, 0))
    ensures Roster(ASSIGNED.recs, 1) == [1, 0]
  {
    var rec := Rec(1, 4, [1]);
    assert Roster([Rec(0, 3, [1])], 1) == [0];
    assert ASSIGNED.recs[1..] == [Rec(0, 3, [1])];
    assert Roster(ASSIGNED.recs, 1) == [1, 0];
    assert [1, 0][1..] == [0];
    assert FirstFree([1, 0], {0, 1}) == None;
    assert Holding(ASSIGNED, rec) == Some((7, 0));
    assert RemoveAt([Worker(1, 0), Worker(0, 1)], 0) == [Worker(0, 1)];
    assert [Parked(7, 0)] + [] == [Parked(7, 0)];
    assert Step(ASSIGNED, Error(4)) == Reassign(ASSIGNED, rec, 7, 0);
    hide Roster, FirstFree, RemoveAt, Step;
  }

  /** A reachable error that strands its worker: the client with descriptor 4 gives piece 0 back, nobody is free, and
      it stays busy without a piece. */
  lemma ErrorStrands()
    ensures Reachable(ASSIGNED) && Enabled(ASSIGNED, Error(4))
    ensures JobTheorems.Stranded(Step(ASSIGNED, Error(4)), 1) && Step(ASSIGNED, Error(4)).parked == [Parked(7, 0)]
  {
    AssignedIsReached(4);
    JobTheorems.ReachableInv(ASSIGNED);
    OneErrs();
    hide Inv, Step, Enabled, Newest, Holding, Roster;
    JobTheorems.ErrorStrandsIff(ASSIGNED, 4, Rec(1, 4, [1]));
  }

  /** A reachable report whose sender is not the last on its worker list, so that `freeClient` takes the branch that
      leaves the list leading to the freed node. */
  lemma EarlierWorkerIsFreed()
    ensures Reachable(ASSIGNED) && Enabled(ASSIGNED, Result(4, 5)) && Oldest(ASSIGNED.parked, 7) == None
    ensures Holding(ASSIGNED, Rec(1, 4, [1])) == Some((7, 0)) && Newest(ASSIGNED.recs, 4) == Some(Rec(1, 4, [1]))
    ensures 0 + 1 < |ASSIGNED.jobs[7].workers|
  {
    AssignedIsReached(4);
  }

  /** A reachable report that costs a piece: after that error descriptor 4 holds none, and whatever it reports then, the
      parked piece is lost. */
  lemma LateReportLosesPiece(value: int)
    ensures Reachable(STRANDED) && !Inv(JobSteps.AfterReport(STRANDED, 4, value))
  {
    AssignedIsReached(4);
    OneErrs();
    JobTheorems.ReachableNext(ASSIGNED, Error(4));
    JobTheorems.ReachableInv(STRANDED);
    NoneHeld();
    hide Inv, Step, Enabled, Newest, Holding, Oldest, Reachable, JobSteps.AfterReport;
    JobSteps.StaleReportIff(STRANDED, 4, Rec(1, 4, [1]), value);
  }

  lemma NoneHeld()
    ensures Newest(STRANDED.recs, 4) == Some(Rec(1, 4, [1])) && Holding(STRANDED, Rec(1, 4, [1])) == None
    ensures Oldest(STRANDED.parked, 7) == Some(0)
  {
  }

  /** A reachable job that cannot complete: one line makes one piece, and two workers are reserved for it. */
  lemma OneLineTwoWorkers()
    ensures Reachable(ASSIGNED) && !Division.CanComplete(ASSIGNED, 7, Division.Pieces([5], 1))
  {
    AssignedIsReached(4);
    Division.DividedJobCompletesIff(ASSIGNED, 7, [5], false);
  }

  /** A reachable report that is wrong although it is the maximum of the piece last sent on its descriptor: two
      registrations share descriptor 3, and the newer one is taken for the sender. */
  lemma SharedDescriptorMisleads()
    ensures var shared, files := AssignedTo(3), map[7 := [[5], [9]]];
      && Reachable(shared) && Enabled(shared, Result(3, 9)) && Division.Truthful(shared, Result(3, 9), files)
      && Division.AllHonest(shared, files) && !Division.AllHonest(Step(shared, Result(3, 9)), files)
  {
    AssignedIsReached(3);
    var shared := AssignedTo(3);
    var rec := Rec(1, 3, [1]);
    assert Newest(shared.recs, 3) == Some(rec) && Holding(shared, rec) == Some((7, 0));
    assert shared.sent[1] == Task(0, 7, 1) && shared.recs[1] == Rec(0, 3, [1]) && Division.Under(shared.recs, 0, 3);
    assert Division.LastOn(shared.sent, shared.recs, 3) == Some(Task(0, 7, 1));
    var merged := Step(shared, Result(3, 9)).jobs[7].merged;
    assert merged == [Merge(0, 9)] && merged[0].value == 9;
    assert !Division.IsMax(9, [5]);
  }

  /** The first half: both clients have a piece. */
  method Assign() returns (server: JobServer.Server)
    ensures server.Valid() && server.st == ASSIGNED
    ensures fresh(server) && fresh(server.registry) && fresh(server.registry.groups) && fresh(server.registry.buckets)
    ensures fresh(server.registry.nodes) && fresh(server.registry.infos) && fresh(server.pending)
    ensures fresh(server.cnodes) && fresh(server.jobs) && fresh(server.jobs.nodes)
  {
    hide JobServer.Server.Valid, JobServer.Server.Tied, JobSteps.AfterReport, Step, Enabled;
    server := new JobServer.Server();
    TheyJoin(4);
    server.JoinGroups(3, [1]);
    server.JoinGroups(4, [1]);
    TheJobStarts(4);
    var sent := server.InitJob(1, 7, 0, true);
  }

  /** The session: it ends with the job complete and the better of the two results. */
  method TwoClients() returns (server: JobServer.Server)
    ensures server.Valid() && server.st == DONE
  {
    hide JobServer.Server.Valid, JobServer.Server.Tied, JobSteps.AfterReport, Step, Enabled;
    server := Assign();
    OneLeaves();
    ghost var gone := server.Disconnected(4);
    TheOtherFinishes();
    var ok := server.UpdateJobResult(3, 5);
    ok := server.UpdateJobResult(3, 9);
  }

  /** The error on the records. */
  method OneFails() returns (server: JobServer.Server)
    ensures server.Valid() && JobTheorems.Stranded(server.st, 1) && server.st.parked == [Parked(7, 0)]
  {
    hide JobServer.Server.Valid, JobServer.Server.Tied, JobSteps.AfterReport, Step, Enabled, JobTheorems.Stranded;
    server := Assign();
    ErrorStrands();
    var ok := server.ReassignJob(4);
  }

  // ---------------------------------------------------------------------------------------------
  // From bytes
  // ---------------------------------------------------------------------------------------------

  /** A request to join group 1. */
  const JOIN: seq<Tlv.Byte> := [0, 0, 0, 12, 0, 1, 0, 4, 0, 1, 0, 0]

  /** An error. */
  const ERROR: seq<Tlv.Byte> := [0, 0, 0, 12, 0, 100, 0, 4, 0, 0, 0, 1]

  /** The results 5 and 9, each with a newline. */
  const FIVE: seq<Tlv.Byte> := [0, 0, 0, 10, 0, 102, 0, 2, 53, 10]

  const NINE: seq<Tlv.Byte> := [0, 0, 0, 10, 0, 102, 0, 2, 57, 10]

  ghost predicate Means(cfd: int, buf: seq<Tlv.Byte>, e: Event) {
    && Dispatch.EventsOf(cfd, Dispatch.Handled(Tlv.Parsed(buf))) == [e]
    && Dispatch.SubmissionsOf(cfd, Dispatch.Handled(Tlv.Parsed(buf))) == []
  }

  lemma JoinAndError(cfd: int)
    ensures Means(cfd, JOIN, Joins(cfd, [1])) && Means(cfd, ERROR, Error(cfd))
  {
    hide Tlv.Parsed, Dispatch.EventsOf, Dispatch.SubmissionsOf;
    var gids := Dispatch.MessageMeans(cfd, JOIN);
    assert gids == [1];
    gids := Dispatch.MessageMeans(cfd, ERROR);
  }

  lemma Number(bytes: seq<Tlv.Byte>, d: nat)
    requires d < 10 && bytes == [48 + d, 10]
    ensures Commands.Atoi(Dispatch.Text(bytes)) == d
  {
    var t := Dispatch.Text(bytes);
    assert t[0] == Commands.Digit(d) && t[1] == '\n';
    assert Commands.Decimal(d) + "\n" == t;
    hide Commands.Atoi;
    Commands.NumberBack(d, "\n");
  }

  lemma Results(cfd: int)
    ensures Means(cfd, FIVE, Result(cfd, 5)) && Means(cfd, NINE, Result(cfd, 9))
  {
    hide Tlv.Parsed, Dispatch.EventsOf, Dispatch.SubmissionsOf, Commands.Atoi, Dispatch.Text;
    assert FIVE[8..] == [53, 10] && NINE[8..] == [57, 10];
    Number(FIVE[8..], 5);
    Number(NINE[8..], 9);
    var gids := Dispatch.MessageMeans(cfd, FIVE);
    gids := Dispatch.MessageMeans(cfd, NINE);
  }

  /** A message that means one event. */
  method Receive(server: JobServer.Server, pool: Queue<Slot>, slot: Slot, cfd: int, buf: seq<Tlv.Byte>, ghost e: Event)
    requires server.Valid() && pool.Valid() && slot.Valid() && slot.held == None
    requires Means(cfd, buf, e) && Enabled(server.st, e)
    modifies server`st, server`cnodes, server.jobs.nodes, server.cnodes, server.pending, server.registry
    modifies server.registry.groups, server.registry.buckets, server.registry.nodes, server.registry.infos
    modifies pool, pool.jobs, pool.hasJobs, slot
    ensures server.Valid() && pool.Valid() && slot.Valid() && slot.held == None && slot.moves == old(slot.moves)
    ensures server.st == Step(old(server.st), e)
    ensures forall x :: x in server.cnodes && x !in old(server.cnodes) ==> fresh(x)
    ensures forall x :: x in server.registry.nodes && x !in old(server.registry.nodes) ==> fresh(x)
    ensures forall x :: x in server.registry.infos && x !in old(server.registry.infos) ==> fresh(x)
    ensures forall i :: 0 <= i < |pool.jobs| ==> pool.jobs[i] in old(pool.jobs) || fresh(pool.jobs[i])
  {
    hide JobServer.Server.Valid, Step, Enabled, Run, Tlv.Parsed, Dispatch.EventsOf, Dispatch.SubmissionsOf;
    hide Queue.Valid, Slot.Valid, Dispatch.ArgumentsOf, Calls;
    Dispatch.OneEvent(server.st, e);
    Dispatch.NothingQueued(slot, slot.moves, []);
    Dispatch.ReceiveMessage(server, pool, slot, cfd, buf);
  }

  const SUBMITTED: Submission := Submission(9, 102, 1, "f")

  const TEXT: string := "4|102|1|f"

  const EXECUTE: Tlv.Received := Tlv.Received(Tlv.CLI_DATA, seq(9, i requires 0 <= i < 9 => TEXT[i] as int), [])

  lemma ExecuteIsPrinted()
    ensures Commands.Print(Commands.Execute(102, 1, "f")) == TEXT
  {
    assert Commands.Digits(4) == "4" && Commands.Digits(1) == "1";
    assert Commands.Digits(102) == "102" by { assert Commands.Digits(10) == "10"; }
    hide Commands.Digits;
    assert Commands.Joined(["f"]) == "f" && Commands.Joined(["1", "f"]) == "1|f";
    assert Commands.Joined(["102", "1", "f"]) == "102|1|f";
  }

  lemma ExecuteText()
    ensures Dispatch.SubmissionOf(9, EXECUTE) == Some(SUBMITTED) && Dispatch.EventOf(9, EXECUTE) == None
  {
    ExecuteIsPrinted();
    assert Dispatch.Text(EXECUTE.value) == TEXT;
    hide Commands.Print, Dispatch.SubmissionOf, Dispatch.Text;
    Dispatch.CommandArrivesIff(9, 102, 1, "f", EXECUTE);
  }

  /** A client joins, from the bytes of its request. */
  method JoinsByFrame(pool: Queue<Slot>, slot: Slot) returns (server: JobServer.Server)
    requires pool.Valid() && slot.Valid() && slot.held == None
    modifies pool, pool.jobs, pool.hasJobs, slot
    ensures server.Valid() && server.st == ONE_JOINED
    ensures pool.Valid() && slot.Valid() && slot.held == None && slot.moves == old(slot.moves)
    ensures forall i :: 0 <= i < |pool.jobs| ==> pool.jobs[i] in old(pool.jobs) || fresh(pool.jobs[i])
    ensures fresh(server) && fresh(server.registry) && fresh(server.registry.groups) && fresh(server.registry.buckets)
    ensures fresh(server.registry.nodes) && fresh(server.registry.infos) && fresh(server.pending)
    ensures fresh(server.cnodes) && fresh(server.jobs) && server.jobs.nodes == [] && fresh(server.jobs.head)
  {
    hide JobServer.Server.Valid, JobServer.Server.Tied, JobSteps.AfterReport, Step, Enabled, Means;
    hide Queue.Valid, Slot.Valid;
    server := new JobServer.Server();
    TheyJoin(4);
    AlwaysJoin(STARTED, 3);
    JoinAndError(3);
    Receive(server, pool, slot, 3, JOIN, Joins(3, [1]));
  }

  /** Then the text of an execute command comes. */
  method AsksByText(pool: Queue<Slot>, slot: Slot) returns (server: JobServer.Server)
    requires pool.Valid() && slot.Valid() && slot.held == None
    modifies pool, pool.jobs, pool.hasJobs, slot
    ensures server.Valid() && server.st == ONE_JOINED
    ensures slot.Valid() && slot.held == None && slot.moves == old(slot.moves) + [Filled(SUBMITTED), Left]
    ensures fresh(server) && fresh(server.jobs) && fresh(server.jobs.nodes) && fresh(server.jobs.head)
    ensures fresh(server.cnodes) && fresh(server.registry.infos)
  {
    hide JobServer.Server.Valid, JobServer.Server.Tied, JobSteps.AfterReport, Step, Enabled;
    hide Dispatch.SubmissionOf, Dispatch.EventOf, Queue.Valid, Slot.Valid, Dispatch.ArgumentsOf, Calls;
    server := JoinsByFrame(pool, slot);
    ExecuteText();
    Dispatch.OneCall(SUBMITTED);
    Dispatch.HandleData(server, pool, slot, 9, EXECUTE);
  }

  /** And the job starts, from what the pool's thread finds; the call is over, so that is not what was typed, unless by
      chance. */
  method RunsFromText(found: Submission) returns (server: JobServer.Server, slot: Slot, r: Dispatch.Start)
    ensures slot.Valid() && slot.moves == [Filled(SUBMITTED), Left, Taken(0)]
    ensures r == Dispatch.NullHead <==> found.group > MAX_MULTICAST_GROUPS
    ensures r != Dispatch.NullHead ==>
      server.Valid() && server.st == Step(ONE_JOINED, NewJob(found.group, 7, 0, true))
  {
    hide JobServer.Server.Valid, JobServer.Server.Tied, Step, Enabled, Queue.Valid;
    var pool;
    slot, pool := NewPool();
    server := AsksByText(pool, slot);
    OneMeant();
    assert slot.moves == [Filled(SUBMITTED), Left];
    hide Slot.Valid, Play;
    r := Dispatch.SubmitJob(server, slot, 0, found, 7, 0, true);
  }

  lemma OneMeant()
    ensures Play([Filled(SUBMITTED), Left]) == Some(Place(None, [SUBMITTED]))
  {
    Nothing();
    More([], Filled(SUBMITTED));
    assert [] + [Filled(SUBMITTED)] == [Filled(SUBMITTED)] && [] + [SUBMITTED] == [SUBMITTED];
    More([Filled(SUBMITTED)], Left);
    assert [Filled(SUBMITTED)] + [Left] == [Filled(SUBMITTED), Left];
  }

  const STRANDED_HALF: State :=
    STRANDED.(jobs := map[7 := Job(0, 5, [Worker(0, 0)], 2, [Merge(1, 5)])], parked := [],
              sent := ASSIGNED.sent + [Task(0, 7, 0)])

  const STRANDED_DONE: State :=
    STRANDED_HALF.(jobs := map[7 := Job(0, 9, [], 2, [Merge(1, 5), Merge(0, 9)])], busy := {1})

  lemma TheOtherFinishesBoth()
    ensures Enabled(STRANDED, Result(3, 5)) && Step(STRANDED, Result(3, 5)) == STRANDED_HALF
    ensures Enabled(STRANDED_HALF, Result(3, 9)) && Step(STRANDED_HALF, Result(3, 9)) == STRANDED_DONE
  {
    var rec := Rec(0, 3, [1]);
    assert STRANDED.recs[1..] == [rec] && Newest([rec], 3) == Some(rec);
    assert Newest(STRANDED.recs, 3) == Some(rec);
    assert Holding(STRANDED, rec) == Some((7, 0)) && Holding(STRANDED_HALF, rec) == Some((7, 0));
    assert Oldest([Parked(7, 0)], 7) == Some(0) && Oldest([], 7) == None;
    assert [Worker(0, 1)][0 := Worker(0, 0)] == [Worker(0, 0)] && [] + [Merge(1, 5)] == [Merge(1, 5)];
    assert [Merge(1, 5)] + [Merge(0, 9)] == [Merge(1, 5), Merge(0, 9)] && {0, 1} - {0} == {1};
    assert RemoveAt([Parked(7, 0)], 0) == [] && RemoveAt([Worker(0, 0)], 0) == [];
  }

  /** Both clients join by their messages and get their pieces. */
  method AssignsByMessages(pool: Queue<Slot>, slot: Slot) returns (server: JobServer.Server)
    requires pool.Valid() && slot.Valid() && slot.held == None
    modifies pool, pool.jobs, pool.hasJobs, slot
    ensures server.Valid() && server.st == ASSIGNED && pool.Valid() && slot.Valid() && slot.held == None
    ensures forall i :: 0 <= i < |pool.jobs| ==> pool.jobs[i] in old(pool.jobs) || fresh(pool.jobs[i])
    ensures fresh(server) && fresh(server.registry) && fresh(server.registry.groups) && fresh(server.registry.buckets)
    ensures fresh(server.registry.nodes) && fresh(server.registry.infos) && fresh(server.pending)
    ensures fresh(server.cnodes) && fresh(server.jobs) && fresh(server.jobs.nodes)
  {
    hide JobServer.Server.Valid, JobServer.Server.Tied, JobSteps.AfterReport, Step, Enabled, Means;
    hide Queue.Valid, Slot.Valid;
    server := JoinsByFrame(pool, slot);
    TheyJoin(4);
    AlwaysJoin(ONE_JOINED, 4);
    JoinAndError(4);
    Receive(server, pool, slot, 4, JOIN, Joins(4, [1]));
    TheJobStarts(4);
    var sent := server.InitJob(1, 7, 0, true);
  }

  /** One reports an error, and the other both results: the job is complete, and the first client is stranded. */
  method SessionOfMessages() returns (server: JobServer.Server)
    ensures server.Valid() && server.st == STRANDED_DONE
  {
    hide JobServer.Server.Valid, JobServer.Server.Tied, JobSteps.AfterReport, Step, Enabled, Means;
    hide Queue.Valid, Slot.Valid;
    var slot, pool := NewPool();
    server := AssignsByMessages(pool, slot);
    OneErrs();
    JoinAndError(4);
    Receive(server, pool, slot, 4, ERROR, Error(4));
    TheOtherFinishesBoth();
    Results(3);
    Receive(server, pool, slot, 3, FIVE, Result(3, 5));
    Receive(server, pool, slot, 3, NINE, Result(3, 9));
  }

  method NewPool() returns (slot: Slot, pool: Queue<Slot>)
    ensures slot.Valid() && slot.held == None && slot.moves == [] && fresh(slot)
    ensures pool.Valid() && pool.jobs == [] && fresh(pool) && fresh(pool.hasJobs)
  {
    slot := new Slot();
    pool := new Queue<Slot>();
  }
}
