/** From received bytes to the server's state: the frame loop and `handle_data` of server/src/server.c, and the way of
    an execute command to the thread pool and from there to `initJob`. */
module Dispatch {
  import opened Wrappers
  import opened RegistrySpec
  import opened JobProtocol
  import opened JobQueue
  import opened Handover
  import JobEffects
  import JobServer
  import JobSteps
  import Commands
  import Tlv

  /** The text of a value, as atoll and strtok read it. */
  function Text(value: seq<Tlv.Byte>): string { seq(|value|, i requires 0 <= i < |value| => value[i] as char) }

  /** The event an attribute stands for at once. */
  function EventOf(cfd: int, tlv: Tlv.Received): Option<Event> {
    if tlv.kind == Tlv.JOIN_GROUP then Some(Joins(cfd, tlv.gids))
    else if tlv.kind == Tlv.ALGO_MAX then Some(Result(cfd, Commands.Atoi(Text(tlv.value))))
    else if tlv.kind == Tlv.ALGO_ERROR then Some(Error(cfd))
    else None
  }

  function EventsOf(cfd: int, out: seq<Tlv.Received>): seq<Event> {
    if out == [] then []
    else
      var rest := EventsOf(cfd, out[1..]);
      match EventOf(cfd, out[0]) case None => rest case Some(e) => [e] + rest
  }

  function SubmissionOf(cfd: int, tlv: Tlv.Received): Option<Submission> {
    if tlv.kind != Tlv.CLI_DATA then None
    else match Commands.Interpret(Commands.Tokens(Text(tlv.value)))
      case Known(Execute(task, group, file)) => Some(Submission(cfd, task, group, file))
      case _ => None
  }

  function SubmissionsOf(cfd: int, out: seq<Tlv.Received>): seq<Submission> {
    if out == [] then []
    else
      var rest := SubmissionsOf(cfd, out[1..]);
      match SubmissionOf(cfd, out[0]) case None => rest case Some(s) => [s] + rest
  }

  /** The arguments of the jobs in the pool's queue, or of those that were ever put there. */
  ghost function ArgumentsOf(jobs: seq<PoolJob<Slot>>): seq<Slot> {
    seq(|jobs|, i requires 0 <= i < |jobs| => jobs[i].task)
  }

  /** Every job gets the same address. */
  function Copies(slot: Slot, n: nat): seq<Slot> { seq(n, i => slot) }

  /** Inside the block: the words are put on the stack and their address is put into the pool's queue. */
  method PushFilled(pool: Queue<Slot>, slot: Slot, s: Submission)
    requires pool.Valid() && slot.Valid() && slot.held == None
    modifies pool, pool.jobs, pool.hasJobs, slot
    ensures pool.Valid() && slot.Valid() && slot.held == Some(s)
    ensures forall i :: 0 <= i < |pool.jobs| ==> pool.jobs[i] in old(pool.jobs) || fresh(pool.jobs[i])
    ensures slot.moves == old(slot.moves) + [Filled(s)]
    ensures ArgumentsOf(pool.pushed) == ArgumentsOf(old(pool.pushed)) + Copies(slot, 1) && pool.hasJobs.v
  {
    hide Play;
    slot.Fill(s);
    var job := new PoolJob<Slot>(slot);
    pool.Push(job);
  }

  /** The EXEC_JOB case of `sh_parse_cmd`; then the block ends. */
  method AddWork(pool: Queue<Slot>, slot: Slot, s: Submission)
    requires pool.Valid() && slot.Valid() && slot.held == None
    modifies pool, pool.jobs, pool.hasJobs, slot
    ensures pool.Valid() && slot.Valid() && slot.held == None
    ensures forall i :: 0 <= i < |pool.jobs| ==> pool.jobs[i] in old(pool.jobs) || fresh(pool.jobs[i])
    ensures slot.moves == old(slot.moves) + [Filled(s), Left]
    ensures ArgumentsOf(pool.pushed) == ArgumentsOf(old(pool.pushed)) + Copies(slot, 1) && pool.hasJobs.v
  {
    hide Play, ArgumentsOf, Copies;
    PushFilled(pool, slot, s);
    slot.Leave();
    assert old(slot.moves) + [Filled(s)] + [Left] == old(slot.moves) + [Filled(s), Left];
  }

  function ToList<T>(x: Option<T>): seq<T> { match x case None => [] case Some(v) => [v] }

  /** `handle_data`. */
  method HandleData(server: JobServer.Server, pool: Queue<Slot>, slot: Slot, cfd: int, tlv: Tlv.Received)
    requires server.Valid() && pool.Valid() && slot.Valid() && slot.held == None
    requires EventOf(cfd, tlv).Some? ==> Enabled(server.st, EventOf(cfd, tlv).value)
    modifies server`st, server`cnodes, server.jobs.nodes, server.cnodes, server.pending, server.registry
    modifies server.registry.groups, server.registry.buckets, server.registry.nodes, server.registry.infos
    modifies pool, pool.jobs, pool.hasJobs, slot
    ensures server.Valid() && pool.Valid() && slot.Valid() && slot.held == None
    ensures server.st == match EventOf(cfd, tlv) case None => old(server.st) case Some(e) => Step(old(server.st), e)
    ensures slot.moves == old(slot.moves) + Calls(ToList(SubmissionOf(cfd, tlv)))
    ensures ArgumentsOf(pool.pushed)
         == ArgumentsOf(old(pool.pushed)) + Copies(slot, |ToList(SubmissionOf(cfd, tlv))|)
    ensures forall x :: x in server.cnodes && x !in old(server.cnodes) ==> fresh(x)
    ensures forall x :: x in server.registry.nodes && x !in old(server.registry.nodes) ==> fresh(x)
    ensures forall x :: x in server.registry.infos && x !in old(server.registry.infos) ==> fresh(x)
    ensures forall i :: 0 <= i < |pool.jobs| ==> pool.jobs[i] in old(pool.jobs) || fresh(pool.jobs[i])
  {
    hide JobServer.Server.Valid, JobServer.Server.Tied, JobSteps.AfterReport, Step, Enabled;
    hide Commands.Atoi, Commands.Tokens, Commands.Interpret, Queue.Valid, Slot.Valid, ArgumentsOf, Calls, Copies;
    NothingQueued(slot, slot.moves, ArgumentsOf(pool.pushed));
    if tlv.kind == Tlv.JOIN_GROUP {
      server.JoinGroups(cfd, tlv.gids);
    } else if tlv.kind == Tlv.ALGO_MAX {
      var ok := server.UpdateJobResult(cfd, Commands.Atoi(Text(tlv.value)));
    } else if tlv.kind == Tlv.ALGO_ERROR {
      var ok := server.ReassignJob(cfd);
    } else if tlv.kind == Tlv.CLI_DATA {
      var parsed := Commands.ParseCmd(Text(tlv.value));
      match parsed
      case Known(Execute(task, group, file)) =>
        OneCall(Submission(cfd, task, group, file));
        AddWork(pool, slot, Submission(cfd, task, group, file));
      case _ =>
    }
  }

  lemma NothingQueued(slot: Slot, moves: seq<Move>, arguments: seq<Slot>)
    ensures moves + Calls([]) == moves && arguments + Copies(slot, 0) == arguments
  {
  }

  lemma OneCall(s: Submission)
    ensures Calls([s]) == [Filled(s), Left]
  {
    assert [s][1..] == [];
  }

  /** `initJob` returns, or dereferences the list head of a group that has none. */
  datatype Start = Returned(sent: bool) | NullHead

  /** `server_get_client_gid_head`: the place of a group's list head. */
  function HeadOf(gid: nat): Option<nat> { if ValidGid(gid) then Some(gid - 1) else None }

  /** `submit_job`, on the pool's thread for the k-th execute command: it reads the place on the stack, and the job
      starts under the id that was allocated for it. */
  method SubmitJob(server: JobServer.Server, slot: Slot, ghost k: nat, junk: Submission,
                   jobId: nat, initial: int, divided: bool)
    returns (r: Start)
    requires server.Valid() && jobId !in server.st.jobs
    requires slot.Valid() && k < |Play(slot.moves).value.meant|
    modifies server`st, server`cnodes, server.jobs`tail, server.jobs`nodes, server.jobs.head`next, server.jobs.nodes
    modifies server.cnodes, server.registry.infos`busy, server.registry.infos`jn, slot`moves
    ensures slot.Valid() && slot.moves == old(slot.moves) + [Taken(k)]
    ensures server.Valid()
    ensures r == NullHead <==> Found(slot.held, junk).group > MAX_MULTICAST_GROUPS
    ensures r == NullHead ==> HeadOf(Found(slot.held, junk).group) == None
    ensures r != NullHead ==>
      server.st == Step(old(server.st), NewJob(Found(slot.held, junk).group, jobId, initial, divided))
    ensures var group, s := Found(slot.held, junk).group, old(server.st); r.Returned? ==> (r.sent <==>
      group > 0 && divided && exists i :: 0 <= i < |s.recs| && group in s.recs[i].gids && s.recs[i].id !in s.busy)
  {
    hide JobServer.Server.Valid, Step, Play;
    var s := slot.Take(k, junk);
    if s.group > MAX_MULTICAST_GROUPS {
      r := NullHead;
    } else {
      var sent := server.InitJob(s.group, jobId, initial, divided);
      r := Returned(sent);
    }
  }

  /** What was handed over before the loop ended. */
  function Handled(r: Tlv.Outcome): seq<Tlv.Received> {
    match r
    case Delivered(out) => out
    case Fragment => []
    case Overrun(out) => out
  }

  /** `handleClientMessage` with its calls of `handle_data`: the server makes exactly the steps that the received
      attributes stand for.  For the jobs they ask for it fills the place on its stack, one after the other, and queues
      its address as often. */
  method ReceiveMessage(server: JobServer.Server, pool: Queue<Slot>, slot: Slot, cfd: int, buf: seq<Tlv.Byte>)
    requires server.Valid() && pool.Valid() && slot.Valid() && slot.held == None
    requires Run(server.st, EventsOf(cfd, Handled(Tlv.Parsed(buf)))).Some?
    modifies server`st, server`cnodes, server.jobs.nodes, server.cnodes, server.pending, server.registry
    modifies server.registry.groups, server.registry.buckets, server.registry.nodes, server.registry.infos
    modifies pool, pool.jobs, pool.hasJobs, slot
    ensures server.Valid() && pool.Valid() && slot.Valid() && slot.held == None
    ensures Some(server.st) == Run(old(server.st), EventsOf(cfd, Handled(Tlv.Parsed(buf))))
    ensures slot.moves == old(slot.moves) + Calls(SubmissionsOf(cfd, Handled(Tlv.Parsed(buf))))
    ensures ArgumentsOf(pool.pushed)
         == ArgumentsOf(old(pool.pushed)) + Copies(slot, |SubmissionsOf(cfd, Handled(Tlv.Parsed(buf)))|)
    ensures forall x :: x in server.cnodes && x !in old(server.cnodes) ==> fresh(x)
    ensures forall x :: x in server.registry.nodes && x !in old(server.registry.nodes) ==> fresh(x)
    ensures forall x :: x in server.registry.infos && x !in old(server.registry.infos) ==> fresh(x)
    ensures forall i :: 0 <= i < |pool.jobs| ==> pool.jobs[i] in old(pool.jobs) || fresh(pool.jobs[i])
  {
    hide JobServer.Server.Valid, Step, Enabled, Tlv.Parsed, EventOf, Run, EventsOf, SubmissionOf, SubmissionsOf;
    hide Queue.Valid, Slot.Valid, ArgumentsOf, Calls, Copies, ToList;
    var r := Tlv.HandleClientMessage(buf);
    var out := Handled(r);
    assert out[0..] == out;
    ghost var moves, arguments, all := slot.moves, ArgumentsOf(pool.pushed), SubmissionsOf(cfd, out);
    for i := 0 to |out|
      invariant server.Valid() && pool.Valid() && slot.Valid() && slot.held == None
      invariant Run(server.st, EventsOf(cfd, out[i..])) == Run(old(server.st), EventsOf(cfd, out))
      invariant slot.moves + Calls(SubmissionsOf(cfd, out[i..])) == moves + Calls(all)
      invariant ArgumentsOf(pool.pushed) + Copies(slot, |SubmissionsOf(cfd, out[i..])|)
             == arguments + Copies(slot, |all|)
      invariant forall x :: x in server.cnodes && x !in old(server.cnodes) ==> fresh(x)
      invariant forall x :: x in server.registry.nodes && x !in old(server.registry.nodes) ==> fresh(x)
      invariant forall x :: x in server.registry.infos && x !in old(server.registry.infos) ==> fresh(x)
      invariant forall k :: 0 <= k < |pool.jobs| ==> pool.jobs[k] in old(pool.jobs) || fresh(pool.jobs[k])
    {
      assert out[i..][0] == out[i] && out[i..][1..] == out[i + 1..];
      OneMore(server.st, cfd, out[i..]);
      OneMoreSubmission(cfd, out[i..], slot, slot.moves, ArgumentsOf(pool.pushed));
      HandleData(server, pool, slot, cfd, out[i]);
    }
    assert out[|out|..] == [];
    NoMore(server.st, cfd);
    NoSubmissions(cfd);
    NothingQueued(slot, slot.moves, ArgumentsOf(pool.pushed));
  }

  lemma OneMore(s: State, cfd: int, out: seq<Tlv.Received>)
    requires out != [] && Run(s, EventsOf(cfd, out)).Some?
    ensures match EventOf(cfd, out[0])
            case None => Run(s, EventsOf(cfd, out)) == Run(s, EventsOf(cfd, out[1..]))
            case Some(e) => Enabled(s, e) && Run(s, EventsOf(cfd, out)) == Run(Step(s, e), EventsOf(cfd, out[1..]))
  {
    hide Step, Enabled, EventOf;
    if EventOf(cfd, out[0]).Some? {
      var rest := EventsOf(cfd, out[1..]);
      assert ([EventOf(cfd, out[0]).value] + rest)[1..] == rest;
    }
  }

  lemma OneMoreSubmission(cfd: int, out: seq<Tlv.Received>, slot: Slot, moves: seq<Move>, arguments: seq<Slot>)
    requires out != []
    ensures moves + Calls(SubmissionsOf(cfd, out))
         == moves + Calls(ToList(SubmissionOf(cfd, out[0]))) + Calls(SubmissionsOf(cfd, out[1..]))
    ensures arguments + Copies(slot, |SubmissionsOf(cfd, out)|)
         == arguments + Copies(slot, |ToList(SubmissionOf(cfd, out[0]))|)
          + Copies(slot, |SubmissionsOf(cfd, out[1..])|)
  {
    var first, rest := ToList(SubmissionOf(cfd, out[0])), SubmissionsOf(cfd, out[1..]);
    assert SubmissionsOf(cfd, out) == first + rest;
    CallsTogether(first, rest);
    hide SubmissionOf, SubmissionsOf, Calls, Copies, ToList;
    Regrouped(moves, Calls(first), Calls(rest));
    CopiesTogether(slot, |first|, |rest|);
    Regrouped(arguments, Copies(slot, |first|), Copies(slot, |rest|));
  }

  lemma CallsTogether(first: seq<Submission>, rest: seq<Submission>)
    requires |first| <= 1
    ensures Calls(first + rest) == Calls(first) + Calls(rest)
  {
    if first == [] {
      assert first + rest == rest;
    } else {
      OneCall(first[0]);
      assert (first + rest)[1..] == rest && first == [first[0]];
    }
  }

  lemma CopiesTogether(slot: Slot, n: nat, m: nat)
    ensures Copies(slot, n + m) == Copies(slot, n) + Copies(slot, m)
  {
  }

  lemma Regrouped<T>(a: seq<T>, b: seq<T>, c: seq<T>)
    ensures a + (b + c) == a + b + c
  {
  }

  lemma NoMore(s: State, cfd: int)
    ensures Run(s, EventsOf(cfd, [])) == Some(s)
  {
  }

  lemma NoSubmissions(cfd: int)
    ensures SubmissionsOf(cfd, []) == []
  {
  }

  // ---------------------------------------------------------------------------------------------
  // What a message means, by its bytes
  // ---------------------------------------------------------------------------------------------

  /** A frame of one attribute: the length of all in the first four bytes, type and length of the attribute in the next
      four. */
  predicate OneAttribute(buf: seq<Tlv.Byte>) {
    && 8 <= |buf| < 65536 && buf[0] == buf[1] == 0 && 256 * Tlv.At(buf, 2) + Tlv.At(buf, 3) == |buf|
    && 256 * Tlv.At(buf, 6) + Tlv.At(buf, 7) == |buf| - 8
  }

  function KindIn(buf: seq<Tlv.Byte>): int
    requires 8 <= |buf|
  {
    256 * Tlv.At(buf, 4) + Tlv.At(buf, 5)
  }

  lemma OneReceived(cfd: int, tlv: Tlv.Received)
    ensures EventsOf(cfd, [tlv]) == ToList(EventOf(cfd, tlv))
    ensures SubmissionsOf(cfd, [tlv]) == ToList(SubmissionOf(cfd, tlv))
  {
    assert [tlv][1..] == [];
    hide EventOf, SubmissionOf;
    NoSubmissions(cfd);
    if EventOf(cfd, tlv).Some? { assert [EventOf(cfd, tlv).value] + [] == [EventOf(cfd, tlv).value]; }
    if SubmissionOf(cfd, tlv).Some? { assert [SubmissionOf(cfd, tlv).value] + [] == [SubmissionOf(cfd, tlv).value]; }
  }

  /** Type 1 is a request to join the groups that follow, two bytes of each word; type 100 is an error; type 102 is a
      result; every other type stands for no event, and none but type 5 for a submission. */
  lemma MessageMeans(cfd: int, buf: seq<Tlv.Byte>) returns (gids: seq<nat>)
    requires OneAttribute(buf)
    ensures EventsOf(cfd, Handled(Tlv.Parsed(buf))) ==
      if KindIn(buf) == 1 then [Joins(cfd, gids)]
      else if KindIn(buf) == 100 then [Error(cfd)]
      else if KindIn(buf) == 102 then [Result(cfd, Commands.Atoi(Text(buf[8..])))]
      else []
    ensures |gids| == if KindIn(buf) == 1 then (|buf| - 8) / 4 else 0
    ensures forall i :: 0 <= i < |gids| ==> gids[i] == 256 * Tlv.At(buf, 8 + 4 * i) + Tlv.At(buf, 8 + 4 * i + 1)
    ensures KindIn(buf) != 5 ==> SubmissionsOf(cfd, Handled(Tlv.Parsed(buf))) == []
  {
    gids := Tlv.FrameBytes(buf);
    hide Tlv.Parsed, Text;
    OneReceived(cfd, Tlv.Received(KindIn(buf), buf[8..], gids));
  }

  /** A submission is asked for exactly by type 5 with a text whose first number is 4 and that has three more fields. */
  lemma SubmitsIff(cfd: int, tlv: Tlv.Received)
    ensures var fields := Commands.Tokens(Text(tlv.value));
      SubmissionOf(cfd, tlv) ==
        if tlv.kind == 5 && |fields| >= 4 && Commands.Atoi(fields[0]) == 4
        then Some(Submission(cfd, Commands.Atoi(fields[1]), Commands.Atoi(fields[2]), fields[3]))
        else None
  {
    hide Commands.Tokens, Commands.Atoi, Text;
  }

  lemma OneEvent(s: State, e: Event)
    requires Enabled(s, e)
    ensures Run(s, [e]) == Some(Step(s, e))
  {
    hide Enabled, Step;
    assert [e][1..] == [];
    assert Run(Step(s, e), []) == Some(Step(s, e));
  }

  /** A message of type 100 from a client that has a piece: the piece is with the newest free member of the client's
      last group then, and was sent to it. */
  lemma ErrorMessageMoves(s: State, cfd: int, buf: seq<Tlv.Byte>, r: nat, jid: int, k: nat, i: nat)
    requires OneAttribute(buf) && KindIn(buf) == 100 && Inv(s)
    requires JobEffects.Sender(s, cfd, r) && JobEffects.HasPiece(s, s.recs[r].id, jid, k) && s.recs[r].gids != []
    requires JobEffects.FirstFreeMember(s, s.recs[r].gids[|s.recs[r].gids| - 1], i)
    ensures var d, c, job := s.recs[i].id, s.recs[r].id, s.jobs[jid];
      Run(s, EventsOf(cfd, Handled(Tlv.Parsed(buf)))) == Some(s.(
        jobs := s.jobs[jid := job.(
          workers := job.workers[..k] + job.workers[k + 1..] + [Worker(d, job.workers[k].index)])],
        busy := s.busy - {c} + {d}, jn := s.jn[d := jid], sent := s.sent + [Task(d, jid, job.workers[k].index)]))
  {
    var gids := MessageMeans(cfd, buf);
    JobEffects.ErrorMovesPiece(s, cfd, r, jid, k, i);
    hide Step, Enabled, Inv, EventsOf, Tlv.Parsed;
    OneEvent(s, Error(cfd));
  }

  /** If nobody there is free the piece is parked then, unless its client is the last on the worker list. */
  lemma ErrorMessageParks(s: State, cfd: int, buf: seq<Tlv.Byte>, r: nat, jid: int, k: nat)
    requires OneAttribute(buf) && KindIn(buf) == 100 && Inv(s)
    requires JobEffects.Sender(s, cfd, r) && JobEffects.HasPiece(s, s.recs[r].id, jid, k) && s.recs[r].gids != []
    requires JobEffects.NobodyFree(s, s.recs[r].gids[|s.recs[r].gids| - 1]) && k + 1 < |s.jobs[jid].workers|
    ensures var job := s.jobs[jid];
      Run(s, EventsOf(cfd, Handled(Tlv.Parsed(buf)))) == Some(s.(
        jobs := s.jobs[jid := job.(workers := job.workers[..k] + job.workers[k + 1..])],
        parked := [Parked(jid, job.workers[k].index)] + s.parked))
  {
    var gids := MessageMeans(cfd, buf);
    JobEffects.ErrorParksPiece(s, cfd, r, jid, k);
    hide Step, Enabled, Inv, EventsOf, Tlv.Parsed;
    OneEvent(s, Error(cfd));
  }

  /** A client's request to join valid groups reaches the registry as it was made. */
  lemma JoinArrives(cfd: int, gids: seq<nat>)
    requires forall g :: g in gids ==> 1 <= g <= 1000
    ensures EventsOf(cfd, Tlv.ExpectedAll([Tlv.Groups(gids)])) == [Joins(cfd, gids)]
  {
    Tlv.ValidGidsUnchanged(gids);
    var out := Tlv.ExpectedAll([Tlv.Groups(gids)]);
    assert out == [Tlv.Expected(Tlv.Groups(gids))] && out[1..] == [];
  }

  /** An encoded error whose length is right is the error event, whatever its words. */
  lemma ErrorArrives(cfd: int, word: int, times: int)
    requires Tlv.Encodable(Tlv.Failure(word, times))
    ensures EventsOf(cfd, Tlv.ExpectedAll([Tlv.Failure(word, times)])) == [Error(cfd)]
    ensures SubmissionsOf(cfd, Tlv.ExpectedAll([Tlv.Failure(word, times)])) == []
  {
    var tlv := Tlv.Expected(Tlv.Failure(word, times));
    OneReceived(cfd, tlv);
    assert Tlv.ExpectedAll([Tlv.Failure(word, times)]) == [tlv];
  }

  /** A reported result reaches the job as the number the client printed, with whatever follows it that is not a
      digit, such as the newline the client sends along. */
  lemma ResultArrives(cfd: int, value: int, rest: string, bytes: seq<Tlv.Byte>)
    requires rest == "" || !Commands.IsDigit(rest[0])
    requires Text(bytes) == Commands.Decimal(value) + rest
    ensures EventsOf(cfd, Tlv.ExpectedAll([Tlv.Data(Tlv.ALGO_MAX, bytes)])) == [Result(cfd, value)]
  {
    Commands.NumberBack(value, rest);
    var out := Tlv.ExpectedAll([Tlv.Data(Tlv.ALGO_MAX, bytes)]);
    assert out == [Tlv.Expected(Tlv.Data(Tlv.ALGO_MAX, bytes))] && out[1..] == [];
  }

  /** The place on the stack is filled with an execute command's words as they were typed, exactly if its file name is
      not empty and has no bar. */
  lemma ExecuteArrivesIff(cfd: int, task: int, group: int, file: string, bytes: seq<Tlv.Byte>)
    requires Text(bytes) == Commands.Print(Commands.Execute(task, group, file))
    ensures SubmissionsOf(cfd, Tlv.ExpectedAll([Tlv.Data(Tlv.CLI_DATA, bytes)])) == [Submission(cfd, task, group, file)]
      <==> Commands.Field(file)
  {
    var tlv := Tlv.Expected(Tlv.Data(Tlv.CLI_DATA, bytes));
    CommandArrivesIff(cfd, task, group, file, tlv);
    var out := Tlv.ExpectedAll([Tlv.Data(Tlv.CLI_DATA, bytes)]);
    assert out == [tlv] && out[1..] == [];
    hide SubmissionOf;
    NoSubmissions(cfd);
    if SubmissionOf(cfd, out[0]).Some? {
      var s := SubmissionOf(cfd, out[0]).value;
      assert SubmissionsOf(cfd, out) == [s];
      assert SubmissionsOf(cfd, out)[0] == s;
    }
  }

  lemma CommandArrivesIff(cfd: int, task: int, group: int, file: string, tlv: Tlv.Received)
    requires tlv.kind == Tlv.CLI_DATA && Text(tlv.value) == Commands.Print(Commands.Execute(task, group, file))
    ensures SubmissionOf(cfd, tlv) == Some(Submission(cfd, task, group, file)) <==> Commands.Field(file)
  {
    var c := Commands.Execute(task, group, file);
    Commands.CommandBackIff(c);
    assert Commands.TextsOf(c) == [file] && Commands.TextsOf(c)[0] == file;
    hide Commands.Tokens, Commands.Print, Commands.Field, Commands.Interpret;
  }

  /** The text of an execute command with these words. */
  predicate Asks(bytes: seq<Tlv.Byte>, x: Submission) {
    Text(bytes) == Commands.Print(Commands.Execute(x.task, x.group, x.file)) && Commands.Field(x.file)
  }

  /** Two execute commands in one message: both jobs get the same address, and if the pool's thread for the first one
      reads while the server is in the call for the second, it finds the words of the second. */
  lemma FirstReadsSecond(x: Submission, y: Submission, textX: seq<Tlv.Byte>, textY: seq<Tlv.Byte>)
    requires x.cfd == y.cfd && Asks(textX, x) && Asks(textY, y)
    requires Tlv.Sendable([Tlv.Data(Tlv.CLI_DATA, textX), Tlv.Data(Tlv.CLI_DATA, textY)])
    ensures var frame := Tlv.Frame([Tlv.Data(Tlv.CLI_DATA, textX), Tlv.Data(Tlv.CLI_DATA, textY)]);
      SubmissionsOf(x.cfd, Handled(Tlv.Parsed(frame))) == [x, y]
    ensures var ms := [Filled(x), Left, Filled(y), Taken(0)];
      && ServerMoves(ms) <= Calls([x, y]) && Play(ms).Some?
      && Play(ms).value.meant[0] == x && Reads(Play(ms).value, y)
  {
    TwoArrive(x, y, textX, textY);
    SecondCall(x, y);
  }

  lemma TwoArrive(x: Submission, y: Submission, textX: seq<Tlv.Byte>, textY: seq<Tlv.Byte>)
    requires x.cfd == y.cfd && Asks(textX, x) && Asks(textY, y)
    requires Tlv.Sendable([Tlv.Data(Tlv.CLI_DATA, textX), Tlv.Data(Tlv.CLI_DATA, textY)])
    ensures var frame := Tlv.Frame([Tlv.Data(Tlv.CLI_DATA, textX), Tlv.Data(Tlv.CLI_DATA, textY)]);
      SubmissionsOf(x.cfd, Handled(Tlv.Parsed(frame))) == [x, y]
  {
    var attrs := [Tlv.Data(Tlv.CLI_DATA, textX), Tlv.Data(Tlv.CLI_DATA, textY)];
    Tlv.OneFrame(attrs);
    Tlv.RoundTrip([attrs]);
    var out := Tlv.ExpectedAll(attrs);
    hide Tlv.Sendable, Tlv.Frame, Tlv.Parsed, Commands.Print, Commands.Field;
    assert out == [Tlv.Expected(attrs[0]), Tlv.Expected(attrs[1])] && out[1..] == [out[1]] && out[1..][1..] == [];
    CommandArrivesIff(x.cfd, x.task, x.group, x.file, out[0]);
    CommandArrivesIff(x.cfd, y.task, y.group, y.file, out[1]);
    hide SubmissionOf, Text;
    NoSubmissions(x.cfd);
    assert SubmissionsOf(x.cfd, out[1..]) == [y];
    assert [x] + [y] == [x, y];
  }

  lemma SecondCall(x: Submission, y: Submission)
    ensures var ms := [Filled(x), Left, Filled(y), Taken(0)];
      && ServerMoves(ms) <= Calls([x, y]) && Play(ms).Some?
      && Play(ms).value.meant[0] == x && Reads(Play(ms).value, y)
  {
    hide Play, ServerMoves, Reads;
    var m1 := [] + [Filled(x)];
    var m2 := m1 + [Left];
    var m3 := m2 + [Filled(y)];
    Nothing();
    More([], Filled(x));
    assert Play(m1) == Some(Place(Some(x), [] + [x])) && ServerMoves(m1) == [] + [Filled(x)];
    More(m1, Left);
    assert Play(m2) == Some(Place(None, [] + [x])) && ServerMoves(m2) == [] + [Filled(x)] + [Left];
    More(m2, Filled(y));
    assert Play(m3) == Some(Place(Some(y), [] + [x] + [y]));
    More(m3, Taken(0));
    ReadsHeld(Place(Some(y), [] + [x] + [y]), y);
    TwoCalls(x, y);
    assert m3 + [Taken(0)] == [Filled(x), Left, Filled(y), Taken(0)];
  }

  lemma TwoCalls(x: Submission, y: Submission)
    ensures [] + [Filled(x)] + [Left] + [Filled(y)] <= Calls([x, y])
  {
    assert [x, y][1..] == [y];
  }

  /** An execute command read as it was typed makes `initJob` dereference a missing list head exactly if its group id
      is above 1000: nothing between the command line and `initJob` checks it. */
  lemma MissingHeadIff(x: Submission, bytes: seq<Tlv.Byte>, s: State, jobId: nat, initial: int, divided: bool)
    requires Asks(bytes, x) && jobId !in s.jobs
    ensures SubmissionsOf(x.cfd, Tlv.ExpectedAll([Tlv.Data(Tlv.CLI_DATA, bytes)])) == [x]
    ensures x.group > 0 && HeadOf(x.group) == None <==> x.group > MAX_MULTICAST_GROUPS
    ensures Enabled(s, NewJob(x.group, jobId, initial, divided)) <==> x.group <= 0 || HeadOf(x.group).Some?
  {
    ExecuteArrivesIff(x.cfd, x.task, x.group, x.file, bytes);
  }
}
