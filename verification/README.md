# Verified model of the pyramid server and its clients

The repository distributes jobs over groups of clients. A server registers clients in multicast groups, divides the
input file of a job among the free members of a group, hands out the pieces, merges the results that come back, and
moves pieces on when a client fails or disconnects. The command line and the clients talk to it in frames of
type-length-value attributes. This project models that behaviour in Dafny and proves what it keeps.

`dafny verify dfyconfig.toml` checks the whole project.

## How it is built

| file | content |
|---|---|
| `PoolProtocol.dfy` | the thread pool as an interleaving transition system: workers, pushers, initialiser, waiter, destroyer, each with a program counter |
| `PoolInvariant.dfy` | its inductive invariant, actor by actor, over every run |
| `PoolTheorems.dfy` | wait safety, no lost wakeup, draining, exactly-once, shutdown |
| `PoolFairness.dfy` | shutdown under every fair schedule |
| `PoolWaiting.dfy` | that a wait returns: by its own reads, and under every fair schedule of a running pool |
| `JobQueue.dfy` | the linked job queue, in place, refining a sequence |
| `Structures.dfy` | the linked records of groups.h and jobs.h |
| `RegistrySpec.dfy` | the registry on values: registrations, group rosters, buckets, histories |
| `Registry.dfy` | the registry in place: 1000 group lists, 255 buckets, membership chains |
| `JobProtocol.dfy`, `JobTheorems.dfy` | job distribution on values: one server event is one step; its invariant and what follows for every run |
| `JobEffects.dfy` | what each server event does, said of registrations, worker lists, queue and messages alone |
| `JobLists.dfy` | worker lists, pending queue and job list, in place |
| `JobSteps.dfy` | the statements of jobs.c on values, and that they add up to the protocol's steps |
| `JobServer.dfy` | the server events in place, each proved to make exactly the protocol's step |
| `Session.dfy` | sessions of the server on its records, as witnesses that the events' preconditions can be met, and reachable states in which properties fail |
| `Division.dfy` | dividing a file, the maximum of a piece, which jobs can complete, the answer of a completed job |
| `Tlv.dfy` | encoders, decoder and frame loop |
| `Handover.dfy` | the place on the server's stack through which an execute command's words get to the thread pool, and when a job is read as it was meant |
| `Dispatch.dfy` | received bytes to protocol steps and to jobs for the thread pool, and from there to `initJob` |
| `Tokenizer.dfy`, `Commands.dfy` | the command line's word splitter, and the command text |
| `Listing.dfy` | the batching of long listings, sent through the encoder, and which of them arrive |
| `Wrappers.dfy` | an option type |

## What is assumed

- Memory is sequentially consistent. A critical section of the pool is one step; every unlocked access to a shared
  variable is a step of its own. The one exception is a worker's last critical section, whose decrement and unlock are
  two steps. One waiter stands for all, since waiters write nothing. While the job queue is freed no caller is inside
  `thpool_add_work`.
- Server events (a join, a new job, a result, an error, a disconnect) are atomic, and job ids are distinct and not
  negative. The protocol's new job has a group id of at most 1000; what `submit_job` does with any other is in
  `Dispatch.SubmitJob` and `Dispatch.MissingHeadIff`.
- In the protocol a client that was given work reports a result only while it holds a piece, as the client program
  does (client/src/client.c:294-302). A report from a client that was never given work changes nothing. What the code
  does with any other report is modelled and proved separately: `JobServer.Server.UpdateJobResult`,
  `JobSteps.StaleReportIff`.
- `freeClient` unlinks the worker completely, as `dequeue_pending_job` does. What the code does instead is proved
  separately: `JobLists.FreeClientAsWritten` leaves a well-formed list exactly if the freed worker was the last one,
  and there are reachable states in which it is not: `Session.EarlierWorkerIsFreed`, `JobSteps.HandOverFreesEarlier`.
- The parking branch of `reassign_job` reads the node after the parked one, so a later worker on the list is a guard
  of that step.
- `addJob` leaves the job's result unset; it is a parameter. It also sets the dummy's `next` from an unset field;
  here it is null. A worker's piece number, unset until `assignJob`, is 0.
- Record members that the code sets once when it creates a record are constants.
- Memory allocation succeeds. Machine integers are modelled where they matter: the unsigned hash of a descriptor, the
  16-bit and 32-bit words of the wire format, the truncation of group ids. The wire format is that of a
  little-endian machine.
- All calls of `sh_parse_cmd` are made by the server's one thread from the same place, so the `submit_job_t` of each is
  at the same address. Filling it and queueing its address is one move, and once a call is over nothing is known of what
  is there.
- Sends are not partial, and a receive takes up to 1024 bytes. TCP may join sends in one receive: a listing is proved
  for each frame received on its own and for the whole reply in one receive, not for other splits. Encoders are called
  with room for what they encode, except by the listings, where that is proved to fail. Command texts fit the fixed
  buffers on both sides.

## What came out false

- Reading the two counters of `thpool_wait` in the other order would be wrong: `PoolTheorems.IdleThenEmptyIsUnsafe`.
- A pool can be freed while a worker that has counted itself out still has to unlock `thcount_lock`; nothing else of a
  worker is left then, and the job queue is safe: `PoolTheorems.FreedBeforeUnlock`,
  `PoolTheorems.QueueFreedOnlyWhenLeft`.
- An error leaves its worker marked busy without a piece exactly if nobody in its group is free, and then it gets no
  further work until it disconnects: `JobTheorems.ErrorStrandsIff`, `JobTheorems.StrandedForever`,
  `Session.ErrorStrands`.
- A report from a client that no longer holds a piece is harmless exactly if its value is no better than the result so
  far and, if its file was divided, nothing of the job is parked; else it counts for no piece, or a parked piece is
  lost: `JobSteps.StaleReportIff`, and the reachable report `Session.LateReportLosesPiece`.
- A job cannot complete if its file makes fewer pieces than it has workers, as five lines do for four workers; with
  workers that report the maximum of their piece it can complete exactly otherwise: `Division.CompletesIff`,
  `Division.DividedJobCompletesIff`, `Division.FiveLinesFourWorkers`, and the reachable job `Session.OneLineTwoWorkers`.
- With two registrations on one descriptor a worker that reports the maximum of the last piece it received can spoil the
  answer: `Session.SharedDescriptorMisleads`. With a descriptor for each the answer is right: `Division.AnswerIsRight`.
- When the file of a job cannot be divided its group's members stay reserved, and no other job gets them until they
  report, fail or disconnect, though they were sent nothing: `JobTheorems.UndividedReserves`,
  `JobTheorems.WaitingForever`.
- An execute command's words need not reach `submit_job`, which gets the address of a local of `sh_parse_cmd`: a job is
  read as it was meant exactly if its place was neither left nor filled again since it was queued, or was last filled
  with the same words by a call that still lasts. Of two commands in one message the first can be read as the second:
  `Handover.ReadsBackIff`, `Handover.ReadsBackInCall`, `Dispatch.FirstReadsSecond`.
- A file whose last line has no newline can be divided into one piece more than there are workers. This happens
  exactly if the number of newlines is a multiple of the number of workers, and then that line never reaches the
  result: `Division.EnoughWorkers`, `Division.CompletedJob`, `Division.LeftOverLineIsLost`.
- A listing whose frames are received one by one arrives exactly if no chunk of it has more than 1016 characters, the room an attribute has in the encoder's
  payload, but chunks of up to 1022 are sent: `Listing.ListingArrivesIff`, `Listing.UniformListingArrivesIff`,
  `Listing.FullGroupIsLost`. A whole reply in one receive arrives exactly if it has at most 1024 bytes:
  `Listing.ReplyTogetherIff`.
- Typed words are read back exactly if none has a quote of either kind, even between quotes of the other kind, and the
  first is not a bar; a line that starts with a bar yields an empty first word: `Tokenizer.WordsBackIff`,
  `Tokenizer.LeadingBar`. Characters typed directly before a quote are lost: `Tokenizer.LostBeforeQuote`.
- A command whose words are empty or contain a bar is never understood as it was meant: `Commands.CommandBackIff`.
- An error attribute with a negative count is not received as it was encoded: `Tlv.FailureBackIff`.
- `initJob` dereferences the list head of its group, which is missing exactly for a group id above 1000, and a typed
  group id gets there unchecked (server/src/jobs.c:110-111, server/src/groups.c:55-63): `Dispatch.MissingHeadIff`.

## Model

| member | source | states |
|---|---|---|
| `JobQueue.Queue.Push` | server/src/thpool.c:446-466 | the new job is last in the queue, both ends and the link are right, and the semaphore is set |
| `JobQueue.Queue.Pull` | server/src/thpool.c:472-497 | the first job leaves; pulled jobs followed by queued jobs stay the pushed jobs in order; no job comes twice; it posts again exactly when more than one was queued |
| `JobQueue.Queue.Clear` | server/src/thpool.c:428-441 | terminates with the empty queue, ends cleared and semaphore reset |
| `PoolInvariant.InitInv` | server/src/thpool.c:116-165 | a new pool satisfies the invariant |
| `PoolInvariant.StepKeepsInv` | server/src/thpool.c:337-389 | every step of every actor keeps the invariant |
| `PoolInvariant.ReachableInv` | server/src/thpool.c:337-389 | the invariant holds in every reachable state, for any number of workers and pushers |
| `PoolTheorems.EmptyThenIdle` | server/src/thpool.c:200-201 | if the length is read as 0 and later the working count as 0, every job pushed before the first read has finished by the second |
| `PoolTheorems.WaitIsSafe` | server/src/thpool.c:193-234 | when the wait returns, every job pushed before it was called has finished, in every interleaving |
| `PoolTheorems.IdleThenEmptyIsUnsafe` | server/src/thpool.c:200-217 | with the two reads swapped that fails: a reachable state and a run in which both reads give 0 and a job pushed before is unfinished |
| `PoolTheorems.NoLostWakeup` | server/src/thpool.c:532-557 | a queued job always has a set semaphore, a worker on its way to pull, or a post to come; a set semaphore with sleepers has a signalled worker; so not all workers are asleep |
| `PoolTheorems.SomeoneMoves` | server/src/thpool.c:354-369 | while a pushed job is unfinished some thread of the running pool can move without a new push |
| `PoolTheorems.InternalDrains` | server/src/thpool.c:354-369 | every step that is not a new push or a spurious wakeup lowers the potential |
| `PoolTheorems.PoolDrains` | server/src/thpool.c:337-389 | every schedule without new pushes is bounded, and where it cannot go on all pushed jobs have finished |
| `PoolTheorems.EachJobOnce` | server/src/thpool.c:363-374 | jobs start in push order, each at most once; a started job is either finished or held by exactly one worker |
| `PoolTheorems.AtMostOneLateJob` | server/src/thpool.c:354-369 | after the keep-alive flag is cleared each worker starts at most one more job |
| `PoolTheorems.QueueFreedOnlyWhenLeft` | server/src/thpool.c:257-268 | once the queue is being freed no worker has a step left, in any continuation, but the unlock after its last decrement |
| `PoolTheorems.FreedBeforeUnlock` | server/src/thpool.c:385-386 | a reachable state in which the pool is gone and a worker still has that unlock to do |
| `PoolTheorems.ShutdownMeasure` | server/src/thpool.c:243-263 | during shutdown no step lengthens any worker's way to its end, and every worker's step but falling asleep shortens it |
| `PoolTheorems.LifeIsZero` | server/src/thpool.c:376-386 | the measure is 0 exactly when all workers are dead |
| `PoolTheorems.ShutdownCompletes` | server/src/thpool.c:238-273 | from every state in which shutdown has begun some run completes it, with every started job finished |
| `PoolFairness.OneStep` | server/src/thpool.c:243-263 | during shutdown every step without a new push frees the pool, comes nearer to the end, or changes nothing that matters |
| `PoolFairness.SomebodyHelps` | server/src/thpool.c:354-386 | until the pool is gone some thread is useful |
| `PoolFairness.UsefulMoves` | server/src/thpool.c:354-386 | a useful thread can move |
| `PoolFairness.StillUseful` | server/src/thpool.c:354-386 | it stays useful while nothing comes nearer to the end |
| `PoolFairness.UsefulHelps` | server/src/thpool.c:354-386 | each of its moves frees the pool or brings the end nearer |
| `PoolFairness.FairShutdown` | server/src/thpool.c:238-273 | without new pushes shutdown completes under every schedule in which no thread that can go on with what it has begun is left out for ever |
| `PoolFairness.ShutdownCompletesFairly` | server/src/thpool.c:238-273 | so the pool is gone at some moment of every such schedule |
| `PoolWaiting.RestingWaitReturns` | server/src/thpool.c:200-233 | a wait that finds queue and working count empty returns after exactly the reads it has left, at most six |
| `PoolWaiting.LoopsForward` | server/src/thpool.c:200-233 | it goes on to its next loop only by giving up or by finding both counters 0, never goes back, and returns only from the third loop |
| `PoolWaiting.Settles` | server/src/thpool.c:354-369 | under every fair schedule without new pushes and shutdown a running pool comes to rest |
| `PoolWaiting.WaitReturnsFairly` | server/src/thpool.c:193-234 | so a wait that has been called returns in every such schedule |
| `PoolWaiting.WaitReturnsAfterJob` | server/src/thpool.c:193-234 | a reachable run in which a wait is called, a job is run and the wait returns |
| `PoolWaiting.InitCompletes` | server/src/thpool.c:155-163 | from every state before `thpool_init` has returned some run lets it return, for any number of workers |
| `RegistrySpec.LeaveFilters` | server/src/groups.c:156-179 | removing a client leaves every group roster equal to the old one without that client, order kept |
| `RegistrySpec.LeaveUndoesJoin` | server/src/groups.c:156-211 | a removal undoes its registration whatever other clients did in between |
| `RegistrySpec.BucketAgrees` | server/src/groups.c:65-90 | looking in the descriptor's bucket finds the same record as looking through all registrations, newest first |
| `RegistrySpec.BucketsPartition` | server/src/groups.h:61-66 | going through all buckets meets every registration exactly once |
| `RegistrySpec.HashIs` | server/src/groups.c:65-78 | the bucket is the remainder by 255 of the descriptor as an unsigned number |
| `Registry.Registry.constructor` | server/src/server.c:191-211 | the empty registry is well formed |
| `Registry.Registry.Unlink` | server/src/groups.c:165-177 | one node leaves its list, all lists stay well formed with right counts |
| `Registry.Registry.DelClientFromGroups` | server/src/groups.c:156-179 | every list loses exactly the nodes of the chain |
| `Registry.Registry.AddClientToOneGroup` | server/src/groups.c:217-244 | a new node at the head of exactly that list, or nothing, exactly if the group is invalid or full |
| `Registry.Registry.RollBackGroups` | server/src/groups.c:259-261 | after a refusal every list is what it was before the request |
| `Registry.Registry.AddClientToGroups` | server/src/groups.c:246-268 | all or nothing: succeeds exactly if every group of the request, counting repetitions, is valid and has room; then each list gains the client once per occurrence, else nothing changed |
| `Registry.AdmitsIsFits` | server/src/groups.c:224-232 | admitting the groups of a request in turn is having room for the whole request |
| `Registry.Registry.SearchClientFd` | server/src/groups.c:80-90 | returns the newest registered client with the descriptor, or null exactly if there is none |
| `Registry.Registry.AllClients` | server/src/groups.h:61-69 | the nested traversal meets every registered client exactly once |
| `Registry.Registry.AddOneNewClientFd` | server/src/groups.c:270-299 | registers exactly if the request fits; the whole registry stays well formed, rosters and buckets gain the client in front |
| `Registry.Registry.AddOneClientFd` | server/src/groups.c:301-331 | refuses requests longer than 1000; otherwise reports success whether or not the client was registered, and a second record of a descriptor hides the first |
| `Registry.Registry.LeaveGroups` | server/src/groups.c:196-196 | afterwards no group list has a node of the client |
| `Registry.Registry.RemoveClient` | server/src/groups.c:196-208 | the client leaves lists and bucket; the others keep their places |
| `Registry.Registry.DelOneClientFd` | server/src/groups.c:181-211 | removes exactly the newest record of the descriptor, or reports that there is none and changes nothing |
| `JobTheorems.StepKeepsInv` | server/src/jobs.c:144-281 | every server event keeps: pieces partitioned, workers exclusive and busy, parked pieces only of jobs with workers, results the best so far, holders were sent their pieces |
| `JobTheorems.ReachableInv` | server/src/jobs.c:92-451 | all of that holds after every run of events |
| `JobTheorems.PieceInOnePlace` | server/src/jobs.c:433-441 | every piece that was handed out is with a worker, parked or merged, exactly once over all of them |
| `JobTheorems.DoneIsComplete` | server/src/jobs.c:445-448 | when no worker is left nothing of the job is parked and every piece was merged exactly once |
| `JobTheorems.OnePieceEach` | server/src/jobs.c:111-121 | a client holds at most one piece over all jobs, and a holder is registered, busy and points at that job |
| `JobTheorems.HolderWasSent` | server/src/jobs.c:197-217 | the piece a client holds is the last one it was sent |
| `JobTheorems.WorkGoesToTheIdle` | server/src/jobs.c:242-253 | an event gives a piece only to a client that was not busy, except the oldest parked piece of the job to the client that just finished |
| `JobTheorems.ErrorStrandsIff` | server/src/jobs.c:242-267 | an error leaves its worker busy with nothing exactly if nobody in its group is free, and its piece is parked then |
| `JobTheorems.StrandedForever` | server/src/jobs.c:255-267 | such a worker gets no work in any run until its own disconnect |
| `JobTheorems.UndividedReserves` | server/src/jobs.c:110-132 | a job whose file cannot be divided reserves every free member of its group and sends nothing |
| `JobTheorems.WaitingForever` | server/src/jobs.c:130-132 | such a member stays busy on that job in every run in which it does not itself report, fail or disconnect |
| `JobEffects.JoinRegisters` | server/src/groups.c:217-331 | a join is granted exactly for 1 to 1000 groups with ids from 1 to 1000 that come to at most 255 memberships each; the new client is then the newest |
| `JobEffects.NewJobReserves` | server/src/jobs.c:92-142 | a new job gets exactly the members of its group that are not busy, newest first; they are busy then and are sent the pieces 0, 1, 2, ... if the file was divided |
| `JobEffects.HandedOutIff` | server/src/jobs.c:124-141 | its pieces are handed out exactly if the file was divided and somebody was free |
| `JobEffects.JobRefused` | server/src/jobs.c:94-96 | a job for a group id of 0 or less changes nothing |
| `JobEffects.ErrorMovesPiece` | server/src/jobs.c:242-280 | the piece of a client that fails goes, by a message too, to the newest member of the last group it asked for that is not busy |
| `JobEffects.ErrorParksPiece` | server/src/jobs.c:255-267 | if nobody there is free the piece becomes the newest in the queue and its client stays busy |
| `JobEffects.OtherErrors` | server/src/jobs.c:219-241 | an error of anyone without a piece changes nothing |
| `JobEffects.DisconnectRemoves` | server/src/server.c:301-310 | a disconnect does what an error does and removes the newest registration of the descriptor, its busy mark and its job |
| `JobEffects.NobodyDisconnects` | server/src/groups.c:187-194 | a disconnect of a descriptor that nobody registered changes nothing |
| `JobEffects.ResultThenParked` | server/src/jobs.c:419-441 | a result is merged for the piece its sender has, the better value is kept, and the sender gets the job's oldest parked piece |
| `JobEffects.ResultThenFree` | server/src/jobs.c:419-448 | if none is parked the sender leaves the worker list and is free |
| `JobEffects.OtherResults` | server/src/jobs.c:412-431 | a result from nobody, or from a client that was never given work, changes nothing |
| `JobEffects.ReachableAsking` | server/src/groups.c:246-268 | every registered client asked for a group, so the last one is always there to be looked through |
| `JobSteps.MergeInSteps` | server/src/jobs.c:419-441 | the statements for a result add up to the protocol's step |
| `JobSteps.ReportInSteps` | server/src/jobs.c:412-451 | for a client that holds a piece or was never given work the code's treatment of a report is the protocol's step |
| `JobSteps.StaleReportIff` | server/src/jobs.c:419-441 | a report from any other client keeps the invariant exactly if it raises nothing and, if the job's file was divided, nothing of the job is parked |
| `JobSteps.HandOverFreesEarlier` | server/src/jobs.c:246-279 | a client that hands its piece over is never last on the list |
| `JobSteps.ReassignInSteps` | server/src/jobs.c:242-279 | the statements for handing a piece over add up to the protocol's step |
| `JobSteps.StartInSteps` | server/src/jobs.c:103-137 | the loops of a job's start add up to the protocol's step |
| `JobLists.AddClientToJob` | server/src/jobs.c:144-155 | a new node at the tail, the list well formed and counted |
| `JobLists.GetClientNode` | server/src/jobs.c:283-294 | the first node of the client, or null exactly if it has none |
| `JobLists.TakeOut` | server/src/jobs.c:173-193 | the node leaves, order kept, both link directions, tail and count right |
| `JobLists.FreeClientAsWritten` | server/src/jobs.c:173-193 | the code as it stands: well formed afterwards exactly if the worker was the last; otherwise the list still leads to the freed node; its links, tail and count in both cases |
| `JobLists.PendingQueue.Enqueue` | server/src/jobs.c:21-37 | the node is the newest, both link directions and ends right |
| `JobLists.PendingQueue.Dequeue` | server/src/jobs.c:39-60 | the oldest node of that job leaves, or null exactly if there is none; all others keep their order and links |
| `JobLists.JobDll.AddJob` | server/src/jobs.c:310-331 | the new job is last, with an empty worker list |
| `JobLists.JobDll.GetJobNode` | server/src/jobs.c:402-410 | the job of that id, or null exactly if there is none |
| `JobServer.Server.constructor` | server/src/jobs.c:296-308 | the server starts in the protocol's initial state |
| `JobServer.Server.NodeOf` | server/src/jobs.c:283-294 | finds a worker's node exactly where the protocol's state has it |
| `JobServer.Server.AssignPendingJob` | server/src/jobs.c:62-90 | the client's node gets the parked piece and the client is sent it; refuses exactly if it is not on the list |
| `JobServer.Server.FreeClient` | server/src/jobs.c:157-196 | the client leaves the job's list and is no longer busy, if it is on it; refuses exactly negative and unknown ids |
| `JobServer.Server.UpdateJobResult` | server/src/jobs.c:412-451 | for every reporter exactly the code's step, which is the protocol's step where that is defined; refuses exactly clients that were never given work |
| `JobServer.Server.FindFree` | server/src/jobs.c:242-253 | the member of the group list that is not busy and before which all are, or null exactly if all are busy |
| `JobServer.Server.HandOver` | server/src/jobs.c:246-277 | the free client is enlisted with the old worker's piece and is sent it |
| `JobServer.Server.ParkWorker` | server/src/jobs.c:256-266 | the piece moves from the worker list to the head of the queue |
| `JobServer.Server.ReassignJob` | server/src/jobs.c:219-281 | makes exactly the protocol's step for an error |
| `JobServer.Server.ReserveMembers` | server/src/jobs.c:110-121 | every member that is not busy is enlisted once, in list order |
| `JobServer.Server.AssignJob` | server/src/jobs.c:197-217 | the workers get the pieces 0, 1, 2, ... in list order and are sent them |
| `JobServer.Server.InitJob` | server/src/jobs.c:92-142 | makes exactly the protocol's step for a new job, and returns true exactly if the group id and the job id are acceptable, the file was divided and a member of the group was not busy |
| `JobServer.Server.JoinGroups` | server/src/server.c:354-367 | makes exactly the protocol's step for a join |
| `JobServer.Server.DropClient` | server/src/server.c:305-305 | removes the newest client of the descriptor without breaking a tie between records and state |
| `JobServer.Server.Disconnected` | server/src/server.c:301-310 | makes exactly the protocol's step, after which no worker list, queue node, group list or bucket refers to the removed client |
| `Session.ErrorStrands` | server/src/jobs.c:255-267 | a reachable error that strands its worker |
| `Session.EarlierWorkerIsFreed` | server/src/jobs.c:187-193 | a reachable report whose sender is not last on its list |
| `Session.OneFails` | server/src/server.c:396-399 | that error on the records |
| `Session.TwoClients` | server/src/server.c:301-404 | two joins, a division, a disconnect that parks a piece, and two results, one after the other on the records, end with every piece merged once and the better result |
| `Session.LateReportLosesPiece` | server/src/jobs.c:412-451 | a reachable state in which a report of any value loses the parked piece |
| `Session.OneLineTwoWorkers` | server/src/dos.sh:8-26 | a reachable job that cannot complete |
| `Session.SharedDescriptorMisleads` | server/src/jobs.c:412-441 | a reachable report that is the maximum of the piece last sent on its descriptor and is merged for another piece |
| `Session.RunsFromText` | server/src/server_helper.c:333-407 | a join and an execute command from their bytes to the start of the job that is found in the place by then |
| `Session.SessionOfMessages` | server/src/server.c:313-404 | two joins, an error and two results by their literal bytes: the job is complete with the better result, and the client that failed is stranded |
| `Division.FindMax` | dynamic/src/api.c:73-100 | the maximum of the lines, or a refusal exactly of the empty file |
| `Division.Divide` | server/src/dos.sh:5-26 | fails exactly without a newline; otherwise the pieces put together are the file, none is empty, and they are at most as many as the workers exactly unless a line is left over |
| `Division.PiecesAreTheFile` | server/src/dos.sh:26-26 | cutting loses and moves nothing |
| `Division.Rounding` | server/src/dos.sh:8-19 | the piece size times the workers is the number of newlines rounded up to a multiple of the workers |
| `Division.EnoughWorkers` | server/src/dos.sh:8-19 | the rounded-up piece size gives no more pieces than workers, exactly unless an unterminated line is left over |
| `Division.EveryWorkerHasAPiece` | server/src/dos.sh:8-19 | every worker gets a piece exactly if the pieces of all workers but one do not use up the file |
| `Division.CompletesIff` | server/src/jobs.c:412-451 | with workers that report the maximum of their piece a started job can complete exactly if there are at least as many pieces as workers |
| `Division.DividedJobCompletesIff` | server/src/dos.sh:8-26 | the same for the script's pieces of any file |
| `Division.FiveLinesFourWorkers` | server/src/dos.sh:8-26 | five lines divided among four workers make a job that never completes |
| `Division.CompletedIsMaximum` | server/src/jobs.c:419-448 | a completed job holds the maximum of its initial value and all lines, for every order of events |
| `Division.CompletedJob` | server/src/jobs.c:412-451 | the same for the pieces the script makes of any file: a job that has completed holds the maximum over exactly the lines that reach a worker |
| `Division.TruthfulRunIsHonest` | server/src/jobs.c:197-217 | if every report is the maximum of the piece last sent on its descriptor, and descriptors are not shared, every merged value is the maximum of the piece it is merged for |
| `Division.AnswerIsRight` | server/src/jobs.c:412-451 | so in every such run a completed job holds the maximum over exactly the lines that reach a worker |
| `Division.LeftOverLineIsLost` | server/src/dos.sh:5-19 | a complete reachable run with honest results whose result misses the left-over line |
| `Tlv.Buffer.EncodeData` | common/src/tlv.c:14-41 | appends exactly that attribute and rewrites the header, or returns 0 exactly for lengths outside 1 to 1023; likewise the encoders for CLI data, sort and maximum |
| `Tlv.Buffer.EncodeJoinGroup` | common/src/tlv.c:43-75 | the same for 1 to 254 group ids |
| `Tlv.Buffer.EncodeGoodbye` | common/src/tlv.c:77-104 | the same for the fixed farewell |
| `Tlv.Buffer.EncodeAlgoError` | common/src/tlv.c:162-188 | appends one word repeated, under a length that is not checked |
| `Tlv.Buffer.Encode` | common/src/tlv.c:190-217 | dispatches by type; an unknown type adds nothing |
| `Tlv.AskedIff` | common/src/tlv.c:190-217 | something is encoded exactly for the types 3, 5, 101 and 102 with 1 to 1023 bytes, type 1 with 1 to 254 groups, and the types 2 and 100 |
| `Tlv.Buffer.InTheBuffer` | common/src/tlv.c:37-40 | the length so far is in the first four bytes, the higher ones first, and the last attribute's bytes are at the end |
| `Tlv.DataBytes` | common/src/tlv.c:26-29 | type and length, two bytes each, higher first, then the value |
| `Tlv.JoinBytes` | common/src/tlv.c:57-66 | type 1, four times the number of groups, and each group id modulo 65536 in the first two bytes of its word |
| `Tlv.GoodbyeBytes` | common/src/tlv.c:79-97 | the eleven bytes of the farewell |
| `Tlv.ErrorBytes` | common/src/tlv.c:170-179 | type 100, four times the count, and each word in four bytes, highest first |
| `Tlv.Buffer.Transmitted` | common/src/tlv.c:14-302 | what was encoded into one buffer is what its receiver is handed, in order |
| `Tlv.Decode` | common/src/tlv.c:247-302 | the attribute at an offset, by its bytes: two of type, two of length, higher first, and group ids in the first two bytes of each word; none exactly if it leads past the end |
| `Tlv.HandleClientMessage` | server/src/server.c:313-345 | the loops deliver what the specification of frames says, for every received buffer, well formed or not |
| `Tlv.HeaderBytes` | server/src/server.c:315-329 | the header is the sum of its four bytes, highest first, as an int |
| `Tlv.FrameBytes` | server/src/server.c:313-345 | what a received frame of one attribute is handed over as, by its bytes |
| `Tlv.RoundTrip` | server/src/server.c:313-345 | any concatenation of frames is received as exactly the encoded attributes in order |
| `Tlv.CutIff` | server/src/server.c:313-345 | frames of one attribute each that come in one receive are handed over exactly if none of their bytes is cut off |
| `Tlv.GidsBack` | common/src/tlv.c:61-66 | group ids come back modulo 65536 |
| `Tlv.FailureBackIff` | common/src/tlv.c:170-179 | an error is received as it was encoded exactly if its 16-bit length is that of what follows |
| `Tlv.ValidGidsUnchanged` | common/src/tlv.c:268-280 | valid group ids come back unchanged |
| `Handover.ReadsBackIff` | server/src/server_helper.c:333-340 | after any moves of the server's and the pool's threads a job is read as it was meant exactly if its place was neither left nor filled again since it was queued, or was last filled with the same words by a call that still lasts |
| `Handover.ReadsBackInCall` | server/src/server_helper.c:397-408 | in every interleaving of reads with the server's calls the k-th command is read as typed exactly while the server is inside the call for it or for one with the same words |
| `Dispatch.HandleData` | server/src/server.c:348-404 | an attribute makes exactly the step it stands for; for an execute command the place is filled, its address queued, and the place left |
| `Dispatch.PushFilled` | server/src/server_helper.c:398-405 | the address is queued with the words in the place |
| `Dispatch.AddWork` | server/src/server_helper.c:397-407 | the place is filled with the words, its address queued, and the place left when the block ends |
| `Dispatch.SubmitJob` | server/src/server_helper.c:333-349 | the job that is found in the place when it is read, whatever that is, makes exactly the protocol's step for a new job and is reported as handed out exactly if it was, or a null list head is read exactly for a group id above 1000 |
| `Dispatch.ReceiveMessage` | server/src/server.c:313-404 | a received buffer makes exactly the steps its attributes stand for; the place is filled and left once for each job they ask for, in order, and as many jobs with its address are queued |
| `Dispatch.JoinArrives` | server/src/server.c:354-367 | a request for valid groups reaches the registry as it was made |
| `Dispatch.ResultArrives` | server/src/jobs.c:417-417 | a reported result reaches the job as the number that was printed, whatever non-digit follows it |
| `Dispatch.ErrorArrives` | server/src/server.c:396-399 | an encoded error whose length is right is the error event and no submission |
| `Dispatch.MessageMeans` | server/src/server.c:348-404 | by the bytes of a frame: type 1 is a join of the groups that follow, 100 an error, 102 a result; every other type stands for no event, and none but 5 for a submission |
| `Dispatch.SubmitsIff` | server/src/server_helper.c:395-407 | a submission is asked for exactly by type 5 with a text whose first number is 4 and that has three more fields |
| `Dispatch.ErrorMessageMoves` | server/src/jobs.c:242-280 | after a message of type 100 from a client that has a piece, the piece is with the newest free member of its last group, and was sent to it |
| `Dispatch.ErrorMessageParks` | server/src/jobs.c:255-267 | if nobody there is free the piece is parked then |
| `Dispatch.ExecuteArrivesIff` | server/src/server_helper.c:397-405 | at the moment of the call the place is filled with an execute command's words as they were typed exactly if its file name is not empty and has no bar |
| `Dispatch.FirstReadsSecond` | server/src/server_helper.c:397-407 | two execute commands in one message fill the same place one after the other, and a run in which the first job is read with the words of the second |
| `Dispatch.MissingHeadIff` | server/src/groups.c:55-63 | a typed execute command reaches `initJob` with a missing list head exactly if its group id is above 1000 |
| `Tokenizer.CliParseLine` | client/src/cli_commands.c:202-261 | terminates on every line by the measure 2 * remaining + (word open ? 1 : 0) and stores the words of the specification |
| `Tokenizer.Parse` | client/src/cli_commands.c:219-219 | at most max - 1 words |
| `Tokenizer.WordsBack` | client/src/cli_commands.c:202-261 | up to max - 1 words without quotes, typed plain, between quotes or as bars, with spaces at least between a plain word and the plain or quoted word after it, are read back, unless the first is a bar |
| `Tokenizer.ParsedAreFree` | client/src/cli_commands.c:239-243 | no word of any line has a quote of either kind |
| `Tokenizer.LeadingBar` | client/src/cli_commands.c:209-221 | on every line that starts with a bar the first word is empty |
| `Tokenizer.WordsBackIff` | client/src/cli_commands.c:202-261 | words typed plain, with anything between quotes of either kind, or as bars are read back exactly if none has a quote and the first is not a bar |
| `Tokenizer.TooManyWords` | client/src/cli_commands.c:219-219 | of more words the first max - 1 are read |
| `Tokenizer.LostBeforeQuote` | client/src/cli_commands.c:239-243 | characters directly before a quote are lost |
| `Tokenizer.OpenQuote` | client/src/cli_commands.c:221-231 | a quote that is never closed ends with the line |
| `Commands.NumberBack` | server/src/server_helper.c:367-402 | printing a number and reading it gives it back, whatever non-digit follows it |
| `Commands.NumberAfterSpaces` | server/src/server_helper.c:367-402 | so it is after spaces and, if it is not negative, after a plus |
| `Commands.SpaceIff` | server/src/server_helper.c:367-402 | these spaces are the blank and the characters from tab to carriage return |
| `Commands.FieldsBack` | server/src/server_helper.c:383-386 | non-empty fields without bars are split where they were joined |
| `Commands.TokensAre` | server/src/server_helper.c:366-404 | bars in front are passed over, and a field ends at the next bar or with the text |
| `Commands.PrintedAs` | client/src/cli_commands.c:289-394 | the text of every command: the digits of its opcode, then its fields in order |
| `Commands.UnderstoodIff` | server/src/server_helper.c:366-417 | an opcode is unknown exactly outside 0 to 10, and a field is missing exactly if there are fewer than the opcode needs |
| `Commands.CommandBackIff` | client/src/cli_commands.c:289-394 | the server understands a command as the client meant it exactly if its words are non-empty and have no bar |
| `Commands.StrTok.Next` | server/src/server_helper.c:367-404 | successive calls return the non-empty runs between bars, then nothing |
| `Commands.ParseCmd` | server/src/server_helper.c:352-421 | takes every text apart as specified, including unknown opcodes and missing fields |
| `Listing.SendEncodedData` | server/src/server_helper.c:45-71 | one frame, nothing for an empty text, or an encoder that runs past its payload, exactly for more than 1016 characters |
| `Listing.ArrivesIff` | client/src/cli_commands.c:138-148 | a receiver is handed the text exactly if it has at most 1016 characters; a longer frame is taken for a fragment |
| `Listing.Batch.TryToSend` | server/src/server_helper.c:73-84 | the buffer is sent off exactly before it would overflow, and the line is added to it |
| `Listing.ChunksAreTheLines` | server/src/server_helper.c:73-84 | the batching loses, adds and moves nothing |
| `Listing.SendListing` | server/src/server_helper.c:86-111 | each chunk of the lines is sent in order |
| `Listing.ListingArrivesIff` | server/src/server_helper.c:45-84 | a listing whose frames are received one by one arrives exactly if no chunk has more than 1016 characters |
| `Listing.ReplyTogetherIff` | client/src/cli_commands.c:85-168 | a whole reply in one receive arrives exactly if its lines, 8 bytes for each chunk and 15 for the farewell are at most 1024 bytes |
| `Listing.UniformListingArrivesIff` | server/src/server_helper.c:73-84 | for lines of one length that is a condition on the length and the number of lines |
| `Listing.FullGroupIsLost` | server/src/server_helper.c:97-105 | a group with 73 members whose lines have 14 characters cannot be listed |

## Left out

- JobLists.TakeOut: does the full unlink that the code intends; the code's own middle branch is in JobLists.FreeClientAsWritten.
- JobServer.Server.FreeClient: does the full unlink, too.
- JobServer.Server.Disconnected: rests on the full unlink; with the code's middle branch the worker list can still lead to the freed node.
- JobServer.Server.ReassignJob: requires that a piece is parked only while a later worker is on the list, since the code reads that worker unconditionally.
- JobServer.Server.InitJob: takes group ids of at most 1000, which its caller Dispatch.SubmitJob checks for; whether dividing the file succeeds is a parameter, and so is the initial result.
- Listing.Batch.TryToSend: takes lines shorter than the buffer, as the listing functions format them.
- Division.CompletesIff: a client that shares its descriptor with a newer one can never report, so descriptors are distinct there.
- Dispatch.SubmitJob: the id of the job is given, not allocated; nothing is said of the server's state after a null list head was read.
- Dispatch.ReceiveMessage: is the server's thread alone; reads by the pool's threads come in between in Handover.ReadsBackIff and Handover.ReadsBackInCall.
- Division.AnswerIsRight: descriptors are distinct there; Session.SharedDescriptorMisleads shows that they must be.
- Sockets, epoll, partial sends and receives, file reading, the shell, ssh and dynamic loading; sends of pieces are a log in the protocol's state.
- Mutexes and races inside jobs.c, and the allocation of job ids.
- removeJob, which is never called.
- That jobs make progress: a piece that no client can fetch may move around forever.
- thpool_pause and thpool_resume, timing, and failed allocation.
- Piece file names and repository paths; pieces are identified by their number.
- strtoumax and 32-bit truncation in reading a line; a line is the number it yields.
- The other commands' effects, formatting of the listings, logging, usage texts, port checks, and the setters for timeout and queue size.
