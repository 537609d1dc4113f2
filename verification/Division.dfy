/** How a file of numbers is divided among the workers (server/src/dos.sh), what a worker computes of its piece
    (dynamic/src/api.c), and that a completed job has the maximum of the whole file. */
module Division {
  import opened Wrappers
  import opened RegistrySpec
  import opened JobProtocol
  import JobTheorems

  predicate IsMax(m: int, s: seq<int>) { m in s && forall x :: x in s ==> x <= m }

  /** `find_max`: the lines are read into a vector, then scanned; an empty file is refused. */
  method FindMax(lines: seq<int>) returns (max: Option<int>)
    ensures max == None <==> lines == []
    ensures max.Some? ==> IsMax(max.value, lines)
  {
    var vector := new int[|lines|];
    var count := 0;
    while count < |lines|
      invariant count <= |lines| && vector[..count] == lines[..count]
    {
      vector[count] := lines[count];
      count := count + 1;
    }
    if vector.Length == 0 {
      return None;
    }
    var m := vector[0];
    for i := 1 to vector.Length
      invariant m in lines[..i] && forall k :: 0 <= k < i ==> lines[k] <= m
      invariant vector[..] == lines
    {
      assert vector[..][i] == lines[i];
      if m < vector[i] {
        m := vector[i];
      }
    }
    max := Some(m);
  }

  // ---------------------------------------------------------------------------------------------
  // Division
  // ---------------------------------------------------------------------------------------------

  /** The pieces of `size` lines that `split` cuts off, the last one possibly shorter. */
  function Pieces(lines: seq<int>, size: nat): seq<seq<int>>
    requires size > 0
  {
    if lines == [] then []
    else if |lines| <= size then [lines]
    else [lines[..size]] + Pieces(lines[size..], size)
  }

  function Flatten(pieces: seq<seq<int>>): seq<int> {
    if pieces == [] then [] else pieces[0] + Flatten(pieces[1..])
  }

  lemma {:induction false} FlattenMore(pieces: seq<seq<int>>, p: seq<int>)
    ensures Flatten(pieces + [p]) == Flatten(pieces) + p
  {
    if pieces == [] {
      assert [] + [p] == [p] && Flatten([p][1..]) == [];
    } else {
      assert (pieces + [p])[1..] == pieces[1..] + [p];
      FlattenMore(pieces[1..], p);
    }
  }

  /** Nothing is lost or moved, and no piece is empty or too long. */
  lemma {:induction false} PiecesAreTheFile(lines: seq<int>, size: nat)
    requires size > 0
    ensures Flatten(Pieces(lines, size)) == lines
    ensures forall p :: p in Pieces(lines, size) ==> 0 < |p| <= size
  {
    hide Flatten, Pieces;
    if lines == [] {
      NoPieces(size);
    } else if |lines| <= size {
      OnePiece(lines, size);
    } else {
      PiecesAreTheFile(lines[size..], size);
      FirstPiece(lines, size);
      FlattenCons(lines[..size], Pieces(lines[size..], size));
      assert lines[..size] + lines[size..] == lines;
    }
  }

  lemma NoPieces(size: nat)
    requires size > 0
    ensures Pieces([], size) == [] && Flatten([]) == []
  {
  }

  lemma OnePiece(lines: seq<int>, size: nat)
    requires 0 < |lines| <= size
    ensures Pieces(lines, size) == [lines] && Flatten([lines]) == lines
  {
    assert [lines][1..] == [];
  }

  lemma FirstPiece(lines: seq<int>, size: nat)
    requires 0 < size <= |lines|
    ensures Pieces(lines, size) == [lines[..size]] + Pieces(lines[size..], size)
  {
    if |lines| == size { assert lines[..size] == lines && lines[size..] == []; }
  }

  lemma FlattenCons(p: seq<int>, rest: seq<seq<int>>)
    ensures Flatten([p] + rest) == p + Flatten(rest)
  {
    assert ([p] + rest)[1..] == rest;
  }

  lemma {:induction false} AtMost(lines: seq<int>, size: nat, n: nat)
    requires size > 0
    ensures |Pieces(lines, size)| <= n <==> |lines| <= n * size
  {
    if lines == [] {
      assert 0 <= n * size;
    } else if n == 0 {
    } else if |lines| <= size {
      assert n * size == size + (n - 1) * size && (n - 1) * size >= 0;
    } else {
      AtMost(lines[size..], size, n - 1);
      assert n * size == size + (n - 1) * size;
    }
  }

  /** The piece size the script computes from the number of newlines and the number of workers. */
  function PieceSize(newlines: nat, workers: nat): nat
    requires workers > 0
  {
    newlines / workers + if newlines % workers != 0 then 1 else 0
  }

  lemma Rounding(newlines: nat, workers: nat)
    requires workers > 0
    ensures workers * PieceSize(newlines, workers)
         == if newlines % workers == 0 then newlines else newlines - newlines % workers + workers
    ensures PieceSize(newlines, workers) > 0 <==> newlines > 0
  {
    var q := newlines / workers;
    assert newlines == workers * q + newlines % workers;
    assert workers * (q + 1) == workers * q + workers;
    if q == 0 { assert workers * q == 0; }
  }

  /** With a last line that has no newline, `wc -l` counts one line less than `split` sees. */
  function Newlines(lines: seq<int>, unterminated: bool): nat {
    if unterminated && lines != [] then |lines| - 1 else |lines|
  }

  /** The pieces are at most as many as the workers, exactly unless an unterminated line is left over. */
  lemma EnoughWorkers(lines: seq<int>, unterminated: bool, workers: nat)
    requires workers > 0 && Newlines(lines, unterminated) > 0
    ensures PieceSize(Newlines(lines, unterminated), workers) > 0
    ensures |Pieces(lines, PieceSize(Newlines(lines, unterminated), workers))| <= workers
      <==> !unterminated || Newlines(lines, unterminated) % workers != 0
  {
    var t := Newlines(lines, unterminated);
    Rounding(t, workers);
    AtMost(lines, PieceSize(t, workers), workers);
  }

  /** Every worker gets a piece exactly if the pieces of all workers but one do not use up the file. */
  lemma EveryWorkerHasAPiece(lines: seq<int>, unterminated: bool, workers: nat)
    requires workers > 0 && Newlines(lines, unterminated) > 0
    ensures PieceSize(Newlines(lines, unterminated), workers) > 0
    ensures var size := PieceSize(Newlines(lines, unterminated), workers);
      workers <= |Pieces(lines, size)| <==> (workers - 1) * size < |lines|
  {
    var t := Newlines(lines, unterminated);
    Rounding(t, workers);
    AtMost(lines, PieceSize(t, workers), workers - 1);
  }

  /** `dos.sh`; a file without newlines makes `split` fail. */
  method Divide(lines: seq<int>, unterminated: bool, workers: nat) returns (ok: bool, pieces: seq<seq<int>>)
    requires workers > 0
    ensures ok <==> Newlines(lines, unterminated) > 0
    ensures ok ==> Flatten(pieces) == lines && forall p :: p in pieces ==> p != []
    ensures ok ==> (|pieces| <= workers <==> !unterminated || Newlines(lines, unterminated) % workers != 0)
    ensures ok ==> pieces == Pieces(lines, PieceSize(Newlines(lines, unterminated), workers))
  {
    var arr := Newlines(lines, unterminated);
    var count, modulus := arr / workers, arr % workers;
    if modulus != 0 {
      count := count + 1;
    }
    Rounding(arr, workers);
    pieces := [];
    if count == 0 {
      return false, pieces;
    }
    PiecesAreTheFile(lines, count);
    EnoughWorkers(lines, unterminated, workers);
    pieces := Cut(lines, count);
    ok := true;
  }

  method Cut(lines: seq<int>, count: nat) returns (pieces: seq<seq<int>>)
    requires count > 0
    ensures pieces == Pieces(lines, count)
  {
    pieces := [];
    var rest := lines;
    while rest != []
      invariant Pieces(lines, count) == pieces + Pieces(rest, count)
      decreases |rest|
    {
      var cut := if |rest| <= count then |rest| else count;
      assert |rest| <= count ==> rest[..cut] == rest && Pieces(rest[cut..], count) == [];
      assert Pieces(rest, count) == [rest[..cut]] + Pieces(rest[cut..], count);
      var more := Pieces(rest[cut..], count);
      assert pieces + ([rest[..cut]] + more) == (pieces + [rest[..cut]]) + more;
      pieces := pieces + [rest[..cut]];
      rest := rest[cut..];
    }
  }

  // ---------------------------------------------------------------------------------------------
  // The answer of a job
  // ---------------------------------------------------------------------------------------------

  /** Every merged value is the maximum of the piece it was reported for. */
  ghost predicate Honest(job: Job, pieces: seq<seq<int>>) {
    forall k :: 0 <= k < |job.merged| ==>
      0 <= job.merged[k].index < |pieces| && IsMax(job.merged[k].value, pieces[job.merged[k].index])
  }

  lemma {:induction false} BestIsMax(initial: int, merged: seq<Merge>)
    ensures Best(initial, merged) >= initial
    ensures forall k :: 0 <= k < |merged| ==> merged[k].value <= Best(initial, merged)
    ensures Best(initial, merged) == initial
      || exists k :: 0 <= k < |merged| && merged[k].value == Best(initial, merged)
  {
    if merged != [] {
      var last := |merged| - 1;
      BestIsMax(initial, merged[..last]);
      if Best(initial, merged) != initial {
        if Best(initial, merged) == merged[last].value {
        } else {
          var k :| 0 <= k < last && merged[..last][k].value == Best(initial, merged[..last]);
          assert merged[k].value == Best(initial, merged);
        }
      }
    }
  }

  lemma {:induction false} MergedAt(merged: seq<Merge>, i: int) returns (k: nat)
    requires i in MergedPieces(merged)
    ensures k < |merged| && merged[k].index == i
  {
    var last := |merged| - 1;
    if merged[last].index == i {
      k := last;
    } else {
      k := MergedAt(merged[..last], i);
    }
  }

  lemma {:induction false} LineAt(pieces: seq<seq<int>>, x: int) returns (i: nat)
    requires x in Flatten(pieces)
    ensures i < |pieces| && x in pieces[i]
  {
    if x in pieces[0] {
      i := 0;
    } else {
      var k := LineAt(pieces[1..], x);
      i := k + 1;
    }
  }

  lemma {:induction false} LinesOf(pieces: seq<seq<int>>, i: nat, x: int)
    requires i < |pieces| && x in pieces[i]
    ensures x in Flatten(pieces)
  {
    if i > 0 { LinesOf(pieces[1..], i - 1, x); }
  }

  lemma AllIndicesMerged(s: State, jid: int, i: nat) returns (k: nat)
    requires JobTheorems.Complete(s, jid) && i < s.jobs[jid].pieces
    ensures k < |s.jobs[jid].merged| && s.jobs[jid].merged[k].index == i
  {
    JobTheorems.DoneIsComplete(s, jid);
    JobTheorems.IndexOnce(s.jobs[jid].pieces, i);
    k := MergedAt(s.jobs[jid].merged, i);
  }

  /** A completed job whose file was divided into no more pieces than it has workers holds the maximum of the initial
      value and all lines, for every order of results, errors, parkings, reassignments and disconnects. */
  lemma CompletedIsMaximum(s: State, jid: int, lines: seq<int>, pieces: seq<seq<int>>)
    requires JobTheorems.Complete(s, jid)
    requires Flatten(pieces) == lines && |pieces| <= s.jobs[jid].pieces && Honest(s.jobs[jid], pieces)
    ensures IsMax(s.jobs[jid].result, [s.jobs[jid].initial] + lines)
  {
    var job := s.jobs[jid];
    JobTheorems.DoneIsComplete(s, jid);
    BestIsMax(job.initial, job.merged);
    forall x | x in lines
      ensures x <= job.result
    {
      var i := LineAt(pieces, x);
      var k := AllIndicesMerged(s, jid, i);
      assert IsMax(job.merged[k].value, pieces[i]);
    }
    if job.result != job.initial {
      var k :| 0 <= k < |job.merged| && job.merged[k].value == job.result;
      LinesOf(pieces, job.merged[k].index, job.result);
    }
  }

  // ---------------------------------------------------------------------------------------------
  // A left-over line
  // ---------------------------------------------------------------------------------------------

  lemma {:induction false} PiecesOfBoth(a: seq<int>, b: seq<int>, size: nat, n: nat)
    requires size > 0 && |a| == n * size
    ensures Pieces(a + b, size) == Pieces(a, size) + Pieces(b, size) && |Pieces(a, size)| == n
  {
    if n == 0 {
      assert a + b == b;
    } else {
      assert n * size == size + (n - 1) * size && (n - 1) * size >= 0;
      FirstPiece(a, size);
      FirstPiece(a + b, size);
      assert (a + b)[..size] == a[..size] && (a + b)[size..] == a[size..] + b;
      hide Pieces;
      PiecesOfBoth(a[size..], b, size, n - 1);
    }
  }

  /** The lines that reach a worker: all of them, or all but an unterminated one that is left over. */
  function Counted(lines: seq<int>, unterminated: bool, workers: nat): seq<int>
    requires workers > 0
  {
    var t := Newlines(lines, unterminated);
    if unterminated && t % workers == 0 then lines[..t] else lines
  }

  lemma LeftOver(lines: seq<int>, unterminated: bool, workers: nat)
    requires workers > 0 && Newlines(lines, unterminated) > 0
    ensures var size := PieceSize(Newlines(lines, unterminated), workers);
      size > 0 && Flatten(FirstPieces(lines, size, workers)) == Counted(lines, unterminated, workers)
  {
    var t := Newlines(lines, unterminated);
    var size := PieceSize(t, workers);
    EnoughWorkers(lines, unterminated, workers);
    PiecesAreTheFile(lines, size);
    if unterminated && t % workers == 0 {
      Rounding(t, workers);
      PiecesOfBoth(lines[..t], lines[t..], size, workers);
      assert lines == lines[..t] + lines[t..];
      assert Pieces(lines, size)[..workers] == Pieces(lines[..t], size);
      PiecesAreTheFile(lines[..t], size);
    }
  }

  function FirstPieces(lines: seq<int>, size: nat, n: nat): seq<seq<int>>
    requires size > 0
  {
    var pieces := Pieces(lines, size);
    if |pieces| <= n then pieces else pieces[..n]
  }

  lemma {:induction false} MergedIndex(merged: seq<Merge>, k: nat)
    requires k < |merged|
    ensures merged[k].index in MergedPieces(merged)
  {
    var last := |merged| - 1;
    if k < last { MergedIndex(merged[..last], k); }
  }

  /** What a completed job holds, for the pieces the script makes of any file: the maximum of the initial value and
      every line that reached a worker.  These are all lines exactly unless the last line has no newline and the
      number of newlines is a multiple of the number of workers. */
  lemma CompletedJob(s: State, jid: int, lines: seq<int>, unterminated: bool)
    requires JobTheorems.Complete(s, jid) && Newlines(lines, unterminated) > 0
    requires PieceSize(Newlines(lines, unterminated), s.jobs[jid].pieces) > 0
    requires Honest(s.jobs[jid], Pieces(lines, PieceSize(Newlines(lines, unterminated), s.jobs[jid].pieces)))
    ensures IsMax(s.jobs[jid].result, [s.jobs[jid].initial] + Counted(lines, unterminated, s.jobs[jid].pieces))
    ensures Counted(lines, unterminated, s.jobs[jid].pieces) == lines
      <==> !unterminated || Newlines(lines, unterminated) % s.jobs[jid].pieces != 0
  {
    var job := s.jobs[jid];
    var size := PieceSize(Newlines(lines, unterminated), job.pieces);
    LeftOver(lines, unterminated, job.pieces);
    JobTheorems.DoneIsComplete(s, jid);
    forall k | 0 <= k < |job.merged|
      ensures job.merged[k].index < job.pieces
    {
      MergedIndex(job.merged, k);
      JobTheorems.IndexOnce(job.pieces, job.merged[k].index);
    }
    CompletedIsMaximum(s, jid, Counted(lines, unterminated, job.pieces), FirstPieces(lines, size, job.pieces));
  }

  // ---------------------------------------------------------------------------------------------
  // Which jobs can complete
  // ---------------------------------------------------------------------------------------------

  /** Some run takes the job to its end with every merged value the maximum of its piece. */
  ghost predicate CanComplete(s: State, jid: int, pieces: seq<seq<int>>) {
    exists events :: Completes(s, events, jid, pieces)
  }

  ghost predicate Completes(s: State, events: seq<Event>, jid: int, pieces: seq<seq<int>>) {
    match Run(s, events)
    case None => false
    case Some(t) => jid in t.jobs && t.jobs[jid].workers == [] && Honest(t.jobs[jid], pieces)
  }

  lemma {:induction false} MaxOf(s: seq<int>) returns (m: int)
    requires s != []
    ensures IsMax(m, s)
  {
    m := s[0];
    if |s| > 1 {
      var n := MaxOf(s[1..]);
      m := Max(m, n);
      assert s == [s[0]] + s[1..];
    }
  }

  predicate OneDescriptorEach(recs: seq<Rec>) { forall i, j :: 0 <= i < j < |recs| ==> recs[i].cfd != recs[j].cfd }

  lemma {:induction false} NewestIsOnly(recs: seq<Rec>, i: nat)
    requires OneDescriptorEach(recs) && i < |recs|
    ensures Newest(recs, recs[i].cfd) == Some(recs[i])
  {
    if i > 0 { NewestIsOnly(recs[1..], i - 1); }
  }

  lemma MoreHonest(job: Job, job': Job, m: Merge, pieces: seq<seq<int>>)
    requires Honest(job, pieces) && job'.merged == job.merged + [m]
    requires 0 <= m.index < |pieces| && IsMax(m.value, pieces[m.index])
    ensures Honest(job', pieces)
  {
    hide IsMax;
  }

  lemma HeldIndex(s: State, jid: int, k: nat)
    requires Inv(s) && jid in s.jobs && s.jobs[jid].pieces > 0 && k < |s.jobs[jid].workers|
    ensures 0 <= s.jobs[jid].workers[k].index < s.jobs[jid].pieces
  {
    var job := s.jobs[jid];
    var index := job.workers[k].index;
    JobTheorems.PiecesWithout(job.workers, k);
    JobTheorems.IndexOnce(job.pieces, index);
    assert Partitioned(job, ParkedPieces(s.parked, jid));
    assert index in WorkerPieces(job.workers);
    hide WorkerPieces, ParkedPieces, MergedPieces, Indices;
    assert index in WorkerPieces(job.workers) + ParkedPieces(s.parked, jid) + MergedPieces(job.merged);
  }

  lemma WorkerCanReport(s: State, jid: int) returns (rec: Rec)
    requires WorkersInv(s) && BusyInv(s) && OneDescriptorEach(s.recs)
    requires jid in s.jobs && s.jobs[jid].workers != []
    ensures Newest(s.recs, rec.cfd) == Some(rec) && Holding(s, rec) == Some((jid, 0))
  {
    var w := s.jobs[jid].workers[0];
    assert Registered(s.recs, w.client);
    var i :| 0 <= i < |s.recs| && s.recs[i].id == w.client;
    rec := s.recs[i];
    NewestIsOnly(s.recs, i);
    assert Find(s.jobs[jid].workers, w.client) == Some(0);
  }

  lemma MergeShrinks(s: State, rec: Rec, jid: int, k: nat, value: int)
    requires Holding(s, rec) == Some((jid, k))
    ensures var t := MergeResult(s, rec, jid, k, value);
      && t.recs == s.recs && jid in t.jobs && t.jobs[jid].pieces == s.jobs[jid].pieces
      && t.jobs[jid].merged == s.jobs[jid].merged + [Merge(s.jobs[jid].workers[k].index, value)]
      && |t.parked| + |t.jobs[jid].workers| < |s.parked| + |s.jobs[jid].workers|
      && forall j :: j in t.jobs && j != jid ==> j in s.jobs && t.jobs[j] == s.jobs[j]
  {
    hide Oldest, Holding;
  }

  /** The first worker of the job reports the maximum of its piece. */
  lemma FirstReports(s: State, jid: int, pieces: seq<seq<int>>) returns (e: Event)
    requires Inv(s) && OneDescriptorEach(s.recs) && jid in s.jobs && s.jobs[jid].workers != []
    requires s.jobs[jid].pieces > 0 && Honest(s.jobs[jid], pieces) && s.jobs[jid].pieces <= |pieces|
    requires forall p :: p in pieces ==> p != []
    ensures Enabled(s, e) && var t := Step(s, e);
      && t.recs == s.recs && jid in t.jobs && t.jobs[jid].pieces == s.jobs[jid].pieces
      && Honest(t.jobs[jid], pieces)
      && |t.parked| + |t.jobs[jid].workers| < |s.parked| + |s.jobs[jid].workers|
  {
    HeldIndex(s, jid, 0);
    var index := s.jobs[jid].workers[0].index;
    assert pieces[index] in pieces;
    var value := MaxOf(pieces[index]);
    var rec := WorkerCanReport(s, jid);
    e := Result(rec.cfd, value);
    hide Inv, Holding, Newest, IsMax, OneDescriptorEach, Honest, MergeResult;
    MergeShrinks(s, rec, jid, 0, value);
    assert Step(s, e) == MergeResult(s, rec, jid, 0, value);
    MoreHonest(s.jobs[jid], Step(s, e).jobs[jid], Merge(index, value), pieces);
  }

  lemma {:induction false} Finishes(s: State, jid: int, pieces: seq<seq<int>>) returns (events: seq<Event>)
    requires Inv(s) && OneDescriptorEach(s.recs) && jid in s.jobs
    requires s.jobs[jid].pieces > 0 && Honest(s.jobs[jid], pieces) && s.jobs[jid].pieces <= |pieces|
    requires forall p :: p in pieces ==> p != []
    ensures Completes(s, events, jid, pieces)
    decreases |s.parked| + |s.jobs[jid].workers|
  {
    if s.jobs[jid].workers == [] {
      events := [];
    } else {
      hide Inv, Enabled, Step, Honest, OneDescriptorEach;
      var e := FirstReports(s, jid, pieces);
      JobTheorems.StepKeepsInv(s, e);
      var rest := Finishes(Step(s, e), jid, pieces);
      events := [e] + rest;
      assert events[1..] == rest;
    }
  }

  lemma NeedsPieces(t: State, jid: int, pieces: seq<seq<int>>)
    requires Inv(t) && jid in t.jobs && t.jobs[jid].pieces > 0 && t.jobs[jid].workers == []
    requires Honest(t.jobs[jid], pieces)
    ensures t.jobs[jid].pieces <= |pieces|
  {
    var job := t.jobs[jid];
    JobTheorems.DoneInv(t, jid);
    if |pieces| < job.pieces {
      JobTheorems.IndexOnce(job.pieces, |pieces|);
      var k := MergedAt(job.merged, |pieces|);
    }
  }

  /** With workers that report the maximum of their piece a job can complete exactly if there are at least as many
      pieces as workers.  (A worker that shares its descriptor with a newer client can never report.) */
  lemma CompletesIff(s: State, jid: int, pieces: seq<seq<int>>)
    requires Reachable(s) && jid in s.jobs && s.jobs[jid].pieces > 0 && Honest(s.jobs[jid], pieces)
    requires OneDescriptorEach(s.recs) && forall p :: p in pieces ==> p != []
    ensures CanComplete(s, jid, pieces) <==> s.jobs[jid].pieces <= |pieces|
  {
    JobTheorems.ReachableInv(s);
    hide Inv, Honest;
    if s.jobs[jid].pieces <= |pieces| {
      var events := Finishes(s, jid, pieces);
    }
    if CanComplete(s, jid, pieces) {
      var events :| Completes(s, events, jid, pieces);
      JobTheorems.RunKeepsInv(s, events);
      JobTheorems.HandedOutForever(s, events, jid);
      NeedsPieces(Run(s, events).value, jid, pieces);
    }
  }

  /** For the script's pieces: the job can complete exactly if the pieces of all workers but one do not use up the
      file. */
  lemma DividedJobCompletesIff(s: State, jid: int, lines: seq<int>, unterminated: bool)
    requires Reachable(s) && jid in s.jobs && s.jobs[jid].pieces > 0 && OneDescriptorEach(s.recs)
    requires Newlines(lines, unterminated) > 0 && PieceSize(Newlines(lines, unterminated), s.jobs[jid].pieces) > 0
    requires Honest(s.jobs[jid], Pieces(lines, PieceSize(Newlines(lines, unterminated), s.jobs[jid].pieces)))
    ensures var size := PieceSize(Newlines(lines, unterminated), s.jobs[jid].pieces);
      CanComplete(s, jid, Pieces(lines, size)) <==> (s.jobs[jid].pieces - 1) * size < |lines|
  {
    var size := PieceSize(Newlines(lines, unterminated), s.jobs[jid].pieces);
    PiecesAreTheFile(lines, size);
    EveryWorkerHasAPiece(lines, unterminated, s.jobs[jid].pieces);
    CompletesIff(s, jid, Pieces(lines, size));
  }

  /** Five lines and four workers make three pieces: such a job never completes. */
  lemma FiveLinesFourWorkers(lines: seq<int>, s: State, jid: int)
    requires |lines| == 5 && Reachable(s) && jid in s.jobs && s.jobs[jid].pieces == 4 && OneDescriptorEach(s.recs)
    requires Honest(s.jobs[jid], Pieces(lines, 2))
    ensures !CanComplete(s, jid, Pieces(lines, 2))
  {
    assert PieceSize(5, 4) == 2;
    DividedJobCompletesIff(s, jid, lines, false);
  }

  // ---------------------------------------------------------------------------------------------
  // Workers that report the maximum of the piece they were last sent
  // ---------------------------------------------------------------------------------------------

  /** A registered client has this descriptor. */
  predicate Under(recs: seq<Rec>, id: nat, cfd: int) {
    exists i :: 0 <= i < |recs| && recs[i].id == id && recs[i].cfd == cfd
  }

  /** The last piece that went out on a descriptor, as the client program at its other end sees it. */
  function LastOn(sent: seq<Task>, recs: seq<Rec>, cfd: int): Option<Task> {
    if sent == [] then None
    else if Under(recs, sent[|sent| - 1].client, cfd) then Some(sent[|sent| - 1])
    else LastOn(sent[..|sent| - 1], recs, cfd)
  }

  /** A report about a divided file is the maximum of the piece that was last sent on its descriptor. */
  ghost predicate Truthful(s: State, e: Event, files: map<int, seq<seq<int>>>) {
    e.Result? && Newest(s.recs, e.cfd).Some? ==>
      match LastOn(s.sent, s.recs, e.cfd)
      case None => true
      case Some(t) => t.jid in files ==> 0 <= t.index < |files[t.jid]| && IsMax(e.value, files[t.jid][t.index])
  }

  /** On a descriptor that one client has, the last piece is the last one that client was sent. */
  lemma {:induction false} LastOnIsLastSent(sent: seq<Task>, recs: seq<Rec>, i: nat)
    requires OneDescriptorEach(recs) && DistinctIds(recs) && i < |recs|
    ensures LastOn(sent, recs, recs[i].cfd) == LastSent(sent, recs[i].id)
  {
    if sent != [] {
      LastOnIsLastSent(sent[..|sent| - 1], recs, i);
      assert Under(recs, sent[|sent| - 1].client, recs[i].cfd) <==> sent[|sent| - 1].client == recs[i].id;
    }
  }

  /** No two registrations share a descriptor, all along a run. */
  predicate Apart(s: State, events: seq<Event>)
    decreases |events|
  {
    OneDescriptorEach(s.recs) && (events != [] && Enabled(s, events[0]) ==> Apart(Step(s, events[0]), events[1..]))
  }

  ghost predicate TruthfulRun(s: State, events: seq<Event>, files: map<int, seq<seq<int>>>)
    decreases |events|
  {
    events != [] && Enabled(s, events[0]) ==>
      Truthful(s, events[0], files) && TruthfulRun(Step(s, events[0]), events[1..], files)
  }

  ghost predicate AllHonest(s: State, files: map<int, seq<seq<int>>>) {
    forall jid :: jid in files && jid in s.jobs && s.jobs[jid].pieces > 0 ==> Honest(s.jobs[jid], files[jid])
  }

  lemma ReportIsHonest(s: State, rec: Rec, value: int, files: map<int, seq<seq<int>>>)
    requires Inv(s) && AllHonest(s, files) && Newest(s.recs, rec.cfd) == Some(rec)
    requires OneDescriptorEach(s.recs) && Truthful(s, Result(rec.cfd, value), files)
    ensures AllHonest(MergeIfHolding(s, rec, value), files)
  {
    hide MergeResult, IsMax, Honest, Holding, LastSent, LastOn, OneDescriptorEach;
    match Holding(s, rec)
    case None =>
    case Some((jid, k)) =>
      var m := Merge(s.jobs[jid].workers[k].index, value);
      MergeShrinks(s, rec, jid, k, value);
      if jid in files && s.jobs[jid].pieces > 0 {
        LastIsHeld(s, rec, jid, k);
        var i := PlaceOf(s.recs, rec.cfd);
        LastOnIsLastSent(s.sent, s.recs, i);
        MoreHonest(s.jobs[jid], MergeResult(s, rec, jid, k, value).jobs[jid], m, files[jid]);
      }
      hide Inv;
  }

  lemma {:induction false} PlaceOf(recs: seq<Rec>, cfd: int) returns (i: nat)
    requires Newest(recs, cfd).Some?
    ensures i < |recs| && recs[i] == Newest(recs, cfd).value
  {
    i := 0;
    if recs[0].cfd != cfd {
      var k := PlaceOf(recs[1..], cfd);
      i := k + 1;
    }
  }

  lemma LastIsHeld(s: State, rec: Rec, jid: int, k: nat)
    requires SentInv(s) && Holding(s, rec) == Some((jid, k)) && s.jobs[jid].pieces > 0
    ensures LastSent(s.sent, rec.id) == Some(Task(rec.id, jid, s.jobs[jid].workers[k].index))
  {
    hide LastSent, Holding;
  }

  lemma OthersKeepHonest(s: State, e: Event, files: map<int, seq<seq<int>>>)
    requires AllHonest(s, files) && Enabled(s, e) && !e.Result?
    ensures AllHonest(Step(s, e), files)
  {
    hide IsMax, Newest, Holding, Fits, Roster, Reserve, FirstFree, CanReassign, Oldest;
  }

  lemma {:induction false} TruthfulRunIsHonest(s: State, events: seq<Event>, files: map<int, seq<seq<int>>>)
    requires Inv(s) && AllHonest(s, files) && Run(s, events).Some? && TruthfulRun(s, events, files)
    requires Apart(s, events)
    ensures AllHonest(Run(s, events).value, files)
    decreases |events|
  {
    if events != [] {
      var e := events[0];
      JobTheorems.StepKeepsInv(s, e);
      if e.Result? {
        if Newest(s.recs, e.cfd).Some? {
          NewestHas(s.recs, e.cfd);
          ReportIsHonest(s, Newest(s.recs, e.cfd).value, e.value, files);
        }
      } else {
        OthersKeepHonest(s, e, files);
      }
      hide Inv, AllHonest, Truthful, OneDescriptorEach;
      TruthfulRunIsHonest(Step(s, e), events[1..], files);
    }
  }

  lemma {:induction false} NewestHas(recs: seq<Rec>, cfd: int)
    ensures Newest(recs, cfd).Some? ==> Newest(recs, cfd).value.cfd == cfd
  {
    if recs != [] { NewestHas(recs[1..], cfd); }
  }

  /** The answer of a job: in every run in which each report is the maximum of the piece last sent on its descriptor,
      and no two registrations share a descriptor, a job that has completed holds the maximum of its initial value and
      every line that reached a worker. */
  lemma AnswerIsRight(s0: State, events: seq<Event>, files: map<int, seq<seq<int>>>, jid: int, lines: seq<int>,
                      unterminated: bool)
    requires Init(s0) && Run(s0, events).Some? && TruthfulRun(s0, events, files) && Apart(s0, events)
    requires var s := Run(s0, events).value; jid in s.jobs && s.jobs[jid].pieces > 0 && s.jobs[jid].workers == []
    requires Newlines(lines, unterminated) > 0 && jid in files
    requires PieceSize(Newlines(lines, unterminated), Run(s0, events).value.jobs[jid].pieces) > 0
    requires files[jid]
      == Pieces(lines, PieceSize(Newlines(lines, unterminated), Run(s0, events).value.jobs[jid].pieces))
    ensures var job := Run(s0, events).value.jobs[jid];
      IsMax(job.result, [job.initial] + Counted(lines, unterminated, job.pieces))
  {
    JobTheorems.InitInv(s0);
    TruthfulRunIsHonest(s0, events, files);
    assert Reachable(Run(s0, events).value);
    CompletedJob(Run(s0, events).value, jid, lines, unterminated);
  }

  /** One worker, the lines 1 and 5, the last without a newline: the server's run from registration to completion. */
  lemma OneWorkerRun() returns (s: State)
    ensures JobTheorems.Complete(s, 7) && s.jobs[7] == Job(0, 1, [], 1, [Merge(0, 1)])
  {
    var s0 := State([], 0, map[], [], {}, map[], []);
    var rec := Rec(0, 3, [1]);
    var s1 := s0.(recs := [rec], nextId := 1);
    assert Step(s0, Joins(3, [1])) == s1;
    assert Roster([rec], 1) == [0];
    var s2 := StartJob(s1, 1, 7, 0, true);
    assert Reserve([0], {}) == [0];
    assert s2.jobs[7] == Job(0, 0, [Worker(0, 0)], 1, []);
    s := MergeResult(s2, rec, 7, 0, 1);
    assert Holding(s2, rec) == Some((7, 0));
    assert Step(s2, Result(3, 1)) == s;
    assert s.jobs[7] == Job(0, 1, [], 1, [Merge(0, 1)]);
    OneWorkerEvents(s0, s1, s2, s);
  }

  lemma OneWorkerEvents(s0: State, s1: State, s2: State, s3: State)
    requires Init(s0) && Enabled(s0, Joins(3, [1])) && Step(s0, Joins(3, [1])) == s1
    requires Enabled(s1, NewJob(1, 7, 0, true)) && Step(s1, NewJob(1, 7, 0, true)) == s2
    requires Enabled(s2, Result(3, 1)) && Step(s2, Result(3, 1)) == s3
    ensures Reachable(s3)
  {
    hide Step, Enabled, Init;
    assert Run(s0, []) == Some(s0);
    JobTheorems.ReachableNext(s0, Joins(3, [1]));
    JobTheorems.ReachableNext(s1, NewJob(1, 7, 0, true));
    JobTheorems.ReachableNext(s2, Result(3, 1));
  }

  /** There the line 5 is left over: the job completes with honest results, and its result is 1. */
  lemma LeftOverLineIsLost() returns (s: State)
    ensures JobTheorems.Complete(s, 7) && PieceSize(Newlines([1, 5], true), s.jobs[7].pieces) == 1
    ensures Honest(s.jobs[7], Pieces([1, 5], 1)) && !IsMax(s.jobs[7].result, [s.jobs[7].initial] + [1, 5])
  {
    s := OneWorkerRun();
    assert [1, 5][..1] == [1] && [1, 5][1..] == [5];
    assert Pieces([1, 5], 1) == [[1]] + Pieces([5], 1);
    assert 5 in [s.jobs[7].initial] + [1, 5];
  }
}
