/** How the words of an execute command get to the thread pool (server/src/server_helper.c): `sh_parse_cmd` fills a
    `submit_job_t` on its own stack, queues a job with the address of it, and returns; `submit_job` reads through that
    address on a thread of the pool, at some time.  One thread makes all calls, from one place, so the address is always
    the same. */
module Handover {
  import opened Wrappers

  /** `submit_job_t`. */
  datatype Submission = Submission(cfd: int, task: int, group: int, file: string)

  /** A call fills the place on the stack and queues a job; the call is over; the thread that has the k-th queued job
      reads the place. */
  datatype Move = Filled(s: Submission) | Left | Taken(job: nat)

  /** What is in the place while a call lasts, and what each job was meant to be when it was queued. */
  datatype Place = Place(held: Option<Submission>, meant: seq<Submission>)

  const UNUSED: Place := Place(None, [])

  predicate Can(p: Place, m: Move) {
    match m
    case Filled(_) => p.held == None
    case Left => p.held.Some?
    case Taken(job) => job < |p.meant|
  }

  function After(p: Place, m: Move): Place {
    match m
    case Filled(s) => Place(Some(s), p.meant + [s])
    case Left => p.(held := None)
    case Taken(_) => p
  }

  /** The place after some moves, if they are possible. */
  function Play(ms: seq<Move>): Option<Place> {
    if ms == [] then Some(UNUSED)
    else match Play(ms[..|ms| - 1])
      case None => None
      case Some(p) => if Can(p, ms[|ms| - 1]) then Some(After(p, ms[|ms| - 1])) else None
  }

  /** What a reader finds: when the call is over that can be anything. */
  function Found(held: Option<Submission>, junk: Submission): Submission {
    match held case Some(s) => s case None => junk
  }

  /** The reader finds these words whatever may be left on the stack. */
  ghost predicate Reads(p: Place, s: Submission) { forall junk :: Found(p.held, junk) == s }

  lemma ReadsHeld(p: Place, s: Submission)
    ensures Reads(p, s) <==> p.held == Some(s)
  {
    assert Found(None, s.(cfd := s.cfd + 1)) != s;
    if Reads(p, s) { assert Found(p.held, s.(cfd := s.cfd + 1)) == s; }
  }

  // ---------------------------------------------------------------------------------------------
  // When a job is read as it was meant
  // ---------------------------------------------------------------------------------------------

  lemma PlayMore(ms: seq<Move>, m: Move)
    ensures Play(ms + [m]) == match Play(ms)
      case None => None
      case Some(p) => if Can(p, m) then Some(After(p, m)) else None
  {
    assert (ms + [m])[..|ms|] == ms;
  }

  /** The place is neither left nor filled again. */
  predicate Untouched(ms: seq<Move>) { forall i :: 0 <= i < |ms| ==> ms[i].Taken? }

  predicate LastFill(ms: seq<Move>, i: nat, s: Submission) {
    i < |ms| && ms[i] == Filled(s) && Untouched(ms[i + 1..])
  }

  /** The last call that began was for the same words, and lasts. */
  ghost predicate Refilled(ms: seq<Move>, s: Submission) { exists i: nat :: LastFill(ms, i, s) }

  lemma {:induction false} StillHeld(ms: seq<Move>, n: nat)
    requires Play(ms).Some? && n < |ms| && ms[n].Filled? && Untouched(ms[n + 1..])
    ensures Play(ms).value.held == Some(ms[n].s)
  {
    var last := |ms| - 1;
    if n < last {
      assert ms[n + 1..][last - n - 1] == ms[last];
      assert ms[..last][n + 1..] == ms[n + 1..][..last - n - 1];
      StillHeld(ms[..last], n);
    }
  }

  lemma {:induction false} HeldSince(ms: seq<Move>) returns (n: nat)
    requires Play(ms).Some? && Play(ms).value.held.Some?
    ensures n < |ms| && ms[n] == Filled(Play(ms).value.held.value) && Untouched(ms[n + 1..])
  {
    var last := |ms| - 1;
    n := last;
    if ms[last].Taken? {
      n := HeldSince(ms[..last]);
      assert ms[n + 1..] == ms[..last][n + 1..] + [ms[last]];
    }
  }

  /** The number of the job that the call of the n-th move queues. */
  function JobOf(ms: seq<Move>, n: nat): nat
    requires n <= |ms| && Play(ms[..n]).Some?
  {
    |Play(ms[..n]).value.meant|
  }

  /** The job that a call queued keeps its number and its meaning. */
  lemma {:induction false} QueuedAs(ms: seq<Move>, n: nat)
    requires Play(ms).Some? && n < |ms| && ms[n].Filled?
    ensures Play(ms[..n]).Some? && JobOf(ms, n) < |Play(ms).value.meant|
    ensures Play(ms).value.meant[JobOf(ms, n)] == ms[n].s
  {
    var last := |ms| - 1;
    if n < last {
      QueuedAs(ms[..last], n);
      assert ms[..last][..n] == ms[..n];
    }
  }

  /** After any moves, a job is read as it was meant exactly if its place was neither left nor filled again since it
      was queued, or was last filled with the same words by a call that still lasts. */
  lemma ReadsBackIff(ms: seq<Move>, n: nat)
    requires Play(ms).Some? && n < |ms| && ms[n].Filled?
    ensures Play(ms[..n]).Some? && JobOf(ms, n) < |Play(ms).value.meant|
    ensures Reads(Play(ms).value, Play(ms).value.meant[JobOf(ms, n)])
      <==> Untouched(ms[n + 1..]) || Refilled(ms[n + 1..], ms[n].s)
  {
    hide Play, Reads;
    QueuedAs(ms, n);
    var p, s := Play(ms).value, ms[n].s;
    ReadsHeld(p, s);
    if Untouched(ms[n + 1..]) { StillHeld(ms, n); }
    var rest := ms[n + 1..];
    if i: nat :| LastFill(rest, i, s) {
      assert rest[i + 1..] == ms[n + 1 + i + 1..];
      StillHeld(ms, n + 1 + i);
    }
    if p.held == Some(s) {
      var m := HeldSince(ms);
      if m < n { assert ms[m + 1..][n - m - 1] == ms[n]; }
      if m > n {
        assert rest[m - n - 1] == ms[m] && rest[m - n - 1 + 1..] == ms[m + 1..];
        assert LastFill(rest, m - n - 1, s);
      }
    }
  }

  // ---------------------------------------------------------------------------------------------
  // The server's thread
  // ---------------------------------------------------------------------------------------------

  /** What the server's thread does to the place for the execute commands of a message. */
  function Calls(subs: seq<Submission>): seq<Move> {
    if subs == [] then [] else [Filled(subs[0]), Left] + Calls(subs[1..])
  }

  function ServerMoves(ms: seq<Move>): seq<Move> {
    if ms == [] then []
    else if ms[|ms| - 1].Taken? then ServerMoves(ms[..|ms| - 1])
    else ServerMoves(ms[..|ms| - 1]) + [ms[|ms| - 1]]
  }

  lemma More(ms: seq<Move>, m: Move)
    ensures ServerMoves(ms + [m]) == if m.Taken? then ServerMoves(ms) else ServerMoves(ms) + [m]
    ensures Play(ms + [m]) == match Play(ms)
      case None => None
      case Some(p) => if Can(p, m) then Some(After(p, m)) else None
  {
    PlayMore(ms, m);
    assert (ms + [m])[..|ms|] == ms;
  }

  lemma Nothing()
    ensures Play([]) == Some(UNUSED) && ServerMoves([]) == []
  {
  }

  lemma {:induction false} CallsAt(subs: seq<Submission>, i: nat)
    ensures |Calls(subs)| == 2 * |subs|
    ensures i < |Calls(subs)| ==> Calls(subs)[i] == if i % 2 == 0 then Filled(subs[i / 2]) else Left
  {
    if subs != [] {
      var rest := subs[1..];
      assert Calls(subs) == [Filled(subs[0]), Left] + Calls(rest);
      hide Calls;
      if i < 2 {
        CallsAt(rest, 0);
      } else {
        CallsAt(rest, i - 2);
        assert (i - 2) / 2 == i / 2 - 1 && (i - 2) % 2 == i % 2;
      }
    }
  }

  /** The place, whatever reads come in between, after the first n moves of the server's thread. */
  lemma {:induction false} DuringCalls(subs: seq<Submission>, n: nat, ms: seq<Move>)
    requires n <= |Calls(subs)| && ServerMoves(ms) == Calls(subs)[..n] && Play(ms).Some?
    ensures |Calls(subs)| == 2 * |subs|
    ensures Play(ms) == Some(Place(if n % 2 == 1 then Some(subs[n / 2]) else None, subs[..(n + 1) / 2]))
  {
    CallsAt(subs, 0);
    if ms != [] {
      var last := |ms| - 1;
      var front, m := ms[..last], ms[last];
      assert ms == front + [m];
      More(front, m);
      hide Play, ServerMoves, Calls;
      if m.Taken? {
        DuringCalls(subs, n, front);
      } else {
        OneCallMore(subs, n, ServerMoves(front), m);
        DuringCalls(subs, n - 1, front);
        Grows(subs, n);
      }
    }
  }

  lemma OneCallMore(subs: seq<Submission>, n: nat, before: seq<Move>, m: Move)
    requires n <= |Calls(subs)| && before + [m] == Calls(subs)[..n]
    ensures n > 0 && before == Calls(subs)[..n - 1] && (n - 1) / 2 < |subs|
    ensures m == if n % 2 == 1 then Filled(subs[(n - 1) / 2]) else Left
  {
    CallsAt(subs, n - 1);
    hide Calls;
    assert (before + [m])[n - 1] == m && (before + [m])[..n - 1] == before;
  }

  lemma Grows(subs: seq<Submission>, n: nat)
    requires 0 < n <= 2 * |subs|
    ensures n % 2 == 1 ==> n / 2 == (n - 1) / 2 && subs[..(n - 1 + 1) / 2] + [subs[n / 2]] == subs[..(n + 1) / 2]
    ensures n % 2 == 0 ==> (n - 1 + 1) / 2 == (n + 1) / 2
  {
  }

  /** So in every interleaving the k-th command of a server's run is read as it was typed exactly while the server is
      still inside the call for it, or for one with the same words. */
  lemma ReadsBackInCall(subs: seq<Submission>, n: nat, ms: seq<Move>, k: nat)
    requires n <= |Calls(subs)| && ServerMoves(ms) == Calls(subs)[..n] && Play(ms).Some? && k < (n + 1) / 2
    ensures |Calls(subs)| == 2 * |subs|
    ensures Reads(Play(ms).value, subs[k]) <==> n % 2 == 1 && subs[n / 2] == subs[k]
  {
    DuringCalls(subs, n, ms);
    ReadsHeld(Play(ms).value, subs[k]);
    hide Play, Calls, Reads;
  }

  // ---------------------------------------------------------------------------------------------
  // The place itself
  // ---------------------------------------------------------------------------------------------

  class Slot {
    var held: Option<Submission>
    ghost var moves: seq<Move>

    ghost predicate Valid()
      reads this
    {
      Play(moves).Some? && Play(moves).value.held == held
    }

    constructor ()
      ensures Valid() && held == None && moves == []
    {
      held, moves := None, [];
    }

    method Fill(s: Submission)
      requires Valid() && held == None
      modifies this
      ensures Valid() && held == Some(s) && moves == old(moves) + [Filled(s)]
    {
      PlayMore(moves, Filled(s));
      held, moves := Some(s), moves + [Filled(s)];
    }

    method Leave()
      requires Valid() && held.Some?
      modifies this
      ensures Valid() && held == None && moves == old(moves) + [Left]
    {
      PlayMore(moves, Left);
      held, moves := None, moves + [Left];
    }

    /** The thread of the k-th job reads; `junk` is what the stack has there when no call lasts. */
    method Take(ghost k: nat, junk: Submission) returns (s: Submission)
      requires Valid() && k < |Play(moves).value.meant|
      modifies `moves
      ensures Valid() && s == Found(held, junk) && moves == old(moves) + [Taken(k)]
    {
      PlayMore(moves, Taken(k));
      s := match held case Some(x) => x case None => junk;
      moves := moves + [Taken(k)];
    }
  }
}
