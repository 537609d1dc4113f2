/** How server/src/server_helper.c sends a listing: formatted lines are gathered in a buffer that is sent off before it
    would overflow, each time as one frame. */
module Listing {
  import opened Tlv
  import Commands

  const ONE_KB: nat := 1024

  /** The room a frame leaves for one attribute's value: 4 bytes of header and 4 of type and length are used. */
  const MAX_VALUE: nat := BUFFER_SIZE - 8

  // ---------------------------------------------------------------------------------------------
  // Sending one text
  // ---------------------------------------------------------------------------------------------

  function Bytes(text: string): seq<Byte> { seq(|text|, i requires 0 <= i < |text| => text[i] as int % 256) }

  /** Nothing for an empty text, one frame, or an encoder that writes past its payload. */
  datatype Sending = Nothing | Sent(frame: seq<Byte>) | PastPayload

  function Encoded(kind: nat, text: string): seq<Byte> { Frame([Data(kind, Bytes(text))]) }

  function SendingOf(kind: nat, text: string): Sending {
    if text == "" then Nothing
    else if |text| <= MAX_VALUE then Sent(Encoded(kind, text))
    else PastPayload
  }

  /** `sh_send_encoded_data`: one attribute in a fresh payload of 1024 bytes. */
  method SendEncodedData(kind: nat, text: string) returns (r: Sending)
    requires kind in DATA_KINDS && |text| < MAX_DATA
    ensures r == SendingOf(kind, text)
  {
    if text == "" {
      return Nothing;
    }
    var buf := new Buffer();
    if 4 + |text| > buf.Room() {
      return PastPayload;
    }
    hide Frame;
    var data := Bytes(text);
    assert data[..|text|] == data;
    var encodedLen := buf.EncodeData(kind, data, |text|);
    assert buf.attrs == [Data(kind, data)];
    r := Sent(buf.payload[..encodedLen]);
  }

  /** What a receiver with a buffer of 1024 bytes is handed of a frame. */
  function Arriving(frame: seq<Byte>): Outcome { Parsed(if |frame| <= ONE_KB then frame else frame[..ONE_KB]) }

  lemma EncodedLength(kind: nat, text: string)
    ensures |Encoded(kind, text)| == |text| + 8
  {
    var attrs := [Data(kind, Bytes(text))];
    assert Wires(attrs[..0]) == [] && Wires(attrs) == Wire(attrs[0]);
    hide Head;
  }

  lemma HeaderOfPrefix(attrs: seq<Attr>, n: nat)
    requires Tlv.Sendable(attrs) && 4 <= n <= |Frame(attrs)|
    ensures HeaderAt(Frame(attrs)[..n], 0) == |Frame(attrs)|
  {
    FrameLayout(attrs, []);
    assert Frame(attrs) + [] == Frame(attrs);
    assert forall i :: 0 <= i < 4 ==> Frame(attrs)[..n][i] == Frame(attrs)[i];
  }

  /** A text arrives exactly if it has at most 1016 characters; the frame of a longer one is taken for a fragment. */
  lemma ArrivesIff(kind: nat, text: string)
    requires kind in DATA_KINDS && 0 < |text| < 1024
    ensures Arriving(Encoded(kind, text)) == Delivered([Received(kind, Bytes(text), [])]) <==> |text| <= 1016
    ensures |text| > 1016 ==> Arriving(Encoded(kind, text)) == Fragment
  {
    var attrs := [Data(kind, Bytes(text))];
    EncodedLength(kind, text);
    assert Tlv.Sendable(attrs);
    if |text| <= MAX_VALUE {
      OneFrame(attrs);
      RoundTrip([attrs]);
      assert ExpectedAll(attrs) == [Received(kind, Bytes(text), [])];
    } else {
      HeaderOfPrefix(attrs, ONE_KB);
    }
  }

  // ---------------------------------------------------------------------------------------------
  // Sending many lines
  // ---------------------------------------------------------------------------------------------

  function Flatten(texts: seq<string>): string {
    if texts == [] then "" else texts[0] + Flatten(texts[1..])
  }

  function Unless(text: string): seq<string> { if text == "" then [] else [text] }

  /** The texts that are sent, for lines still to come and what is in the buffer. */
  function Chunks(lines: seq<string>, dest: string): seq<string>
    decreases |lines|
  {
    if lines == [] then Unless(dest)
    else if |dest| + |lines[0]| + 1 >= ONE_KB then Unless(dest) + Chunks(lines[1..], lines[0])
    else Chunks(lines[1..], dest + lines[0])
  }

  lemma FlattenUnless(text: string, rest: seq<string>)
    ensures Flatten(Unless(text) + rest) == text + Flatten(rest)
  {
    if text == "" {
      assert Unless(text) + rest == rest;
    } else {
      assert (Unless(text) + rest)[1..] == rest;
    }
  }

  /** Nothing is lost, added or moved by the batching, and no chunk is empty or longer than the buffer. */
  lemma {:induction false} ChunksAreTheLines(lines: seq<string>, dest: string)
    requires |dest| + 1 < ONE_KB && forall i :: 0 <= i < |lines| ==> |lines[i]| + 1 < ONE_KB
    ensures Flatten(Chunks(lines, dest)) == dest + Flatten(lines)
    ensures forall c :: c in Chunks(lines, dest) ==> 0 < |c| < ONE_KB - 1
    decreases |lines|
  {
    if lines == [] {
      FlattenUnless(dest, []);
      assert Unless(dest) + [] == Unless(dest);
    } else if |dest| + |lines[0]| + 1 >= ONE_KB {
      ChunksAreTheLines(lines[1..], lines[0]);
      FlattenUnless(dest, Chunks(lines[1..], lines[0]));
    } else {
      ChunksAreTheLines(lines[1..], dest + lines[0]);
      assert (dest + lines[0]) + Flatten(lines[1..]) == dest + (lines[0] + Flatten(lines[1..]));
    }
  }

  function Sendings(kind: nat, chunks: seq<string>): seq<Sending> {
    seq(|chunks|, i requires 0 <= i < |chunks| => SendingOf(kind, chunks[i]))
  }

  /** `storage_buffer` with the offset tc, and what was sent. */
  class Batch {
    const kind: nat
    var dest: string
    var sent: seq<Sending>

    ghost predicate Valid()
      reads this
    {
      kind in DATA_KINDS && |dest| + 1 < ONE_KB
    }

    constructor (kind: nat)
      requires kind in DATA_KINDS
      ensures Valid() && this.kind == kind && dest == "" && sent == []
    {
      this.kind, dest, sent := kind, "", [];
    }

    method Send()
      requires Valid()
      modifies this
      ensures Valid() && dest == "" && sent == old(sent) + Sendings(kind, Unless(old(dest)))
    {
      var r := SendEncodedData(kind, dest);
      if r != Nothing {
        sent := sent + [r];
      }
      dest := "";
    }

    /** `sh_try_to_send_data`, for a line that fits an empty buffer. */
    method TryToSend(src: string)
      requires Valid() && |src| + 1 < ONE_KB
      modifies this
      ensures Valid()
      ensures if |old(dest)| + |src| + 1 >= ONE_KB
        then dest == src && sent == old(sent) + Sendings(kind, Unless(old(dest)))
        else dest == old(dest) + src && sent == old(sent)
    {
      if |dest| + |src| + 1 >= ONE_KB {
        Send();
        assert dest + src == src;
      }
      dest := dest + src;
    }
  }

  lemma SendingsAppend(kind: nat, a: seq<string>, b: seq<string>)
    ensures Sendings(kind, a + b) == Sendings(kind, a) + Sendings(kind, b)
  {
    hide SendingOf;
  }

  /** A whole listing: each chunk of its lines is sent as one frame, in order. */
  method SendListing(kind: nat, lines: seq<string>) returns (sent: seq<Sending>)
    requires kind in DATA_KINDS && forall l :: l in lines ==> |l| + 1 < ONE_KB
    ensures sent == Sendings(kind, Chunks(lines, ""))
  {
    hide SendingOf, Sendings, Unless;
    var batch := new Batch(kind);
    NoSendings(kind, Chunks(lines, ""));
    assert lines[0..] == lines;
    for i := 0 to |lines|
      invariant batch.Valid() && fresh(batch) && batch.kind == kind
      invariant batch.sent + Sendings(kind, Chunks(lines[i..], batch.dest)) == Sendings(kind, Chunks(lines, ""))
    {
      ghost var sent, dest := batch.sent, batch.dest;
      assert lines[i..][0] == lines[i] && lines[i..][1..] == lines[i + 1..];
      SendingsAppend(kind, Unless(dest), Chunks(lines[i + 1..], lines[i]));
      batch.TryToSend(lines[i]);
    }
    batch.Send();
    assert lines[|lines|..] == [];
    sent := batch.sent;
  }

  lemma NoSendings(kind: nat, chunks: seq<string>)
    ensures [] + Sendings(kind, chunks) == Sendings(kind, chunks)
  {
  }

  // ---------------------------------------------------------------------------------------------
  // Which listings arrive
  // ---------------------------------------------------------------------------------------------

  /** Every chunk reaches a receiver as it was sent. */
  ghost predicate AllArrive(kind: nat, lines: seq<string>) {
    forall c :: c in Chunks(lines, "") ==>
      && SendingOf(kind, c) == Sent(Encoded(kind, c))
      && Arriving(Encoded(kind, c)) == Delivered([Received(kind, Bytes(c), [])])
  }

  predicate Short(chunks: seq<string>) { forall c :: c in chunks ==> |c| <= 1016 }

  /** A listing of which each frame is received on its own arrives exactly if no chunk is longer than 1016 characters;
      then what arrives, in order, is exactly its lines. */
  lemma ListingArrivesIff(kind: nat, lines: seq<string>)
    requires kind in DATA_KINDS && forall i :: 0 <= i < |lines| ==> |lines[i]| + 1 < ONE_KB
    ensures AllArrive(kind, lines) <==> Short(Chunks(lines, ""))
    ensures Flatten(Chunks(lines, "")) == Flatten(lines)
  {
    ChunksAreTheLines(lines, "");
    assert "" + Flatten(lines) == Flatten(lines);
    hide Arriving, Encoded;
    forall c | c in Chunks(lines, "")
      ensures Arriving(Encoded(kind, c)) == Delivered([Received(kind, Bytes(c), [])]) <==> |c| <= MAX_VALUE
    {
      ArrivesIff(kind, c);
    }
  }

  /** A whole reply: the chunks and the farewell, one attribute each. */
  function Reply(kind: nat, chunks: seq<string>): seq<Attr> {
    if chunks == [] then [Goodbye] else [Data(kind, Bytes(chunks[0]))] + Reply(kind, chunks[1..])
  }

  lemma {:induction false} ReplySendable(kind: nat, chunks: seq<string>)
    requires kind in DATA_KINDS && forall c :: c in chunks ==> |c| < ONE_KB
    ensures Reply(kind, chunks) != [] && forall a :: a in Reply(kind, chunks) ==> Sendable([a])
  {
    if chunks == [] {
      GoodbyeSendable();
    } else {
      assert chunks[0] in chunks;
      TextSendable(kind, chunks[0]);
      ReplySendable(kind, chunks[1..]);
    }
  }

  lemma GoodbyeSendable()
    ensures Sendable([Goodbye]) && |Frame([Goodbye])| == 15
  {
    OneWire(Goodbye);
  }

  lemma TextSendable(kind: nat, text: string)
    requires kind in DATA_KINDS && |text| < ONE_KB
    ensures Sendable([Data(kind, Bytes(text))]) && |Frame([Data(kind, Bytes(text))])| == |text| + 8
  {
    OneWire(Data(kind, Bytes(text)));
  }

  lemma {:induction false} ReplyLength(kind: nat, chunks: seq<string>)
    requires kind in DATA_KINDS && forall c :: c in chunks ==> |c| < ONE_KB
    ensures |Stream(Frames(Reply(kind, chunks)))| == |Flatten(chunks)| + 8 * |chunks| + 15
  {
    var attrs := Reply(kind, chunks);
    hide Stream, Frames, Frame;
    FramesCons(attrs);
    if chunks == [] {
      GoodbyeSendable();
      assert attrs == [Goodbye] && attrs[1..] == [];
      NoFrames();
    } else {
      assert attrs[1..] == Reply(kind, chunks[1..]);
      assert chunks[0] in chunks;
      TextSendable(kind, chunks[0]);
      ReplyLength(kind, chunks[1..]);
    }
  }

  lemma NoFrames()
    ensures Stream(Frames([])) == []
  {
    assert Frames([]) == [];
  }

  /** A reply that comes in one receive arrives exactly if all of its bytes are among the 1024 of that receive: the
      characters of the lines, 8 more for each chunk and 15 for the farewell. */
  lemma ReplyTogetherIff(kind: nat, lines: seq<string>)
    requires kind in DATA_KINDS && forall i :: 0 <= i < |lines| ==> |lines[i]| + 1 < ONE_KB
    ensures var attrs := Reply(kind, Chunks(lines, ""));
      Arriving(Stream(Frames(attrs))) == Delivered(AllExpected(Frames(attrs)))
      <==> |Flatten(lines)| + 8 * |Chunks(lines, "")| + 15 <= 1024
  {
    var chunks := Chunks(lines, "");
    ChunksAreTheLines(lines, "");
    assert "" + Flatten(lines) == Flatten(lines);
    ReplySendable(kind, chunks);
    ReplyLength(kind, chunks);
    CutIff(Reply(kind, chunks), ONE_KB);
  }

  predicate Uniform(lines: seq<string>, length: nat) { forall i :: 0 <= i < |lines| ==> |lines[i]| == length }

  lemma Monotone(a: int, b: int, length: nat)
    requires a <= b
    ensures a * length <= b * length
  {
    assert (b - a) * length >= 0;
  }

  /** The longest chunk of n lines of one length, when `full` of them fit the buffer. */
  function Longest(n: nat, length: nat, full: nat): nat { if n >= full then full * length else n * length }

  lemma ShortCons(dest: string, rest: seq<string>)
    ensures Short([dest] + rest) <==> |dest| <= MAX_VALUE && Short(rest)
  {
    assert dest in [dest] + rest && forall c :: c in rest ==> c in [dest] + rest;
    assert forall c :: c in [dest] + rest ==> c == dest || c in rest;
  }

  lemma ShortUnless(dest: string)
    ensures Short(Unless(dest)) <==> |dest| <= MAX_VALUE
  {
    if dest != "" { ShortCons(dest, []); }
  }

  /** Lines of one length, when the buffer holds k of them already: as many as fit go together. */
  lemma {:induction false} UniformChunks(lines: seq<string>, dest: string, length: nat, k: nat, full: nat)
    requires 0 < length && Uniform(lines, length) && |dest| == k * length && 0 < full
    requires k <= full && full * length + 1 < ONE_KB <= full * length + length + 1
    ensures Short(Chunks(lines, dest)) <==> Longest(k + |lines|, length, full) <= MAX_VALUE
    decreases |lines|
  {
    hide Short;
    if lines == [] {
      ShortUnless(dest);
    } else if k == full {
      assert Unless(dest) == [dest] by { Monotone(1, full, length); }
      ShortCons(dest, Chunks(lines[1..], lines[0]));
      UniformChunks(lines[1..], lines[0], length, 1, full);
      if |lines| < full { Monotone(|lines|, full, length); }
    } else {
      Monotone(k + 1, full, length);
      assert (k + 1) * length == k * length + length;
      UniformChunks(lines[1..], dest + lines[0], length, k + 1, full);
    }
  }

  /** A listing whose lines have one length arrives exactly if it is short as a whole, or full chunks of such lines
      stay 6 characters below the buffer's limit. */
  lemma UniformListingArrivesIff(kind: nat, lines: seq<string>, length: nat)
    requires kind in DATA_KINDS && 0 < length < 1023 && Uniform(lines, length)
    ensures AllArrive(kind, lines) <==> |lines| * length <= 1016 || 1022 % length >= 6
  {
    var full := 1022 / length;
    FullLength(length);
    ListingArrivesIff(kind, lines);
    hide AllArrive, Short, Chunks;
    UniformChunks(lines, "", length, 0, full);
    if |lines| >= full { Monotone(full, |lines|, length); } else { Monotone(|lines|, full, length); }
  }

  lemma FullLength(length: nat)
    requires 0 < length < ONE_KB - 1
    ensures 1022 / length > 0 && 1022 / length * length == 1022 - 1022 % length
  {
    var full := 1022 / length;
    assert 1022 == length * full + 1022 % length;
  }

  /** A line of `show multicast groups`. */
  function GroupLine(gid: nat, cfd: nat): string {
    "\ngid " + Commands.Decimal(gid) + " : " + Commands.Decimal(cfd) + " "
  }

  function GroupLines(gid: nat, cfds: seq<nat>): seq<string> {
    seq(|cfds|, i requires 0 <= i < |cfds| => GroupLine(gid, cfds[i]))
  }

  lemma GroupLineLength(gid: nat, cfd: nat)
    requires gid < 10 && 1000 <= cfd < 10000
    ensures |GroupLine(gid, cfd)| == 14
  {
    assert |Commands.Digits(cfd / 1000)| == 1;
    assert cfd / 100 / 10 == cfd / 1000 && |Commands.Digits(cfd / 100)| == 2;
    assert cfd / 10 / 10 == cfd / 100 && |Commands.Digits(cfd / 10)| == 3;
    assert |Commands.Digits(cfd)| == 4;
  }

  /** The listing of a group with a one-digit id and 73 or more members whose descriptors have four digits does not
      arrive: its chunks have 1022 characters. */
  lemma FullGroupIsLost(gid: nat, cfds: seq<nat>)
    requires gid < 10 && |cfds| >= 73 && forall i :: 0 <= i < |cfds| ==> 1000 <= cfds[i] < 10000
    ensures !AllArrive(CLI_DATA, GroupLines(gid, cfds))
  {
    forall i | 0 <= i < |cfds|
      ensures |GroupLines(gid, cfds)[i]| == 14
    {
      GroupLineLength(gid, cfds[i]);
    }
    UniformListingArrivesIff(CLI_DATA, GroupLines(gid, cfds), 14);
  }
}
