/** The wire format of common/src/tlv.c: frames of type-length-value attributes, and the loop that takes a received
    buffer apart (server/src/server.c, client/src/cli_commands.c). */
module Tlv {
  import opened Wrappers

  type Byte = b: int | 0 <= b < 256

  const BUFFER_SIZE: nat := 1024
  const MAX_DATA: nat := 1024
  const MAX_GROUPS: nat := 255

  // Attribute types
  const JOIN_GROUP: nat := 1
  const GOOD_BYE: nat := 2
  const STRING_DATA: nat := 3
  const CLI_DATA: nat := 5
  const ALGO_ERROR: nat := 100
  const ALGO_SORT: nat := 101
  const ALGO_MAX: nat := 102

  // ---------------------------------------------------------------------------------------------
  // Words
  // ---------------------------------------------------------------------------------------------

  /** The low 16 bits in network order, as `htons` stores them. */
  function Be16(v: int): (bs: seq<Byte>)
    ensures |bs| == 2
  {
    [v / 256 % 256, v % 256]
  }

  function FromBe16(hi: Byte, lo: Byte): (v: nat)
    ensures v < 0x1_0000
  {
    hi * 256 + lo
  }

  function Be32(v: int): (bs: seq<Byte>)
    ensures |bs| == 4
  {
    [v / 256 / 256 / 256 % 256, v / 256 / 256 % 256, v / 256 % 256, v % 256]
  }

  /** A word in network order, read into an int. */
  function FromBe32(b0: Byte, b1: Byte, b2: Byte, b3: Byte): int {
    var v := ((b0 * 256 + b1) * 256 + b2) * 256 + b3;
    if v < 0x8000_0000 then v else v - 0x1_0000_0000
  }

  lemma Word16(v: int)
    ensures FromBe16(Be16(v)[0], Be16(v)[1]) == v % 0x1_0000
  {
  }

  lemma Word32(v: int)
    requires 0 <= v < 0x8000_0000
    ensures FromBe32(Be32(v)[0], Be32(v)[1], Be32(v)[2], Be32(v)[3]) == v
  {
    var a := v / 256;
    var b := a / 256;
    var c := b / 256;
    assert v == 256 * a + v % 256 && a == 256 * b + a % 256 && b == 256 * c + b % 256;
    assert 0 <= c < 128 && c % 256 == c;
  }

  // ---------------------------------------------------------------------------------------------
  // Attributes and frames
  // ---------------------------------------------------------------------------------------------

  /** What is encoded: bytes under a type, the groups to join, the word goodbye, or an error word, repeated. */
  datatype Attr =
    | Data(kind: nat, value: seq<Byte>)
    | Groups(gids: seq<nat>)
    | Goodbye
    | Failure(word: int, times: int)

  /** A group id as `*(uint32_t *) p = htons(g)` leaves it in memory on a little-endian machine. */
  function GroupWord(g: int): (bs: seq<Byte>)
    ensures |bs| == 4
  {
    Be16(g) + [0, 0]
  }

  function GroupWords(gids: seq<nat>): (bs: seq<Byte>)
    ensures |bs| == 4 * |gids|
  {
    if gids == [] then [] else GroupWords(gids[..|gids| - 1]) + GroupWord(gids[|gids| - 1])
  }

  function Repeated(word: int, times: nat): (bs: seq<Byte>)
    ensures |bs| == 4 * times
  {
    if times == 0 then [] else Repeated(word, times - 1) + Be32(word)
  }

  /** "goodbye" */
  const GOODBYE: seq<Byte> := [103, 111, 111, 100, 98, 121, 101]

  function Kind(a: Attr): nat {
    match a
    case Data(kind, _) => kind
    case Groups(_) => JOIN_GROUP
    case Goodbye => GOOD_BYE
    case Failure(_, _) => ALGO_ERROR
  }

  function Payload(a: Attr): seq<Byte> {
    match a
    case Data(_, value) => value
    case Groups(gids) => GroupWords(gids)
    case Goodbye => GOODBYE
    case Failure(word, times) => Repeated(word, if times < 0 then 0 else times)
  }

  /** The length that is written: an error takes it from its count, even where that is negative. */
  function LengthField(a: Attr): int {
    match a
    case Failure(_, times) => 4 * times
    case _ => |Payload(a)|
  }

  function Wire(a: Attr): (bs: seq<Byte>)
    ensures |bs| == 4 + |Payload(a)|
  {
    Head(Kind(a), LengthField(a)) + Payload(a)
  }

  function Head(kind: int, len: int): (bs: seq<Byte>)
    ensures |bs| == 4
  {
    Be16(kind) + Be16(len)
  }

  lemma WireAfter(was: seq<Byte>, a: Attr)
    ensures (was + Head(Kind(a), LengthField(a))) + Payload(a) == was + Wire(a)
  {
    hide Head, Payload, Kind, LengthField;
  }

  function Wires(attrs: seq<Attr>): seq<Byte> {
    if attrs == [] then [] else Wires(attrs[..|attrs| - 1]) + Wire(attrs[|attrs| - 1])
  }

  function Frame(attrs: seq<Attr>): (bs: seq<Byte>)
    ensures |bs| == 4 + |Wires(attrs)|
  {
    Be32(4 + |Wires(attrs)|) + Wires(attrs)
  }

  // ---------------------------------------------------------------------------------------------
  // Encoding into a buffer
  // ---------------------------------------------------------------------------------------------

  lemma FrameEnds(attrs: seq<Attr>)
    requires attrs != []
    ensures var f, w := Frame(attrs), Wire(attrs[|attrs| - 1]);
      4 + |w| <= |f| && f[..4] == Be32(|f|) && f[|f| - |w|..] == w
  {
    hide Wire, Be32;
    var w := Wire(attrs[|attrs| - 1]);
    assert Frame(attrs) == (Be32(4 + |Wires(attrs)|) + Wires(attrs[..|attrs| - 1])) + w;
  }

  lemma SmallHeader(n: nat)
    requires n < 65536
    ensures var h := Be32(n); h[0] == h[1] == 0 && 256 * At(h, 2) + At(h, 3) == n
  {
    assert n / 256 / 256 == 0 && n / 256 / 256 / 256 == 0;
  }

  class Buffer {
    var length: int
    const payload: array<Byte>
    ghost var attrs: seq<Attr>  // what was encoded so far

    /** The bytes used so far are the frame of what was encoded; before that, at most room for the header is used. */
    ghost predicate Valid()
      reads this, payload
    {
      && payload.Length == BUFFER_SIZE
      && if attrs == [] then length in {0, 4}
         else 4 <= length <= payload.Length && payload[..length] == Frame(attrs)
    }

    constructor ()
      ensures Valid() && attrs == [] && fresh(payload)
    {
      length, payload, attrs := 0, new Byte[BUFFER_SIZE], [];
    }

    function Room(): int
      reads this
    {
      payload.Length - (if length == 0 then 4 else length)
    }

    /** The bytes of an encoded attribute follow those already there. */
    ghost predicate Body(body: seq<Byte>)
      reads this, payload
    {
      4 <= length <= payload.Length && payload[4..length] == body
    }

    lemma Opened()
      requires Valid() && length >= 4
      ensures Body(Wires(attrs))
    {
      if attrs != [] {
        assert payload[4..length] == payload[..length][4..];
      }
    }

    method PutByte(b: Byte, ghost body: seq<Byte>)
      requires Body(body) && length < payload.Length
      modifies this`length, payload
      ensures Body(body + [b]) && length == old(length) + 1
    {
      payload[length] := b;
      length := length + 1;
    }

    method PutWord16(v: int, ghost body: seq<Byte>)
      requires Body(body) && length + 2 <= payload.Length
      modifies this`length, payload
      ensures Body(body + Be16(v)) && length == old(length) + 2
    {
      hide Be16;
      var w := Be16(v);
      PutByte(w[0], body);
      PutByte(w[1], body + [w[0]]);
      assert body + [w[0]] + [w[1]] == body + w;
    }

    method PutWord32(v: int, ghost body: seq<Byte>)
      requires Body(body) && length + 4 <= payload.Length
      modifies this`length, payload
      ensures Body(body + Be32(v)) && length == old(length) + 4
    {
      hide Be32;
      var w := Be32(v);
      PutByte(w[0], body);
      PutByte(w[1], body + [w[0]]);
      PutByte(w[2], body + [w[0]] + [w[1]]);
      PutByte(w[3], body + [w[0]] + [w[1]] + [w[2]]);
      assert body + [w[0]] + [w[1]] + [w[2]] + [w[3]] == body + w;
    }

    /** The type and the length of an attribute. */
    method PutHead(kind: int, len: int, ghost body: seq<Byte>)
      requires Body(body) && length + 4 <= payload.Length
      modifies this`length, payload
      ensures Body(body + Head(kind, len)) && length == old(length) + 4
    {
      hide Be16;
      PutWord16(kind, body);
      PutWord16(len, body + Be16(kind));
      assert body + Be16(kind) + Be16(len) == body + Head(kind, len);
    }

    method PutBytes(data: seq<Byte>, ghost body: seq<Byte>)
      requires Body(body) && length + |data| <= payload.Length
      modifies this`length, payload
      ensures Body(body + data) && length == old(length) + |data|
    {
      var i := 0;
      assert body + data[..0] == body;
      while i < |data|
        invariant i <= |data| && length == old(length) + i && Body(body + data[..i])
      {
        PutByte(data[i], body + data[..i]);
        assert body + data[..i] + [data[i]] == body + data[..i + 1];
        i := i + 1;
      }
      assert data[..i] == data;
    }

    /** The header is rewritten after every attribute. */
    method PutHeader(ghost a: Attr)
      requires Body(Wires(attrs) + Wire(a)) && payload.Length == BUFFER_SIZE
      modifies this`attrs, payload
      ensures Valid() && attrs == old(attrs) + [a]
    {
      hide Be32, Wires, Wire;
      var h := Be32(length);
      payload[0], payload[1], payload[2], payload[3] := h[0], h[1], h[2], h[3];
      WiresMore(attrs, a);
      attrs := attrs + [a];
      assert payload[..4] == h;
      assert payload[..length] == payload[..4] + payload[4..length];
    }

    /** `encode_string_data`, `encode_cli_data`, `encode_algo_sort` and `encode_algo_max`, which differ in the type
        only. */
    method EncodeData(kind: nat, data: seq<Byte>, len: int) returns (r: int)
      requires Valid() && kind in DATA_KINDS && (0 < len < MAX_DATA ==> len <= |data| && 4 + len <= Room())
      modifies this, payload
      ensures Valid()
      ensures 0 < len < 1024 ==> r == length && attrs == old(attrs) + [Data(kind, data[..len])]
      ensures !(0 < len < 1024) ==> r == 0 && attrs == old(attrs)
    {
      if length == 0 {
        length := 4;
      }
      if len <= 0 || len >= MAX_DATA {
        return 0;
      }
      hide Head, Wires, Wire;
      Opened();
      ghost var was := Wires(attrs);
      var value := data[..len];
      PutHead(kind, len, was);
      PutBytes(value, was + Head(kind, len));
      ghost var a := Data(kind, value);
      WireAfter(was, a);
      PutHeader(a);
      r := length;
    }

    /** `encode_join_group`. */
    method EncodeJoinGroup(groups: seq<nat>, numgroups: int) returns (r: int)
      requires Valid() && (0 < numgroups < MAX_GROUPS ==> numgroups <= |groups| && 4 + 4 * numgroups <= Room())
      modifies this, payload
      ensures Valid()
      ensures 0 < numgroups < 255 ==> r == length && attrs == old(attrs) + [Groups(groups[..numgroups])]
      ensures !(0 < numgroups < 255) ==> r == 0 && attrs == old(attrs)
    {
      if length == 0 {
        length := 4;
      }
      if numgroups <= 0 || numgroups >= MAX_GROUPS {
        return 0;
      }
      hide Head, Wires, Wire, GroupWords;
      Opened();
      ghost var was := Wires(attrs);
      var gids := groups[..numgroups];
      PutHead(JOIN_GROUP, 4 * numgroups, was);
      PutGroups(gids, was + Head(JOIN_GROUP, 4 * numgroups));
      ghost var a := Groups(gids);
      WireAfter(was, a);
      PutHeader(a);
      r := length;
    }

    method PutGroup(gid: nat, ghost body: seq<Byte>)
      requires Body(body) && length + 4 <= payload.Length
      modifies this`length, payload
      ensures Body(body + GroupWord(gid)) && length == old(length) + 4
    {
      hide Be16;
      PutWord16(gid, body);
      PutByte(0, body + Be16(gid));
      PutByte(0, body + Be16(gid) + [0]);
      assert body + Be16(gid) + [0] + [0] == body + GroupWord(gid);
    }

    method PutGroups(gids: seq<nat>, ghost body: seq<Byte>)
      requires Body(body) && length + 4 * |gids| <= payload.Length
      modifies this`length, payload
      ensures Body(body + GroupWords(gids)) && length == old(length) + 4 * |gids|
    {
      assert body + GroupWords(gids[..0]) == body;
      for i := 0 to |gids|
        invariant length == old(length) + 4 * i && Body(body + GroupWords(gids[..i]))
      {
        ghost var done := body + GroupWords(gids[..i]);
        PutGroup(gids[i], done);
        assert gids[..i + 1][..i] == gids[..i];
        assert done + GroupWord(gids[i]) == body + GroupWords(gids[..i + 1]);
      }
      assert gids[..|gids|] == gids;
    }

    /** `encode_goodbye`. */
    method EncodeGoodbye() returns (r: int)
      requires Valid() && 4 + |GOODBYE| <= Room()
      modifies this, payload
      ensures Valid() && r == length && attrs == old(attrs) + [Goodbye]
    {
      if length == 0 {
        length := 4;
      }
      hide Head, Wires, Wire;
      Opened();
      ghost var was := Wires(attrs);
      PutHead(GOOD_BYE, |GOODBYE|, was);
      PutBytes(GOODBYE, was + Head(GOOD_BYE, |GOODBYE|));
      WireAfter(was, Goodbye);
      PutHeader(Goodbye);
      r := length;
    }

    /** `encode_algo_error`: the same word `len` times, under a length that is not checked. */
    method EncodeAlgoError(word: int, len: int) returns (r: int)
      requires Valid() && 4 <= Room() && 4 + 4 * len <= Room()
      modifies this, payload
      ensures Valid() && r == length && attrs == old(attrs) + [Failure(word, len)]
    {
      hide Head, Wires, Wire, Repeated;
      if length == 0 {
        length := 4;
      }
      Opened();
      ghost var was := Wires(attrs);
      PutHead(ALGO_ERROR, 4 * len, was);
      PutRepeated(word, if len < 0 then 0 else len, was + Head(ALGO_ERROR, 4 * len));
      WireAfter(was, Failure(word, len));
      PutHeader(Failure(word, len));
      r := length;
    }

    method PutRepeated(word: int, len: nat, ghost body: seq<Byte>)
      requires Body(body) && length + 4 * len <= payload.Length
      modifies this`length, payload
      ensures Body(body + Repeated(word, len)) && length == old(length) + 4 * len
    {
      assert body + Repeated(word, 0) == body;
      for i := 0 to len
        invariant length == old(length) + 4 * i && Body(body + Repeated(word, i))
      {
        PutWord32(word, body + Repeated(word, i));
        assert body + Repeated(word, i) + Be32(word) == body + Repeated(word, i + 1);
      }
    }

    /** The bytes in the buffer: the length so far in the first four, the highest first, and the last attribute at the
        end. */
    lemma InTheBuffer()
      requires Valid() && attrs != []
      ensures var w := Wire(attrs[|attrs| - 1]); 4 + |w| <= length && payload[length - |w|..length] == w
      ensures payload.Length == 1024 && payload[0] == payload[1] == 0
      ensures 256 * At(payload[..], 2) + At(payload[..], 3) == length
    {
      var f := payload[..length];
      var w := Wire(attrs[|attrs| - 1]);
      FrameEnds(attrs);
      SmallHeader(length);
      hide Wire, Frame, Be32;
      assert payload[0] == f[..4][0] && payload[1] == f[..4][1] && payload[2] == f[..4][2] && payload[3] == f[..4][3];
      assert payload[length - |w|..length] == f[length - |w|..];
    }

    /** What was encoded is what a receiver of the used part of the buffer is handed, in order. */
    lemma Transmitted()
      requires Valid() && attrs != [] && forall a :: a in attrs ==> Encodable(a)
      ensures Parsed(payload[..length]) == Delivered(ExpectedAll(attrs))
    {
      hide Frame, ExpectedAll, Parsed, Encodable;
      OneFrame(attrs);
      RoundTrip([attrs]);
    }

    /** `encode`: an unknown type and a length out of bounds add nothing. */
    method Encode(kind: nat, data: seq<Byte>, groups: seq<nat>, word: int, len: int) returns (r: int)
      requires Valid()
      requires kind in DATA_KINDS && 0 < len < MAX_DATA ==> len <= |data|
      requires kind == JOIN_GROUP && 0 < len < MAX_GROUPS ==> len <= |groups|
      requires Asked(kind, data, groups, word, len).Some? ==>
        |Wire(Asked(kind, data, groups, word, len).value)| <= Room()
      modifies this, payload
      ensures Valid()
      ensures match Asked(kind, data, groups, word, len)
              case None => r == 0 && attrs == old(attrs)
              case Some(a) => r == length && attrs == old(attrs) + [a]
    {
      if kind == JOIN_GROUP {
        r := EncodeJoinGroup(groups, len);
      } else if kind in DATA_KINDS {
        r := EncodeData(kind, data, len);
      } else if kind == GOOD_BYE {
        r := EncodeGoodbye();
      } else if kind == ALGO_ERROR {
        r := EncodeAlgoError(word, len);
      } else {
        r := 0;
      }
    }
  }

  // Types whose value is a run of bytes
  const DATA_KINDS: set<nat> := {STRING_DATA, CLI_DATA, ALGO_SORT, ALGO_MAX}

  /** The attribute a call of `encode` asks for, if its type and length are acceptable. */
  function Asked(kind: nat, data: seq<Byte>, groups: seq<nat>, word: int, len: int): Option<Attr>
    requires kind in DATA_KINDS && 0 < len < MAX_DATA ==> len <= |data|
    requires kind == JOIN_GROUP && 0 < len < MAX_GROUPS ==> len <= |groups|
  {
    if kind in DATA_KINDS then (if 0 < len < MAX_DATA then Some(Data(kind, data[..len])) else None)
    else if kind == JOIN_GROUP then (if 0 < len < MAX_GROUPS then Some(Groups(groups[..len])) else None)
    else if kind == GOOD_BYE then Some(Goodbye)
    else if kind == ALGO_ERROR then Some(Failure(word, len))
    else None
  }

  /** `encode` adds something exactly for the types 3, 5, 101 and 102 with 1 to 1023 bytes, type 1 with 1 to 254 groups,
      and the types 2 and 100. */
  lemma AskedIff(kind: nat, data: seq<Byte>, groups: seq<nat>, word: int, len: int)
    requires kind in DATA_KINDS && 0 < len < MAX_DATA ==> len <= |data|
    requires kind == JOIN_GROUP && 0 < len < MAX_GROUPS ==> len <= |groups|
    ensures var asked := Asked(kind, data, groups, word, len);
      && (asked.Some? <==> (kind in {3, 5, 101, 102} && 0 < len < 1024) || (kind == 1 && 0 < len < 255)
                           || kind == 2 || kind == 100)
      && (asked.Some? && kind in {3, 5, 101, 102} ==> asked == Some(Data(kind, data[..len])))
      && (asked.Some? && kind == 1 ==> asked == Some(Groups(groups[..len])))
      && (kind == 2 ==> asked == Some(Goodbye)) && (kind == 100 ==> asked == Some(Failure(word, len)))
  {
  }

  // ---------------------------------------------------------------------------------------------
  // Taking a received buffer apart
  // ---------------------------------------------------------------------------------------------

  /** What is handed to `handle_data`: for JOIN_GROUP the decoded group ids, for all types the bytes. */
  datatype Received = Received(kind: nat, value: seq<Byte>, gids: seq<nat>)

  /** All attributes in order; or the first frame is longer than what was received; or a length leads past the end
      of what was received. */
  datatype Outcome = Delivered(out: seq<Received>) | Fragment | Overrun(out: seq<Received>)

  function GidsOf(value: seq<Byte>): seq<nat> {
    if |value| < 4 then [] else [FromBe16(value[0], value[1])] + GidsOf(value[4..])
  }

  /** `decode` at an offset, if the attribute lies within the buffer. */
  function DecodeAt(buf: seq<Byte>, at: nat): (r: Option<Received>)
    ensures r.Some? ==> at + 4 + |r.value.value| <= |buf|
  {
    if at + 4 > |buf| then None
    else
      var kind, length := FromBe16(buf[at], buf[at + 1]), FromBe16(buf[at + 2], buf[at + 3]);
      if at + 4 + length > |buf| then None
      else
        var value := buf[at + 4..at + 4 + length];
        Some(Received(kind, value, if kind == JOIN_GROUP then GidsOf(value) else []))
  }

  datatype Progress = Progress(at: nat, out: seq<Received>, ok: bool)

  /** The inner loop: attributes until the frame's length is used up. */
  function Attributes(buf: seq<Byte>, at: nat, left: int, out: seq<Received>): (p: Progress)
    requires at <= |buf|
    ensures at <= p.at <= |buf|
    decreases |buf| - at
  {
    if left <= 0 then Progress(at, out, true)
    else match DecodeAt(buf, at)
      case None => Progress(at, out, false)
      case Some(tlv) => Attributes(buf, at + 4 + |tlv.value|, left - 4 - |tlv.value|, out + [tlv])
  }

  function HeaderAt(buf: seq<Byte>, at: nat): int
    requires at + 4 <= |buf|
  {
    FromBe32(buf[at], buf[at + 1], buf[at + 2], buf[at + 3])
  }

  /** The outer loop: frames until what was received is used up. */
  function FramesFrom(buf: seq<Byte>, at: nat, recvLen: int, out: seq<Received>): Outcome
    requires at <= |buf|
    decreases |buf| - at
  {
    if recvLen <= 0 then Delivered(out)
    else if at + 4 > |buf| then Overrun(out)
    else
      var p := Attributes(buf, at + 4, HeaderAt(buf, at) - 4, out);
      if p.ok then FramesFrom(buf, p.at, recvLen - HeaderAt(buf, at), p.out) else Overrun(p.out)
  }

  function Parsed(buf: seq<Byte>): Outcome {
    if |buf| < 4 then Overrun([])
    else if HeaderAt(buf, 0) > |buf| then Fragment
    else FramesFrom(buf, 0, |buf|, [])
  }

  /** The loop of `decode` that fills g_groups. */
  method DecodeGroups(value: seq<Byte>) returns (gids: seq<nat>)
    ensures gids == GidsOf(value)
  {
    gids := [];
    var i := 0;
    assert value[0..] == value;
    while i < |value| / 4
      invariant 0 <= i <= |value| / 4
      invariant GidsOf(value) == gids + GidsOf(value[4 * i..])
    {
      var rest := value[4 * i..];
      assert rest[4..] == value[4 * (i + 1)..];
      gids := gids + [FromBe16(rest[0], rest[1])];
      i := i + 1;
    }
  }

  /** `decode`. */
  method Decode(buf: seq<Byte>, at: nat) returns (r: Option<Received>)
    ensures r == DecodeAt(buf, at)
    ensures r == None <==> at + 4 > |buf| || at + 4 + (256 * At(buf, at + 2) + At(buf, at + 3)) > |buf|
    ensures r.Some? ==> var n := 256 * At(buf, at + 2) + At(buf, at + 3);
      && r.value.kind == 256 * At(buf, at) + At(buf, at + 1) && r.value.value == buf[at + 4..at + 4 + n]
      && |r.value.gids| == (if r.value.kind == 1 then n / 4 else 0)
      && forall i :: 0 <= i < |r.value.gids| ==>
           r.value.gids[i] == 256 * At(r.value.value, 4 * i) + At(r.value.value, 4 * i + 1)
  {
    if at <= |buf| { AttributeBytes(buf, at); }
    hide FromBe16, GidsOf, At;
    if at + 4 > |buf| {
      return None;
    }
    var kind, length := FromBe16(buf[at], buf[at + 1]), FromBe16(buf[at + 2], buf[at + 3]);
    if at + 4 + length > |buf| {
      return None;
    }
    var value := buf[at + 4..at + 4 + length];
    var gids := [];
    if kind == JOIN_GROUP {
      gids := DecodeGroups(value);
    }
    r := Some(Received(kind, value, gids));
  }

  /** The inner loop of `handleClientMessage`. */
  method DeliverFrame(buf: seq<Byte>, start: nat, length: int, before: seq<Received>) returns (p: Progress)
    requires start <= |buf|
    ensures p == Attributes(buf, start, length, before)
  {
    hide DecodeAt;
    var at, lenFromHdr, out := start, length, before;
    while lenFromHdr > 0
      invariant start <= at <= |buf|
      invariant Attributes(buf, start, length, before) == Attributes(buf, at, lenFromHdr, out)
      decreases |buf| - at
    {
      var tlv := Decode(buf, at);
      if tlv == None {
        return Progress(at, out, false);
      }
      lenFromHdr := lenFromHdr - |tlv.value.value| - 4;
      at := at + |tlv.value.value| + 4;
      out := out + [tlv.value];
    }
    p := Progress(at, out, true);
  }

  /** `handleClientMessage`; only the first frame is checked for being fragmented. */
  method HandleClientMessage(buf: seq<Byte>) returns (r: Outcome)
    ensures r == Parsed(buf)
  {
    hide HeaderAt, Attributes;
    if |buf| < 4 {
      return Overrun([]);
    }
    if HeaderAt(buf, 0) > |buf| {
      return Fragment;
    }
    var at, recvLen, out := 0, |buf|, [];
    while recvLen > 0
      invariant 0 <= at <= |buf| && Parsed(buf) == FramesFrom(buf, at, recvLen, out)
      decreases |buf| - at
    {
      if at + 4 > |buf| {
        return Overrun(out);
      }
      var lenFromHdr := HeaderAt(buf, at);
      var p := DeliverFrame(buf, at + 4, lenFromHdr - 4, out);
      if !p.ok {
        return Overrun(p.out);
      }
      at, out := p.at, p.out;
      recvLen := recvLen - lenFromHdr;
    }
    r := Delivered(out);
  }

  // ---------------------------------------------------------------------------------------------
  // Byte by byte
  // ---------------------------------------------------------------------------------------------

  function At(buf: seq<Byte>, i: nat): int
    requires i < |buf|
  {
    buf[i]
  }

  /** The i-th group id is in the first two bytes of the i-th word, the higher one first. */
  lemma {:induction false} GroupBytes(value: seq<Byte>)
    ensures |GidsOf(value)| == |value| / 4
    ensures forall i :: 0 <= i < |value| / 4 ==> GidsOf(value)[i] == 256 * At(value, 4 * i) + At(value, 4 * i + 1)
  {
    if |value| >= 4 {
      var rest := value[4..];
      GroupBytes(rest);
      forall i | 0 <= i < |value| / 4
        ensures GidsOf(value)[i] == 256 * At(value, 4 * i) + At(value, 4 * i + 1)
      {
        if i > 0 {
          assert GidsOf(value)[i] == GidsOf(rest)[i - 1];
          assert rest[4 * (i - 1)] == value[4 * i] && rest[4 * (i - 1) + 1] == value[4 * i + 1];
        }
      }
    }
  }

  /** The header of a frame: four bytes, the highest first, read into an int. */
  lemma HeaderBytes(buf: seq<Byte>, at: nat)
    requires at + 4 <= |buf|
    ensures var v := 16777216 * At(buf, at) + 65536 * At(buf, at + 1) + 256 * At(buf, at + 2) + At(buf, at + 3);
      HeaderAt(buf, at) == if v < 2147483648 then v else v - 4294967296
  {
  }

  /** An attribute: two bytes of type, two of length, the higher one first in both, and as many bytes of value; of type
      1 the value is a run of group ids. */
  lemma AttributeBytes(buf: seq<Byte>, at: nat)
    requires at <= |buf|
    ensures DecodeAt(buf, at) == None
      <==> at + 4 > |buf| || at + 4 + (256 * At(buf, at + 2) + At(buf, at + 3)) > |buf|
    ensures DecodeAt(buf, at).Some? ==> var r, n := DecodeAt(buf, at).value, 256 * At(buf, at + 2) + At(buf, at + 3);
      && r.kind == 256 * At(buf, at) + At(buf, at + 1) && r.value == buf[at + 4..at + 4 + n]
      && |r.gids| == (if r.kind == 1 then n / 4 else 0)
      && forall i :: 0 <= i < |r.gids| ==> r.gids[i] == 256 * At(r.value, 4 * i) + At(r.value, 4 * i + 1)
  {
    if DecodeAt(buf, at).Some? { GroupBytes(DecodeAt(buf, at).value.value); }
    hide GidsOf;
  }

  /** A received frame of one attribute, by its bytes. */
  lemma FrameBytes(buf: seq<Byte>) returns (gids: seq<nat>)
    requires 8 <= |buf| < 65536 && buf[0] == buf[1] == 0 && 256 * At(buf, 2) + At(buf, 3) == |buf|
    requires 256 * At(buf, 6) + At(buf, 7) == |buf| - 8
    ensures Parsed(buf) == Delivered([Received(256 * At(buf, 4) + At(buf, 5), buf[8..], gids)])
    ensures |gids| == if 256 * At(buf, 4) + At(buf, 5) == 1 then (|buf| - 8) / 4 else 0
    ensures forall i :: 0 <= i < |gids| ==> gids[i] == 256 * At(buf, 8 + 4 * i) + At(buf, 8 + 4 * i + 1)
  {
    HeaderBytes(buf, 0);
    AttributeBytes(buf, 4);
    assert buf[8..|buf|] == buf[8..];
    var r := DecodeAt(buf, 4).value;
    gids := r.gids;
    AttributesStep(buf, 4, |buf| - 4, [], r);
    hide DecodeAt, HeaderAt;
    assert [] + [r] == [r];
    assert Attributes(buf, 4, |buf| - 4, []) == Progress(|buf|, [r], true);
    assert FramesFrom(buf, 0, |buf|, []) == Delivered([r]);
  }

  lemma HeadBytes(kind: nat, len: nat)
    requires kind < 65536 && len < 65536
    ensures var h := Head(kind, len); 256 * At(h, 0) + At(h, 1) == kind && 256 * At(h, 2) + At(h, 3) == len
  {
  }

  lemma {:induction false} WordBytes(gids: seq<nat>, i: nat)
    requires i < |gids|
    ensures var w := GroupWords(gids);
      256 * At(w, 4 * i) + At(w, 4 * i + 1) == gids[i] % 65536 && w[4 * i + 2] == w[4 * i + 3] == 0
  {
    var last := |gids| - 1;
    if i < last { WordBytes(gids[..last], i); }
  }

  lemma FourBytes(word: int)
    ensures var w := Be32(word);
      16777216 * At(w, 0) + 65536 * At(w, 1) + 256 * At(w, 2) + At(w, 3) == word % 4294967296
  {
    var a := word / 256;
    var b := a / 256;
    var c := b / 256;
    assert word == 256 * a + word % 256 && a == 256 * b + a % 256 && b == 256 * c + b % 256;
    assert c == 256 * (c / 256) + c % 256;
    var v := 16777216 * (c % 256) + 65536 * (b % 256) + 256 * (a % 256) + word % 256;
    assert word == 4294967296 * (c / 256) + v && 0 <= v < 4294967296;
  }

  lemma {:induction false} RepeatedBytes(word: int, times: nat, i: nat)
    requires i < times
    ensures Repeated(word, times)[4 * i..4 * i + 4] == Be32(word)
  {
    hide Be32;
    if i < times - 1 {
      RepeatedBytes(word, times - 1, i);
      assert Repeated(word, times)[4 * i..4 * i + 4] == Repeated(word, times - 1)[4 * i..4 * i + 4];
    }
  }

  /** What the encoders write for an attribute, by its bytes. */
  lemma DataBytes(kind: nat, value: seq<Byte>)
    requires kind < 65536 && |value| < 65536
    ensures var w := Wire(Data(kind, value));
      256 * At(w, 0) + At(w, 1) == kind && 256 * At(w, 2) + At(w, 3) == |value| && w[4..] == value
  {
    HeadBytes(kind, |value|);
    hide Head;
  }

  lemma JoinBytes(gids: seq<nat>, i: nat)
    requires |gids| < 16384 && i < |gids|
    ensures var w := Wire(Groups(gids));
      && |w| == 4 + 4 * |gids| && w[0] == 0 && w[1] == 1
      && 256 * At(w, 2) + At(w, 3) == 4 * |gids|
      && 256 * At(w, 4 + 4 * i) + At(w, 5 + 4 * i) == gids[i] % 65536 && w[6 + 4 * i] == w[7 + 4 * i] == 0
  {
    HeadBytes(1, 4 * |gids|);
    WordBytes(gids, i);
    hide GroupWords;
  }

  lemma GoodbyeBytes()
    ensures Wire(Goodbye) == [0, 2, 0, 7, 103, 111, 111, 100, 98, 121, 101]
  {
  }

  lemma ErrorBytes(word: int, times: nat, i: nat)
    requires i < times < 16384
    ensures var w := Wire(Failure(word, times));
      && |w| == 4 + 4 * times && w[0] == 0 && w[1] == 100
      && 256 * At(w, 2) + At(w, 3) == 4 * times
      && 16777216 * At(w, 4 + 4 * i) + 65536 * At(w, 5 + 4 * i) + 256 * At(w, 6 + 4 * i) + At(w, 7 + 4 * i)
        == word % 4294967296
  {
    HeadBytes(100, 4 * times);
    RepeatedBytes(word, times, i);
    FourBytes(word);
    hide Repeated, Be32;
    var w, r := Wire(Failure(word, times)), Repeated(word, times);
    assert w[4..] == r;
    forall j | 0 <= j < 4
      ensures w[4 + 4 * i + j] == Be32(word)[j]
    {
      assert r[4 * i..4 * i + 4][j] == r[4 * i + j];
    }
    assert w[4 + 4 * i + 0] == Be32(word)[0] && w[4 + 4 * i + 1] == Be32(word)[1];
    assert w[4 + 4 * i + 2] == Be32(word)[2] && w[4 + 4 * i + 3] == Be32(word)[3];
  }

  // ---------------------------------------------------------------------------------------------
  // Round trip
  // ---------------------------------------------------------------------------------------------

  function Reduced(gids: seq<nat>): seq<nat> { seq(|gids|, i requires 0 <= i < |gids| => gids[i] % 0x1_0000) }

  /** What an encoded attribute is received as. */
  function Expected(a: Attr): Received {
    Received(Kind(a), Payload(a), match a case Groups(gids) => Reduced(gids) case _ => [])
  }

  function ExpectedAll(attrs: seq<Attr>): seq<Received> {
    seq(|attrs|, i requires 0 <= i < |attrs| => Expected(attrs[i]))
  }

  /** An attribute as the encoders make it. */
  predicate Encodable(a: Attr) {
    && Kind(a) < 0x1_0000 && |Payload(a)| < 0x1_0000 && (a.Data? ==> a.kind != JOIN_GROUP)
    && LengthField(a) == |Payload(a)|
  }

  lemma {:induction false} GidsBack(gids: seq<nat>)
    ensures GidsOf(GroupWords(gids)) == Reduced(gids)
  {
    if gids != [] {
      var last := |gids| - 1;
      GidsBack(gids[..last]);
      GidsMore(GroupWords(gids[..last]), GroupWord(gids[last]));
      Word16(gids[last]);
    }
  }

  lemma {:induction false} GidsMore(bs: seq<Byte>, w: seq<Byte>)
    requires |bs| % 4 == 0 && |w| == 4
    ensures GidsOf(bs + w) == GidsOf(bs) + [FromBe16(w[0], w[1])]
  {
    if bs == [] {
      assert bs + w == w && GidsOf(w[4..]) == [];
    } else {
      assert (bs + w)[4..] == bs[4..] + w;
      GidsMore(bs[4..], w);
    }
  }

  lemma WireLayout(a: Attr)
    requires Encodable(a)
    ensures FromBe16(Wire(a)[0], Wire(a)[1]) == Kind(a) && FromBe16(Wire(a)[2], Wire(a)[3]) == |Payload(a)|
    ensures Wire(a)[4..] == Payload(a)
  {
    Word16(Kind(a));
    Word16(|Payload(a)|);
    hide FromBe16, Be16, Payload, Kind, LengthField;
  }

  /** The buffer has these bytes at an offset. */
  predicate Has(buf: seq<Byte>, at: nat, w: seq<Byte>) { at + |w| <= |buf| && buf[at..at + |w|] == w }

  lemma Slice(buf: seq<Byte>, at: nat, w: seq<Byte>, k: nat)
    requires Has(buf, at, w) && k <= |w|
    ensures Has(buf, at, w[..k]) && Has(buf, at + k, w[k..])
    ensures k < |w| ==> buf[at + k] == w[k]
  {
    if k < |w| { assert buf[at..at + |w|][k] == w[k]; }
  }

  lemma PayloadBack(a: Attr)
    requires Encodable(a)
    ensures Expected(a)
         == Received(Kind(a), Payload(a), if Kind(a) == JOIN_GROUP then GidsOf(Payload(a)) else [])
  {
    if a.Groups? { GidsBack(a.gids); }
    hide GidsOf, GroupWords, Repeated, Reduced;
  }

  lemma KindsFit(a: Attr)
    requires Encodable(a)
    ensures |Wire(a)| == 4 + |Payload(a)|
  {
  }

  /** Decoding where an attribute was encoded gives it back. */
  lemma DecodesBack(buf: seq<Byte>, at: nat, a: Attr)
    requires Encodable(a) && Has(buf, at, Wire(a))
    ensures DecodeAt(buf, at) == Some(Expected(a))
  {
    hide Wire, Payload, Kind, FromBe16, GidsOf, Expected, Encodable;
    PayloadBack(a);
    WireLayout(a);
    KindsFit(a);
    var w := Wire(a);
    Slice(buf, at, w, 0);
    Slice(buf, at, w, 1);
    Slice(buf, at, w, 2);
    Slice(buf, at, w, 3);
    Slice(buf, at, w, 4);
  }

  lemma WiresMore(attrs: seq<Attr>, b: Attr)
    ensures Wires(attrs + [b]) == Wires(attrs) + Wire(b)
  {
    hide Wire;
    assert (attrs + [b])[..|attrs|] == attrs;
  }

  lemma {:induction false} WiresCons(a: Attr, rest: seq<Attr>)
    ensures Wires([a] + rest) == Wire(a) + Wires(rest)
  {
    hide Wires, Wire;
    if rest == [] {
      NoWires();
      WiresMore([], a);
      assert [a] + [] == [] + [a];
    } else {
      var front, b := rest[..|rest| - 1], rest[|rest| - 1];
      assert front + [b] == rest && ([a] + front) + [b] == [a] + rest;
      WiresCons(a, front);
      WiresMore(front, b);
      WiresMore([a] + front, b);
      Associative(Wire(a), Wires(front), Wire(b));
    }
  }

  lemma NoWires()
    ensures Wires([]) == []
  {
  }

  lemma Associative(x: seq<Byte>, y: seq<Byte>, z: seq<Byte>)
    ensures (x + y) + z == x + (y + z)
  {
  }

  lemma AttributesStep(buf: seq<Byte>, at: nat, left: int, out: seq<Received>, tlv: Received)
    requires at <= |buf| && left > 0 && DecodeAt(buf, at) == Some(tlv)
    ensures Attributes(buf, at, left, out)
         == Attributes(buf, at + 4 + |tlv.value|, left - 4 - |tlv.value|, out + [tlv])
  {
    hide DecodeAt;
  }

  lemma FirstWire(buf: seq<Byte>, at: nat, a: Attr, rest: seq<Attr>)
    requires Has(buf, at, Wires([a] + rest))
    ensures |Wires([a] + rest)| == |Wire(a)| + |Wires(rest)|
    ensures Has(buf, at, Wire(a)) && Has(buf, at + |Wire(a)|, Wires(rest))
  {
    WiresCons(a, rest);
    hide Wires, Wire, Has;
    var n := |Wire(a)|;
    Slice(buf, at, Wire(a) + Wires(rest), n);
    assert (Wire(a) + Wires(rest))[..n] == Wire(a) && (Wire(a) + Wires(rest))[n..] == Wires(rest);
  }

  lemma Within(buf: seq<Byte>, at: nat, w: seq<Byte>)
    requires Has(buf, at, w)
    ensures at + |w| <= |buf|
  {
  }

  lemma ExpectedCons(a: Attr, rest: seq<Attr>, out: seq<Received>)
    ensures (out + [Expected(a)]) + ExpectedAll(rest) == out + ExpectedAll([a] + rest)
    ensures |Wire(a)| == 4 + |Expected(a).value|
  {
    hide Payload, Kind;
  }

  lemma OneMore(buf: seq<Byte>, at: nat, a: Attr, rest: seq<Attr>, out: seq<Received>)
    requires Encodable(a) && at <= |buf| && Has(buf, at, Wires([a] + rest))
    requires at + |Wire(a)| <= |buf|
    requires Attributes(buf, at + |Wire(a)|, |Wires(rest)|, out + [Expected(a)])
          == Progress(at + |Wire(a)| + |Wires(rest)|, (out + [Expected(a)]) + ExpectedAll(rest), true)
    ensures Attributes(buf, at, |Wires([a] + rest)|, out)
         == Progress(at + |Wires([a] + rest)|, out + ExpectedAll([a] + rest), true)
  {
    hide Wire, Wires, DecodeAt, Attributes, Encodable, Expected, ExpectedAll, Has;
    FirstWire(buf, at, a, rest);
    ExpectedCons(a, rest, out);
    DecodesBack(buf, at, a);
    AttributesStep(buf, at, |Wires([a] + rest)|, out, Expected(a));
  }

  lemma {:induction false} AttributesBack(buf: seq<Byte>, at: nat, attrs: seq<Attr>, out: seq<Received>)
    requires forall a :: a in attrs ==> Encodable(a)
    requires at <= |buf| && Has(buf, at, Wires(attrs))
    ensures Attributes(buf, at, |Wires(attrs)|, out) == Progress(at + |Wires(attrs)|, out + ExpectedAll(attrs), true)
    decreases |attrs|
  {
    if attrs == [] {
      assert out + ExpectedAll(attrs) == out;
    } else {
      hide Wire, Wires, DecodeAt, Attributes, Encodable, Expected, ExpectedAll, Has;
      var a, rest := attrs[0], attrs[1..];
      assert attrs == [a] + rest;
      FirstWire(buf, at, a, rest);
      Within(buf, at, Wire(a));
      AttributesBack(buf, at + |Wire(a)|, rest, out + [Expected(a)]);
      OneMore(buf, at, a, rest, out);
    }
  }

  /** Frames one after the other. */
  function Stream(frames: seq<seq<Attr>>): seq<Byte> {
    if frames == [] then [] else Frame(frames[0]) + Stream(frames[1..])
  }

  function AllExpected(frames: seq<seq<Attr>>): seq<Received> {
    if frames == [] then [] else ExpectedAll(frames[0]) + AllExpected(frames[1..])
  }

  predicate Sendable(attrs: seq<Attr>) {
    |Frame(attrs)| < 0x8000_0000 && forall a :: a in attrs ==> Encodable(a)
  }

  lemma FrameLayout(attrs: seq<Attr>, more: seq<Byte>)
    requires Sendable(attrs)
    ensures var s := Frame(attrs) + more; var n := |Frame(attrs)|;
      HeaderAt(s, 0) == n && s[4..n] == Wires(attrs) && s[n..] == more
  {
    Word32(|Frame(attrs)|);
    hide Be32, FromBe32, Wires;
  }

  lemma HeaderWithin(buf: seq<Byte>, at: nat, s: seq<Byte>)
    requires at <= |buf| && buf[at..] == s && |s| >= 4
    ensures HeaderAt(buf, at) == HeaderAt(s, 0)
  {
    assert forall i :: 0 <= i < 4 ==> buf[at + i] == s[i];
  }

  lemma {:induction false} FramesBack(buf: seq<Byte>, at: nat, frames: seq<seq<Attr>>, out: seq<Received>)
    requires forall f :: f in frames ==> Sendable(f)
    requires at <= |buf| && buf[at..] == Stream(frames)
    ensures FramesFrom(buf, at, |Stream(frames)|, out) == Delivered(out + AllExpected(frames))
    decreases |frames|
  {
    hide HeaderAt, Attributes, Wires, ExpectedAll, Sendable, Frame;
    var s := Stream(frames);
    if frames == [] {
      assert out + AllExpected(frames) == out;
    } else {
      var attrs, rest := frames[0], frames[1..];
      assert Sendable(attrs);
      var n := |Frame(attrs)|;
      FrameLayout(attrs, Stream(rest));
      HeaderWithin(buf, at, s);
      assert buf[at + 4..at + n] == s[4..n] && buf[at + n..] == s[n..];
      SendableAttrs(attrs);
      AttributesBack(buf, at + 4, attrs, out);
      FramesBack(buf, at + n, rest, out + ExpectedAll(attrs));
      assert out + ExpectedAll(attrs) + AllExpected(rest) == out + AllExpected(frames);
    }
  }

  lemma SendableAttrs(attrs: seq<Attr>)
    requires Sendable(attrs)
    ensures forall a :: a in attrs ==> Encodable(a)
  {
  }

  /** Any concatenation of frames is received as exactly the attributes that were encoded, in order; group ids come
      back modulo 65536, hence unchanged if they are valid. */
  lemma RoundTrip(frames: seq<seq<Attr>>)
    requires frames != [] && forall f :: f in frames ==> Sendable(f)
    ensures Parsed(Stream(frames)) == Delivered(AllExpected(frames))
  {
    var buf := Stream(frames);
    assert Sendable(frames[0]);
    FrameLayout(frames[0], Stream(frames[1..]));
    hide HeaderAt, FramesFrom, Sendable, Frame;
    assert buf[0..] == buf && [] + AllExpected(frames) == AllExpected(frames);
    FramesBack(buf, 0, frames, []);
  }

  /** An attribute whose end was not received leads past the end of the buffer. */
  lemma CutAttribute(buf: seq<Byte>, at: nat, a: Attr, out: seq<Received>)
    requires Encodable(a) && at <= |buf| < at + |Wire(a)| && buf[at..] == Wire(a)[..|buf| - at]
    ensures !Attributes(buf, at, |Wire(a)|, out).ok
  {
    WireLayout(a);
    KindsFit(a);
    hide Wire, Payload, Kind, FromBe16, GidsOf, Encodable;
    if at + 4 <= |buf| {
      assert forall i :: 0 <= i < 4 ==> buf[at..][i] == Wire(a)[i];
      assert buf[at + 2] == Wire(a)[2] && buf[at + 3] == Wire(a)[3];
    }
    assert DecodeAt(buf, at) == None;
  }

  lemma OneWire(a: Attr)
    ensures Wires([a]) == Wire(a) && |Frame([a])| == 4 + |Wire(a)|
  {
    hide Wire;
    assert Wires([a][..0]) == [];
    assert [] + Wire(a) == Wire(a);
  }

  /** A frame whose end was not received does not reach the loop as it was sent, whatever came before it. */
  lemma CutFrame(buf: seq<Byte>, at: nat, a: Attr, more: seq<Byte>, out: seq<Received>)
    requires Sendable([a]) && at < |buf| < at + |Frame([a])| && buf[at..] == (Frame([a]) + more)[..|buf| - at]
    ensures FramesFrom(buf, at, |buf| - at, out).Overrun?
  {
    var s, n := Frame([a]) + more, |Frame([a])|;
    FrameLayout([a], more);
    OneWire(a);
    SendableAttrs([a]);
    assert a in [a];
    hide Frame, Wires, Wire, Sendable, Attributes, Encodable;
    if at + 4 <= |buf| {
      assert forall i :: 0 <= i < 4 ==> buf[at + i] == buf[at..][i] == s[i];
      assert buf[at + 4..] == s[4..|buf| - at] == s[4..n][..|buf| - at - 4];
      CutAttribute(buf, at + 4, a, out);
    }
  }

  function Frames(attrs: seq<Attr>): seq<seq<Attr>> { seq(|attrs|, i requires 0 <= i < |attrs| => [attrs[i]]) }

  lemma FramesCons(attrs: seq<Attr>)
    requires attrs != []
    ensures Stream(Frames(attrs)) == Frame([attrs[0]]) + Stream(Frames(attrs[1..]))
    ensures AllExpected(Frames(attrs)) == [Expected(attrs[0])] + AllExpected(Frames(attrs[1..]))
  {
    assert Frames(attrs)[0] == [attrs[0]] && Frames(attrs)[1..] == Frames(attrs[1..]);
    assert ExpectedAll([attrs[0]]) == [Expected(attrs[0])];
  }

  lemma {:induction false} CutStream(buf: seq<Byte>, at: nat, attrs: seq<Attr>, out: seq<Received>)
    requires forall a :: a in attrs ==> Sendable([a])
    requires at <= |buf| < at + |Stream(Frames(attrs))| && buf[at..] == Stream(Frames(attrs))[..|buf| - at]
    ensures FramesFrom(buf, at, |buf| - at, out) != Delivered(out + AllExpected(Frames(attrs)))
    decreases |attrs|
  {
    hide Attributes, HeaderAt, Wires, Expected, Sendable, Frame, ExpectedAll;
    if attrs != [] {
      FramesCons(attrs);
      var a, rest := attrs[0], attrs[1..];
      var n, more := |Frame([a])|, Stream(Frames(rest));
      if at == |buf| {
        assert |out + AllExpected(Frames(attrs))| > |out|;
      } else if |buf| < at + n {
        CutFrame(buf, at, a, more, out);
      } else {
        WholeFrame(buf, at, a, more, out);
        CutStream(buf, at + n, rest, out + [Expected(a)]);
        assert out + [Expected(a)] + AllExpected(Frames(rest)) == out + AllExpected(Frames(attrs));
      }
    }
  }

  lemma Parts(buf: seq<Byte>, at: nat, f: seq<Byte>, more: seq<Byte>)
    requires 4 <= |f| && at + |f| <= |buf| && |buf| - at <= |f| + |more| && buf[at..] == (f + more)[..|buf| - at]
    ensures buf[at..] == f + more[..|buf| - at - |f|] && buf[at + |f|..] == more[..|buf| - at - |f|]
    ensures Has(buf, at + 4, f[4..])
  {
    var n := |f|;
    assert buf[at..] == f + more[..|buf| - at - n];
    assert buf[at + n..] == buf[at..][n..] && buf[at + 4..at + 4 + |f[4..]|] == buf[at..][4..n];
  }

  lemma WholeFrame(buf: seq<Byte>, at: nat, a: Attr, more: seq<Byte>, out: seq<Received>)
    requires Sendable([a]) && at + |Frame([a])| <= |buf| && |buf| - at <= |Frame([a])| + |more|
    requires buf[at..] == (Frame([a]) + more)[..|buf| - at]
    ensures var n := |Frame([a])|;
      && buf[at + n..] == more[..|buf| - at - n]
      && FramesFrom(buf, at, |buf| - at, out) == FramesFrom(buf, at + n, |buf| - at - n, out + [Expected(a)])
  {
    hide Frame, Wires, Wire, Sendable, Encodable, Attributes, HeaderAt, Expected, Has;
    var f := Frame([a]);
    OneWire(a);
    FrameLayout([a], []);
    assert f + [] == f;
    Parts(buf, at, f, more);
    FrameLayout([a], more[..|buf| - at - |f|]);
    HeaderWithin(buf, at, f + more[..|buf| - at - |f|]);
    SendableAttrs([a]);
    AttributesBack(buf, at + 4, [a], out);
    assert ExpectedAll([a]) == [Expected(a)];
  }

  /** Frames of one attribute each that come in one receive of at most n bytes are handed over exactly if all of their
      bytes are among these. */
  lemma CutIff(attrs: seq<Attr>, n: nat)
    requires attrs != [] && forall a :: a in attrs ==> Sendable([a])
    ensures var s := Stream(Frames(attrs));
      Parsed(if |s| <= n then s else s[..n]) == Delivered(AllExpected(Frames(attrs))) <==> |s| <= n
  {
    var s := Stream(Frames(attrs));
    if |s| <= n {
      assert forall f :: f in Frames(attrs) ==> Sendable(f);
      RoundTrip(Frames(attrs));
    } else {
      hide Attributes, HeaderAt, Wires, Expected, Sendable, Frame, Frames;
      CutStream(s[..n], 0, attrs, []);
      assert [] + AllExpected(Frames(attrs)) == AllExpected(Frames(attrs));
    }
  }

  /** A frame of one attribute without a value. */
  lemma EmptyAttribute(w: seq<Byte>)
    requires |w| == 4 && FromBe16(w[0], w[1]) == ALGO_ERROR
    ensures Parsed(Be32(8) + w)
         == if FromBe16(w[2], w[3]) == 0 then Delivered([Received(ALGO_ERROR, [], [])]) else Overrun([])
  {
    var f := Be32(8) + w;
    Word32(8);
    hide FromBe16, Be32, FromBe32;
    assert f[4] == w[0] && f[5] == w[1] && f[6] == w[2] && f[7] == w[3];
    assert HeaderAt(f, 0) == 8;
    if FromBe16(w[2], w[3]) == 0 {
      assert f[8..8] == [];
      assert DecodeAt(f, 4) == Some(Received(ALGO_ERROR, [], []));
      var out := [Received(ALGO_ERROR, [], [])];
      assert [] + out == out;
      AttributesStep(f, 4, 4, [], out[0]);
      assert Attributes(f, 8, 0, out) == Progress(8, out, true);
      assert FramesFrom(f, 8, 0, out) == Delivered(out);
      assert FramesFrom(f, 0, 8, []) == FramesFrom(f, 8, 0, out);
    } else {
      assert DecodeAt(f, 4) == None;
    }
  }

  lemma NegativeFailure(word: int, times: int)
    requires times < 0
    ensures var w := Wire(Failure(word, times));
      |w| == 4 && FromBe16(w[0], w[1]) == ALGO_ERROR && FromBe16(w[2], w[3]) == 4 * times % 0x1_0000
    ensures Frame([Failure(word, times)]) == Be32(8) + Wire(Failure(word, times))
    ensures Expected(Failure(word, times)) == Received(ALGO_ERROR, [], [])
  {
    var a := Failure(word, times);
    Word16(ALGO_ERROR);
    Word16(4 * times);
    hide FromBe16, Be16, Be32;
    assert Wire(a) == Head(ALGO_ERROR, 4 * times);
    assert Wires([a][..0]) == [] && Wires([a]) == Wire(a);
  }

  /** An error alone in its frame is received as it was encoded exactly if its length field, 16 bits of four times the
      count, is the length of what follows; so it is not for a count of -1. */
  lemma FailureBackIff(word: int, times: int)
    requires 8 + 4 * times <= BUFFER_SIZE
    ensures var a := Failure(word, times);
      Parsed(Frame([a])) == Delivered([Expected(a)]) <==> 4 * times % 0x1_0000 == |Payload(a)|
  {
    var a := Failure(word, times);
    if times >= 0 {
      FailureLength(word, times);
      OneFrame([a]);
      hide Parsed, Stream, Wire, Wires, Frame, Expected, ExpectedAll, Payload;
      RoundTrip([[a]]);
    } else {
      NegativeFailure(word, times);
      EmptyAttribute(Wire(a));
      hide Parsed, Wire, Frame, FromBe16;
    }
  }

  lemma FailureLength(word: int, times: nat)
    requires 8 + 4 * times <= BUFFER_SIZE
    ensures var a := Failure(word, times);
      Sendable([a]) && ExpectedAll([a]) == [Expected(a)] && |Payload(a)| == 4 * times == 4 * times % 0x1_0000
  {
    var a := Failure(word, times);
    assert Wires([a][..0]) == [] && Wires([a]) == Wire(a);
    hide Head, Repeated;
  }

  lemma OneFrame(attrs: seq<Attr>)
    ensures Stream([attrs]) == Frame(attrs) && AllExpected([attrs]) == ExpectedAll(attrs)
  {
    assert Frame(attrs) + [] == Frame(attrs) && ExpectedAll(attrs) + [] == ExpectedAll(attrs);
    assert [attrs][1..] == [];
  }

  lemma ValidGidsUnchanged(gids: seq<nat>)
    requires forall g :: g in gids ==> 1 <= g <= 1000
    ensures Expected(Groups(gids)).gids == gids
  {
    assert forall i :: 0 <= i < |gids| ==> gids[i] in gids;
  }
}
