/** The command text between the command line and the server: printed by client/src/cli_commands.c as decimal numbers
    and words separated by bars, taken apart by server/src/server_helper.c with strtok, atoi and strtol. */
module Commands {
  import opened Wrappers

  // Opcodes
  const SHOW_MULTICAST_GROUPS: nat := 0
  const SHOW_CLIENTS_ALL: nat := 1
  const SHOW_JOB_DETAILS: nat := 2
  const SHOW_JOB_RESULTS: nat := 3
  const EXEC_JOB: nat := 4
  const SET_REPOSITORY: nat := 5
  const SET_JOB_TIMEOUT: nat := 6
  const SET_JOB_QUEUE_SIZE: nat := 7
  const LOGGING_LEVEL_ERROR: nat := 8
  const LOGGING_LEVEL_DEBUG: nat := 10

  datatype Command =
    | ShowGroups
    | ShowClients
    | JobDetails(id: int)
    | JobResults(id: int)
    | Execute(task: int, group: int, file: string)
    | SetRepository(ip: string, path: string, user: string, password: string)
    | SetTimeout(seconds: int)
    | SetQueueSize(size: int)
    | SetLogging(level: nat)

  // ---------------------------------------------------------------------------------------------
  // Numbers
  // ---------------------------------------------------------------------------------------------

  function Digit(d: nat): char
    requires d < 10
  {
    '0' + d as char
  }

  predicate IsDigit(c: char) { '0' <= c <= '9' }

  function Digits(n: nat): (s: string)
    ensures s != "" && forall i :: 0 <= i < |s| ==> IsDigit(s[i])
  {
    if n < 10 then [Digit(n)] else Digits(n / 10) + [Digit(n % 10)]
  }

  /** `%d` and `%lld`. */
  function Decimal(n: int): (s: string)
    ensures s != ""
  {
    if n < 0 then "-" + Digits(-n) else Digits(n)
  }

  /** The digits at the start of a text, read on from a value. */
  function ReadDigits(s: string, value: nat): nat {
    if s == "" || !IsDigit(s[0]) then value else ReadDigits(s[1..], 10 * value + (s[0] - '0') as nat)
  }

  predicate Space(c: char) { c == ' ' || '\t' <= c <= '\r' }

  /** `atoi` and `strtol` for base 10: spaces, a sign, digits; whatever follows is ignored. */
  function Atoi(s: string): int {
    if s == "" then 0
    else if Space(s[0]) then Atoi(s[1..])
    else if s[0] == '-' then 0 - ReadDigits(s[1..], 0) as int
    else if s[0] == '+' then ReadDigits(s[1..], 0)
    else ReadDigits(s, 0)
  }

  lemma {:induction false} ReadDigitsMore(s: string, d: nat, value: nat)
    requires d < 10 && forall i :: 0 <= i < |s| ==> IsDigit(s[i])
    ensures ReadDigits(s + [Digit(d)], value) == 10 * ReadDigits(s, value) + d
    decreases |s|
  {
    if s == "" {
      assert s + [Digit(d)] == [Digit(d)];
      assert [Digit(d)][1..] == "";
    } else {
      assert (s + [Digit(d)])[1..] == s[1..] + [Digit(d)];
      ReadDigitsMore(s[1..], d, 10 * value + (s[0] - '0') as nat);
    }
  }

  lemma {:induction false} DigitsBack(n: nat)
    ensures ReadDigits(Digits(n), 0) == n
  {
    if n < 10 {
      assert Digits(n)[1..] == "";
    } else {
      DigitsBack(n / 10);
      ReadDigitsMore(Digits(n / 10), n % 10, 0);
    }
  }

  lemma {:induction false} ReadDigitsStops(s: string, rest: string, value: nat)
    requires forall i :: 0 <= i < |s| ==> IsDigit(s[i])
    requires rest == "" || !IsDigit(rest[0])
    ensures ReadDigits(s + rest, value) == ReadDigits(s, value)
    decreases |s|
  {
    if s == "" {
      assert s + rest == rest;
    } else {
      assert (s + rest)[1..] == s[1..] + rest;
      ReadDigitsStops(s[1..], rest, 10 * value + (s[0] - '0') as nat);
    }
  }

  lemma AtoiOfMinus(s: string)
    ensures Atoi("-" + s) == 0 - ReadDigits(s, 0) as int
  {
    assert ("-" + s)[1..] == s;
    hide ReadDigits;
  }

  lemma AtoiOfDigits(s: string)
    requires s != "" && IsDigit(s[0])
    ensures Atoi(s) == ReadDigits(s, 0) as int
  {
    hide ReadDigits;
  }

  /** A printed number is read back, whatever follows it that is not a digit. */
  lemma NumberBack(n: int, rest: string)
    requires rest == "" || !IsDigit(rest[0])
    ensures Atoi(Decimal(n) + rest) == n
  {
    hide Atoi, ReadDigits, Digits;
    var digits := Digits(if n < 0 then -n else n);
    DigitsBack(if n < 0 then -n else n);
    ReadDigitsStops(digits, rest, 0);
    if n < 0 {
      AtoiOfMinus(digits + rest);
      assert Decimal(n) + rest == "-" + (digits + rest);
    } else {
      assert (digits + rest)[0] == digits[0];
      AtoiOfDigits(digits + rest);
    }
  }

  /** The space, and the control characters from the tab to the carriage return. */
  lemma SpaceIff(c: char)
    ensures Space(c) <==> c as int == 32 || 9 <= c as int <= 13
  {
  }

  lemma AtoiSkips(c: char, s: string)
    requires Space(c)
    ensures Atoi([c] + s) == Atoi(s)
  {
    assert ([c] + s)[1..] == s;
  }

  lemma AtoiOfPlus(s: string)
    ensures Atoi("+" + s) == ReadDigits(s, 0) as int
  {
    assert ("+" + s)[1..] == s;
    hide ReadDigits;
  }

  /** In front of a number spaces are passed over, and so is a plus. */
  lemma {:induction false} NumberAfterSpaces(spaces: string, n: int, rest: string)
    requires forall i :: 0 <= i < |spaces| ==> Space(spaces[i])
    requires rest == "" || !IsDigit(rest[0])
    ensures Atoi(spaces + (Decimal(n) + rest)) == n
    ensures n >= 0 ==> Atoi(spaces + ("+" + (Decimal(n) + rest))) == n
  {
    hide Atoi, ReadDigits, Digits, Space;
    if spaces == "" {
      assert "" + (Decimal(n) + rest) == Decimal(n) + rest;
      NumberBack(n, rest);
      if n >= 0 {
        DigitsBack(n);
        ReadDigitsStops(Digits(n), rest, 0);
        AtoiOfPlus(Digits(n) + rest);
        assert "" + ("+" + (Decimal(n) + rest)) == "+" + (Decimal(n) + rest);
      }
    } else {
      var more := spaces[1..];
      NumberAfterSpaces(more, n, rest);
      SkipsFirst(spaces, Decimal(n) + rest);
      SkipsFirst(spaces, "+" + (Decimal(n) + rest));
    }
  }

  lemma SkipsFirst(spaces: string, s: string)
    requires spaces != "" && Space(spaces[0])
    ensures Atoi(spaces + s) == Atoi(spaces[1..] + s)
  {
    AtoiSkips(spaces[0], spaces[1..] + s);
    assert spaces + s == [spaces[0]] + (spaces[1..] + s);
  }

  // ---------------------------------------------------------------------------------------------
  // Fields
  // ---------------------------------------------------------------------------------------------

  function Joined(fields: seq<string>): string
    requires fields != []
  {
    if |fields| == 1 then fields[0] else fields[0] + "|" + Joined(fields[1..])
  }

  /** The length of the text before the next bar. */
  function Run(s: string): (n: nat)
    ensures n <= |s| && '|' !in s[..n] && (n < |s| ==> s[n] == '|')
  {
    if s == "" || s[0] == '|' then 0 else Run(s[1..]) + 1
  }

  /** What successive calls of strtok return: the runs between bars that are not empty. */
  function Tokens(s: string): seq<string>
    decreases |s|
  {
    if s == "" then []
    else if s[0] == '|' then Tokens(s[1..])
    else [s[..Run(s)]] + Tokens(s[Run(s)..])
  }

  predicate Field(w: string) { w != "" && '|' !in w }

  lemma {:induction false} TokensAreFields(s: string, i: nat)
    requires i < |Tokens(s)|
    ensures Field(Tokens(s)[i])
    decreases |s|
  {
    if s[0] == '|' {
      TokensAreFields(s[1..], i);
    } else if i > 0 {
      TokensAreFields(s[Run(s)..], i - 1);
    } else {
      assert s[..Run(s)] != "";
    }
  }

  lemma {:induction false} RunOf(w: string, rest: string)
    requires '|' !in w && (rest == "" || rest[0] == '|')
    ensures Run(w + rest) == |w|
    decreases |w|
  {
    if w == "" {
      assert w + rest == rest;
    } else {
      assert (w + rest)[1..] == w[1..] + rest;
      RunOf(w[1..], rest);
    }
  }

  /** Bars in front are passed over, however many, and a field ends at the next bar or with the text. */
  lemma TokensAre(w: string, s: string)
    requires Field(w)
    ensures Tokens("") == [] && Tokens("|" + s) == Tokens(s)
    ensures Tokens(w) == [w] && Tokens(w + ("|" + s)) == [w] + Tokens(s)
  {
    assert ("|" + s)[1..] == s;
    RunOf(w, "");
    assert w + "" == w && w[|w|..] == "";
    RunOf(w, "|" + s);
    var t := w + ("|" + s);
    assert t[..|w|] == w && t[|w|..] == "|" + s;
  }

  /** Fields that are not empty and have no bar are split where they were joined. */
  lemma {:induction false} FieldsBack(fields: seq<string>)
    requires fields != [] && forall i :: 0 <= i < |fields| ==> Field(fields[i])
    ensures Tokens(Joined(fields)) == fields
    decreases |fields|
  {
    var w := fields[0];
    var s := Joined(fields);
    if |fields| == 1 {
      RunOf(w, "");
      assert w + "" == w && s[|w|..] == "";
    } else {
      var more := Joined(fields[1..]);
      assert s == w + ("|" + more);
      RunOf(w, "|" + more);
      assert s[..|w|] == w && s[|w|..] == "|" + more && ("|" + more)[1..] == more;
      FieldsBack(fields[1..]);
    }
  }

  // ---------------------------------------------------------------------------------------------
  // Printing and parsing
  // ---------------------------------------------------------------------------------------------

  function FieldsOf(c: Command): (fields: seq<string>)
    ensures fields != []
  {
    match c
    case ShowGroups => [Decimal(SHOW_MULTICAST_GROUPS)]
    case ShowClients => [Decimal(SHOW_CLIENTS_ALL)]
    case JobDetails(id) => [Decimal(SHOW_JOB_DETAILS), Decimal(id)]
    case JobResults(id) => [Decimal(SHOW_JOB_RESULTS), Decimal(id)]
    case Execute(task, group, file) => [Decimal(EXEC_JOB), Decimal(task), Decimal(group), file]
    case SetRepository(ip, path, user, password) => [Decimal(SET_REPOSITORY), ip, path, user, password]
    case SetTimeout(seconds) => [Decimal(SET_JOB_TIMEOUT), Decimal(seconds)]
    case SetQueueSize(size) => [Decimal(SET_JOB_QUEUE_SIZE), Decimal(size)]
    case SetLogging(level) => [Decimal(level)]
  }

  /** What the client sends. */
  function Print(c: Command): string { Joined(FieldsOf(c)) }

  /** A command, an opcode the server does not know, or a field that strtok does not find. */
  datatype Parsed = Known(command: Command) | Unknown(opcode: int) | Missing

  function Interpret(tokens: seq<string>): Parsed {
    if tokens == [] then Missing
    else
      var opcode, n := Atoi(tokens[0]), |tokens|;
      if opcode == SHOW_MULTICAST_GROUPS then Known(ShowGroups)
      else if opcode == SHOW_CLIENTS_ALL then Known(ShowClients)
      else if opcode == SHOW_JOB_DETAILS then (if n < 2 then Missing else Known(JobDetails(Atoi(tokens[1]))))
      else if opcode == SHOW_JOB_RESULTS then (if n < 2 then Missing else Known(JobResults(Atoi(tokens[1]))))
      else if opcode == SET_REPOSITORY then
        (if n < 5 then Missing else Known(SetRepository(tokens[1], tokens[2], tokens[3], tokens[4])))
      else if opcode == SET_JOB_TIMEOUT then (if n < 2 then Missing else Known(SetTimeout(Atoi(tokens[1]))))
      else if opcode == SET_JOB_QUEUE_SIZE then (if n < 2 then Missing else Known(SetQueueSize(Atoi(tokens[1]))))
      else if opcode == EXEC_JOB then
        (if n < 4 then Missing else Known(Execute(Atoi(tokens[1]), Atoi(tokens[2]), tokens[3])))
      else if LOGGING_LEVEL_ERROR <= opcode <= LOGGING_LEVEL_DEBUG then Known(SetLogging(opcode))
      else Unknown(opcode)
  }

  lemma JoinedTwo(a: string, b: string)
    ensures Joined([a]) == a && Joined([a, b]) == a + "|" + b
  {
    assert [a, b][1..] == [b];
  }

  lemma JoinedFour(a: string, b: string, c: string, d: string)
    ensures Joined([a, b, c, d]) == a + "|" + b + "|" + c + "|" + d
  {
    assert [a, b, c, d][1..] == [b, c, d] && [b, c, d][1..] == [c, d];
    JoinedTwo(c, d);
    assert a + "|" + (b + "|" + (c + "|" + d)) == a + "|" + b + "|" + c + "|" + d;
  }

  lemma OneDigit()
    ensures Decimal(0) == "0" && Decimal(1) == "1" && Decimal(2) == "2" && Decimal(3) == "3"
    ensures Decimal(4) == "4" && Decimal(5) == "5" && Decimal(6) == "6" && Decimal(7) == "7"
  {
  }

  /** The text of every command: the digits of its opcode, then its fields in order. */
  lemma PrintedAs(c: Command)
    ensures Print(c) == match c
      case ShowGroups => "0"
      case ShowClients => "1"
      case JobDetails(id) => "2" + "|" + Decimal(id)
      case JobResults(id) => "3" + "|" + Decimal(id)
      case Execute(task, group, file) => "4" + "|" + Decimal(task) + "|" + Decimal(group) + "|" + file
      case SetRepository(ip, path, user, password) => "5" + "|" + ip + "|" + path + "|" + user + "|" + password
      case SetTimeout(seconds) => "6" + "|" + Decimal(seconds)
      case SetQueueSize(size) => "7" + "|" + Decimal(size)
      case SetLogging(level) => Decimal(level)
  {
    OneDigit();
    hide Decimal, Joined;
    match c
    case ShowGroups => JoinedTwo("0", "");
    case ShowClients => JoinedTwo("1", "");
    case JobDetails(id) => JoinedTwo("2", Decimal(id));
    case JobResults(id) => JoinedTwo("3", Decimal(id));
    case Execute(task, group, file) => JoinedFour("4", Decimal(task), Decimal(group), file);
    case SetRepository(ip, path, user, password) => JoinedFive("5", ip, path, user, password);
    case SetTimeout(seconds) => JoinedTwo("6", Decimal(seconds));
    case SetQueueSize(size) => JoinedTwo("7", Decimal(size));
    case SetLogging(level) => JoinedTwo(Decimal(level), "");
  }

  lemma JoinedFive(a: string, b: string, c: string, d: string, e: string)
    ensures Joined([a, b, c, d, e]) == a + "|" + b + "|" + c + "|" + d + "|" + e
  {
    assert [a, b, c, d, e][1..] == [b, c, d, e];
    JoinedFour(b, c, d, e);
    assert a + "|" + (b + "|" + c + "|" + d + "|" + e) == a + "|" + b + "|" + c + "|" + d + "|" + e;
  }

  function FieldsNeeded(opcode: int): nat {
    if opcode in {2, 3, 6, 7} then 2 else if opcode == 4 then 4 else if opcode == 5 then 5 else 1
  }

  /** Which opcodes there are, and which of them need how many fields. */
  lemma UnderstoodIff(tokens: seq<string>)
    ensures Interpret(tokens).Unknown? <==> tokens != [] && !(0 <= Atoi(tokens[0]) <= 10)
    ensures Interpret(tokens).Missing? <==> |tokens| == 0 || |tokens| < FieldsNeeded(Atoi(tokens[0]))
  {
    hide Atoi;
  }

  /** The words of a command that are printed as they are. */
  function TextsOf(c: Command): seq<string> {
    match c
    case Execute(_, _, file) => [file]
    case SetRepository(ip, path, user, password) => [ip, path, user, password]
    case _ => []
  }

  predicate Sendable(c: Command) { c.SetLogging? ==> LOGGING_LEVEL_ERROR <= c.level <= LOGGING_LEVEL_DEBUG }

  lemma NumbersAreFields(n: int)
    ensures Field(Decimal(n))
  {
  }

  lemma AllFields(c: Command)
    requires forall i :: 0 <= i < |TextsOf(c)| ==> Field(TextsOf(c)[i])
    ensures forall i :: 0 <= i < |FieldsOf(c)| ==> Field(FieldsOf(c)[i])
  {
    forall n: int
      ensures Field(Decimal(n))
    {
      NumbersAreFields(n);
    }
    hide Decimal, Field;
    match c
    case Execute(_, _, file) => assert Field(TextsOf(c)[0]);
    case SetRepository(ip, path, user, password) =>
      assert TextsOf(c)[0] == ip && TextsOf(c)[1] == path && TextsOf(c)[2] == user && TextsOf(c)[3] == password;
    case _ =>
  }

  lemma Understood(c: Command)
    requires Sendable(c)
    ensures Interpret(FieldsOf(c)) == Known(c)
  {
    forall n: int
      ensures Atoi(Decimal(n)) == n
    {
      NumberBack(n, "");
      assert Decimal(n) + "" == Decimal(n);
    }
    hide Decimal, Atoi;
  }

  lemma InterpretedTexts(tokens: seq<string>, c: Command)
    requires Interpret(tokens) == Known(c)
    ensures forall i :: 0 <= i < |TextsOf(c)| ==> TextsOf(c)[i] in tokens
  {
    hide Atoi;
  }

  /** The server understands a command as the client meant it exactly if its words are not empty and have no bar. */
  lemma CommandBackIff(c: Command)
    requires Sendable(c)
    ensures Interpret(Tokens(Print(c))) == Known(c)
      <==> forall i :: 0 <= i < |TextsOf(c)| ==> Field(TextsOf(c)[i])
  {
    if forall i :: 0 <= i < |TextsOf(c)| ==> Field(TextsOf(c)[i]) {
      AllFields(c);
      FieldsBack(FieldsOf(c));
      Understood(c);
    }
    if Interpret(Tokens(Print(c))) == Known(c) {
      var tokens := Tokens(Print(c));
      InterpretedTexts(tokens, c);
      forall i | 0 <= i < |TextsOf(c)|
        ensures Field(TextsOf(c)[i])
      {
        var k :| 0 <= k < |tokens| && tokens[k] == TextsOf(c)[i];
        TokensAreFields(Print(c), k);
      }
    }
  }

  // ---------------------------------------------------------------------------------------------
  // The server's side
  // ---------------------------------------------------------------------------------------------

  /** strtok's saved position in the buffer it cuts up. */
  class StrTok {
    const buf: string
    var at: nat

    ghost predicate Valid()
      reads this
    {
      at <= |buf|
    }

    ghost function Left(): seq<string>
      requires Valid()
      reads this
    {
      Tokens(buf[at..])
    }

    constructor (buf: string)
      ensures Valid() && Left() == Tokens(buf)
    {
      this.buf, at := buf, 0;
      new;
      assert buf[0..] == buf;
    }

    method SkipBars()
      requires Valid()
      modifies this
      ensures Valid() && Left() == old(Left()) && (at < |buf| ==> buf[at] != '|')
    {
      while at < |buf| && buf[at] == '|'
        invariant Valid() && Left() == old(Left())
        decreases |buf| - at
      {
        assert buf[at..][1..] == buf[at + 1..];
        at := at + 1;
      }
    }

    method TakeRun() returns (token: string)
      requires Valid()
      modifies this
      ensures Valid() && at == old(at) + Run(buf[old(at)..]) && token == buf[old(at)..at]
    {
      var start := at;
      while at < |buf| && buf[at] != '|'
        invariant start <= at <= |buf| && Run(buf[start..]) == at - start + Run(buf[at..])
        decreases |buf| - at
      {
        assert buf[at..][1..] == buf[at + 1..];
        at := at + 1;
      }
      token := buf[start..at];
    }

    /** `strtok (NULL, "|")`. */
    method Next() returns (token: Option<string>)
      requires Valid()
      modifies this
      ensures Valid()
      ensures token == None <==> old(Left()) == []
      ensures token == None ==> Left() == []
      ensures token.Some? ==> old(Left()) == [token.value] + Left()
    {
      SkipBars();
      if at == |buf| {
        return None;
      }
      hide Run;
      ghost var rest := buf[at..];
      var start := at;
      var run := TakeRun();
      assert rest[..at - start] == run && rest[at - start..] == buf[at..];
      token := Some(run);
    }
  }

  /** `sh_parse_cmd`, as far as taking the command apart goes. */
  method ParseCmd(buff: string) returns (r: Parsed)
    ensures r == Interpret(Tokens(buff))
  {
    hide Tokens, Atoi;
    ghost var tokens := Tokens(buff);
    var strtok := new StrTok(buff);
    var first := strtok.Next();
    if first == None {
      return Missing;
    }
    var opcode := Atoi(first.value);
    if opcode == SHOW_MULTICAST_GROUPS {
      return Known(ShowGroups);
    } else if opcode == SHOW_CLIENTS_ALL {
      return Known(ShowClients);
    } else if opcode == SHOW_JOB_DETAILS || opcode == SHOW_JOB_RESULTS {
      var id := strtok.Next();
      if id == None {
        return Missing;
      }
      return Known(if opcode == SHOW_JOB_DETAILS then JobDetails(Atoi(id.value)) else JobResults(Atoi(id.value)));
    } else if opcode == SET_REPOSITORY {
      r := ParseRepository(strtok, tokens);
    } else if opcode == SET_JOB_TIMEOUT || opcode == SET_JOB_QUEUE_SIZE {
      var value := strtok.Next();
      if value == None {
        return Missing;
      }
      var number := Atoi(value.value);
      return Known(if opcode == SET_JOB_TIMEOUT then SetTimeout(number) else SetQueueSize(number));
    } else if opcode == EXEC_JOB {
      r := ParseExecute(strtok, tokens);
    } else if LOGGING_LEVEL_ERROR <= opcode <= LOGGING_LEVEL_DEBUG {
      return Known(SetLogging(opcode));
    } else {
      return Unknown(opcode);
    }
  }

  method ParseRepository(strtok: StrTok, ghost tokens: seq<string>) returns (r: Parsed)
    requires strtok.Valid() && tokens != [] && strtok.Left() == tokens[1..]
    modifies strtok
    ensures r == if |tokens| < 5 then Missing else Known(SetRepository(tokens[1], tokens[2], tokens[3], tokens[4]))
  {
    hide Tokens;
    var repo := strtok.Next();
    var path := strtok.Next();
    var user := strtok.Next();
    var pwd := strtok.Next();
    if pwd == None {
      return Missing;
    }
    r := Known(SetRepository(repo.value, path.value, user.value, pwd.value));
  }

  method ParseExecute(strtok: StrTok, ghost tokens: seq<string>) returns (r: Parsed)
    requires strtok.Valid() && tokens != [] && strtok.Left() == tokens[1..]
    modifies strtok
    ensures r == if |tokens| < 4 then Missing else Known(Execute(Atoi(tokens[1]), Atoi(tokens[2]), tokens[3]))
  {
    hide Tokens, Atoi;
    var task := strtok.Next();
    var group := strtok.Next();
    var file := strtok.Next();
    if file == None {
      return Missing;
    }
    r := Known(Execute(Atoi(task.value), Atoi(group.value), file.value));
  }
}
