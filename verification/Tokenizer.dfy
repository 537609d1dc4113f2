/** The word splitter of the command line (client/src/cli_commands.c, cli_parse_line). */
module Tokenizer {
  import opened Wrappers

  predicate Quote(c: char) { c == '"' || c == '\'' }

  /** The main loop from position p on: where the open word starts, the quote that is open, the words so far. */
  function Scan(line: string, p: nat, start: Option<nat>, inquote: Option<char>, words: seq<string>, max: int):
    (r: seq<string>)
    requires p <= |line| && (start.Some? ==> start.value <= p) && (inquote.Some? ==> start.Some?)
    requires inquote.Some? ==> Quote(inquote.value)
    requires words == [] || |words| <= max - 1
    ensures r == [] || |r| <= max - 1
    decreases 2 * (|line| - p) + if start.Some? then 1 else 0
  {
    if |words| >= max - 1 then words
    else if p == |line| || Some(line[p]) == inquote ||
      (start.Some? && inquote == None && (line[p] == ' ' || line[p] == '|'))
    then
      var words' := if start.Some? then words + [line[start.value..p]] else words;
      if p == |line| then words'
      else Scan(line, if inquote.Some? then p + 1 else p, None, None, words', max)
    else if Quote(line[p]) then Scan(line, p + 1, Some(p + 1), Some(line[p]), words, max)
    else if start == None && line[p] == '|' then Scan(line, p + 1, None, inquote, words + ["|"], max)
    else if start == None && line[p] != ' ' then Scan(line, p + 1, Some(p), inquote, words, max)
    else Scan(line, p + 1, start, inquote, words, max)
  }

  /** The first loop: the position of the first character that is not a space. */
  function SkipSpaces(line: string, p: nat): (r: nat)
    requires p <= |line|
    ensures p <= r <= |line| && (r < |line| ==> line[r] != ' ') && forall i :: p <= i < r ==> line[i] == ' '
    decreases |line| - p
  {
    if p < |line| && line[p] == ' ' then SkipSpaces(line, p + 1) else p
  }

  function Parse(line: string, max: int): (r: seq<string>)
    ensures r == [] || |r| <= max - 1
  {
    var p := SkipSpaces(line, 0);
    Scan(line, p, if p < |line| then Some(p) else None, None, [], max)
  }

  /** `cli_parse_line`. */
  method CliParseLine(line: string, words: array<string>, maxWords: int) returns (nwords: nat)
    requires maxWords <= words.Length
    modifies words
    ensures nwords <= words.Length && words[..nwords] == Parse(line, maxWords)
    ensures forall i :: nwords <= i < words.Length ==> words[i] == old(words[i])
  {
    nwords := 0;
    var p := 0;
    var wordStart: Option<nat> := None;
    var inquote: Option<char> := None;
    while p < |line|
      invariant p <= |line| && SkipSpaces(line, p) == SkipSpaces(line, 0) && wordStart == None
    {
      if line[p] != ' ' {
        wordStart := Some(p);
        break;
      }
      p := p + 1;
    }
    while nwords < maxWords - 1
      invariant p <= |line| && (wordStart.Some? ==> wordStart.value <= p) && (inquote.Some? ==> wordStart.Some?)
      invariant inquote.Some? ==> Quote(inquote.value)
      invariant nwords <= words.Length && (nwords == 0 || nwords <= maxWords - 1)
      invariant Parse(line, maxWords) == Scan(line, p, wordStart, inquote, words[..nwords], maxWords)
      invariant forall i :: nwords <= i < words.Length ==> words[i] == old(words[i])
      decreases 2 * (|line| - p) + if wordStart.Some? then 1 else 0
    {
      if p == |line| || Some(line[p]) == inquote ||
        (wordStart.Some? && inquote == None && (line[p] == ' ' || line[p] == '|'))
      {
        if wordStart.Some? {
          ghost var was := words[..nwords];
          words[nwords] := line[wordStart.value..p];
          nwords := nwords + 1;
          assert words[..nwords] == was + [line[wordStart.value..p]];
        }
        if p == |line| {
          break;
        }
        if inquote.Some? {
          p := p + 1;
        }
        inquote, wordStart := None, None;
      } else if Quote(line[p]) {
        inquote, p := Some(line[p]), p + 1;
        wordStart := Some(p);
      } else {
        if wordStart == None {
          if line[p] == '|' {
            ghost var was := words[..nwords];
            words[nwords] := "|";
            nwords := nwords + 1;
            assert words[..nwords] == was + ["|"];
          } else if line[p] != ' ' {
            wordStart := Some(p);
          }
        }
        p := p + 1;
      }
    }
  }

  // ---------------------------------------------------------------------------------------------
  // Printing words so that they are read back
  // ---------------------------------------------------------------------------------------------

  /** A word as it is typed: as it is, between quotes, or a bar. */
  datatype Typed = Plain(word: string) | Quoted(quote: char, word: string) | Bar

  function WordOf(t: Typed): string {
    match t
    case Plain(word) => word
    case Quoted(_, word) => word
    case Bar => "|"
  }

  function Show(t: Typed): string {
    match t
    case Plain(word) => word
    case Quoted(quote, word) => [quote] + word + [quote]
    case Bar => "|"
  }

  predicate Free(w: string) { forall i :: 0 <= i < |w| ==> !Quote(w[i]) }

  predicate Joined(w: string) { forall i :: 0 <= i < |w| ==> w[i] != ' ' && w[i] != '|' }

  /** A plain word is not empty and has no space, bar or quote; a quoted one has no quote of either kind. */
  predicate Readable(t: Typed) {
    match t
    case Plain(word) => word != "" && Free(word) && Joined(word)
    case Quoted(quote, word) => Quote(quote) && Free(word)
    case Bar => true
  }

  function Spaces(n: nat): string { seq(n, _ => ' ') }

  /** A word with the number of spaces in front of it. */
  datatype Item = Item(gap: nat, typed: Typed)

  function Render(items: seq<Item>, trailing: nat): string {
    if items == [] then Spaces(trailing)
    else Spaces(items[0].gap) + Show(items[0].typed) + Render(items[1..], trailing)
  }

  function WordsOf(items: seq<Item>): seq<string> {
    seq(|items|, i requires 0 <= i < |items| => WordOf(items[i].typed))
  }

  /** From this position on the line reads so. */
  predicate Reads(line: string, p: nat, s: string) { p + |s| <= |line| && line[p..p + |s|] == s }

  lemma ReadsSplit(line: string, p: nat, s: string, t: string)
    requires Reads(line, p, s + t)
    ensures Reads(line, p, s) && Reads(line, p + |s|, t)
  {
    assert line[p..p + |s|] == line[p..p + |s + t|][..|s|];
    assert line[p + |s|..p + |s| + |t|] == line[p..p + |s + t|][|s|..];
  }

  lemma ReadsAt(line: string, p: nat, s: string, i: nat)
    requires Reads(line, p, s) && i < |s|
    ensures p + i < |line| && line[p + i] == s[i]
  {
    assert line[p..p + |s|][i] == s[i];
  }

  lemma {:induction false} ScanSpaces(line: string, p: nat, n: nat, words: seq<string>, max: int)
    requires Reads(line, p, Spaces(n)) && (words == [] || |words| <= max - 1)
    ensures Scan(line, p, None, None, words, max) == Scan(line, p + n, None, None, words, max)
    decreases n
  {
    if n > 0 {
      ReadsAt(line, p, Spaces(n), 0);
      assert Spaces(n) == " " + Spaces(n - 1);
      ReadsSplit(line, p, " ", Spaces(n - 1));
      ScanSpaces(line, p + 1, n - 1, words, max);
    }
  }

  /** Inside an open word the characters that do not end it are passed over. */
  lemma {:induction false} ScanWord(line: string, p: nat, w: string, start: nat, inquote: Option<char>,
                                    words: seq<string>, max: int)
    requires Reads(line, p, w) && start <= p && |words| < max - 1 && Free(w)
    requires inquote.Some? ==> Quote(inquote.value)
    requires inquote == None ==> Joined(w)
    ensures Scan(line, p, Some(start), inquote, words, max) == Scan(line, p + |w|, Some(start), inquote, words, max)
    decreases |w|
  {
    if w != "" {
      ReadsAt(line, p, w, 0);
      assert w == [w[0]] + w[1..];
      ReadsSplit(line, p, [w[0]], w[1..]);
      ScanWord(line, p + 1, w[1..], start, inquote, words, max);
    }
  }

  /** What ends a plain word. */
  predicate WordEnds(line: string, p: nat) { p == |line| || (p < |line| && (line[p] == ' ' || line[p] == '|')) }

  lemma ScanPlain(line: string, p: nat, w: string, words: seq<string>, max: int)
    requires Reads(line, p, w) && |words| < max - 1 && Readable(Plain(w))
    requires WordEnds(line, p + |w|)
    ensures Scan(line, p, None, None, words, max) == Scan(line, p + |w|, None, None, words + [w], max)
  {
    ReadsAt(line, p, w, 0);
    assert w == [w[0]] + w[1..];
    ReadsSplit(line, p, [w[0]], w[1..]);
    assert Scan(line, p, None, None, words, max) == Scan(line, p + 1, Some(p), None, words, max);
    ScanWord(line, p + 1, w[1..], p, None, words, max);
    assert line[p..p + |w|] == w;
  }

  lemma ScanQuoted(line: string, p: nat, quote: char, w: string, words: seq<string>, max: int)
    requires Reads(line, p, [quote] + w + [quote]) && |words| < max - 1 && Readable(Quoted(quote, w))
    ensures Scan(line, p, None, None, words, max) == Scan(line, p + |w| + 2, None, None, words + [w], max)
  {
    ReadsSplit(line, p, [quote] + w, [quote]);
    ReadsSplit(line, p, [quote], w);
    ReadsAt(line, p, [quote], 0);
    ReadsAt(line, p + 1 + |w|, [quote], 0);
    assert Scan(line, p, None, None, words, max) == Scan(line, p + 1, Some(p + 1), Some(quote), words, max);
    ScanWord(line, p + 1, w, p + 1, Some(quote), words, max);
  }

  lemma ScanTyped(line: string, p: nat, t: Typed, words: seq<string>, max: int)
    requires Reads(line, p, Show(t)) && |words| < max - 1 && Readable(t)
    requires t.Plain? ==> WordEnds(line, p + |Show(t)|)
    ensures Scan(line, p, None, None, words, max) == Scan(line, p + |Show(t)|, None, None, words + [WordOf(t)], max)
  {
    match t
    case Plain(w) => ScanPlain(line, p, w, words, max);
    case Quoted(quote, w) => ScanQuoted(line, p, quote, w, words, max);
    case Bar => ReadsAt(line, p, "|", 0);
  }

  /** After a plain word comes a space, a bar or the end of the line; a quoted word or a bar needs nothing after it. */
  predicate Apart(a: Item, b: Item) { b.gap > 0 || b.typed.Bar? || !a.typed.Plain? }

  predicate AllApart(items: seq<Item>) { forall i :: 0 < i < |items| ==> Apart(items[i - 1], items[i]) }

  lemma EndOrRest(line: string, p: nat, a: Item, rest: seq<Item>, trailing: nat)
    requires Reads(line, p, Render(rest, trailing)) && p + |Render(rest, trailing)| == |line|
    requires a.typed.Plain? && (rest == [] || Apart(a, rest[0]))
    ensures WordEnds(line, p)
  {
    if |Render(rest, trailing)| > 0 { ReadsAt(line, p, Render(rest, trailing), 0); }
  }

  predicate Typeable(items: seq<Item>) {
    AllApart(items) && forall i :: 0 <= i < |items| ==> Readable(items[i].typed)
  }

  /** What is left of the line. */
  predicate Remains(line: string, p: nat, s: string) { p <= |line| && line[p..] == s }

  lemma TypeableRest(items: seq<Item>)
    requires Typeable(items) && items != []
    ensures Readable(items[0].typed) && Typeable(items[1..])
  {
    hide Readable;
  }

  /** Where the parts of a rendered line lie. */
  lemma Parts(line: string, p: nat, items: seq<Item>, trailing: nat)
    requires Remains(line, p, Render(items, trailing)) && items != [] && Typeable(items)
    ensures var q := p + items[0].gap; var r := q + |Show(items[0].typed)|;
      && Reads(line, p, Spaces(items[0].gap)) && Reads(line, q, Show(items[0].typed))
      && r <= |line| && Remains(line, r, Render(items[1..], trailing))
      && (items[0].typed.Plain? ==> WordEnds(line, r))
  {
    hide Show, Readable;
    var gap, first, more := Spaces(items[0].gap), Show(items[0].typed), Render(items[1..], trailing);
    var r := p + |gap| + |first|;
    assert Reads(line, p, gap + first + more);
    ReadsSplit(line, p, gap + first, more);
    ReadsSplit(line, p, gap, first);
    assert line[r..] == more;
    if items[0].typed.Plain? { EndOrRest(line, r, items[0], items[1..], trailing); }
  }

  function Then(words: seq<string>, items: seq<Item>): seq<string> { words + WordsOf(items) }

  lemma ThenCons(words: seq<string>, items: seq<Item>)
    requires items != []
    ensures Then(words, items) == Then(words + [WordOf(items[0].typed)], items[1..])
  {
    hide WordOf;
  }

  lemma ThenNone(words: seq<string>)
    ensures Then(words, []) == words
  {
  }

  lemma ScanTrailing(line: string, p: nat, n: nat, words: seq<string>, max: int)
    requires Remains(line, p, Spaces(n)) && (words == [] || |words| <= max - 1)
    ensures Scan(line, p, None, None, words, max) == words
  {
    assert Reads(line, p, Spaces(n));
    ScanSpaces(line, p, n, words, max);
  }

  lemma {:induction false} ScanItems(line: string, p: nat, items: seq<Item>, trailing: nat, words: seq<string>,
                                     max: int)
    requires p <= |line| && Remains(line, p, Render(items, trailing))
    requires |words| + |items| <= max - 1 || (words == [] && items == [])
    requires Typeable(items)
    ensures Scan(line, p, None, None, words, max) == Then(words, items)
    decreases |items|
  {
    hide Scan, Show, WordOf, Then, Reads, Readable, Remains, Typeable, Spaces;
    if items == [] {
      ScanTrailing(line, p, trailing, words, max);
      ThenNone(words);
    } else {
      hide Render;
      TypeableRest(items);
      Parts(line, p, items, trailing);
      ThenCons(words, items);
      var t := items[0].typed;
      var q := p + items[0].gap;
      ScanSpaces(line, p, items[0].gap, words, max);
      ScanTyped(line, q, t, words, max);
      ScanItems(line, q + |Show(t)|, items[1..], trailing, words + [WordOf(t)], max);
    }
  }

  lemma {:induction false} SkipsGap(line: string, p: nat, n: nat)
    requires p + n <= |line| && forall i :: p <= i < p + n ==> line[i] == ' '
    requires p + n == |line| || line[p + n] != ' '
    ensures SkipSpaces(line, p) == p + n
    decreases n
  {
    if n > 0 { SkipsGap(line, p + 1, n - 1); }
  }

  /** The first loop opens a word already; only a bar there makes a difference. */
  lemma OpenAtOnce(line: string, p: nat, max: int)
    requires p < |line| && line[p] != ' ' && line[p] != '|'
    ensures Scan(line, p, Some(p), None, [], max) == Scan(line, p, None, None, [], max)
  {
  }

  lemma ShowsFirst(t: Typed)
    requires Readable(t) && !t.Bar?
    ensures Show(t) != "" && Show(t)[0] != ' ' && Show(t)[0] != '|'
  {
  }

  lemma StartOfLine(items: seq<Item>, trailing: nat)
    requires Typeable(items) && items != [] && !items[0].typed.Bar?
    ensures var line := Render(items, trailing); var n := items[0].gap;
      SkipSpaces(line, 0) == n && n < |line| && line[n] != ' ' && line[n] != '|' && Reads(line, 0, Spaces(n))
  {
    hide Render, Show, Readable;
    var line := Render(items, trailing);
    var n := items[0].gap;
    assert line[0..] == line;
    Parts(line, 0, items, trailing);
    ShowsFirst(items[0].typed);
    ReadsAt(line, n, Show(items[0].typed), 0);
    forall i | 0 <= i < n
      ensures line[i] == ' '
    {
      ReadsAt(line, 0, Spaces(n), i);
    }
    SkipsGap(line, 0, n);
  }

  /** Up to max - 1 words, typed with any number of spaces between them, and none at all before and after a bar and
      after a quoted word, are read back, unless the first is a bar. */
  lemma WordsBack(items: seq<Item>, trailing: nat, max: int)
    requires |items| <= max - 1 || items == []
    requires Typeable(items) && (items != [] ==> !items[0].typed.Bar?)
    ensures Parse(Render(items, trailing), max) == WordsOf(items)
  {
    var line := Render(items, trailing);
    assert line[0..] == line;
    ScanItems(line, 0, items, trailing, [], max);
    assert [] + WordsOf(items) == WordsOf(items);
    if items == [] {
      SkipsGap(line, 0, trailing);
      assert Reads(line, 0, Spaces(trailing));
      ScanSpaces(line, 0, trailing, [], max);
    } else {
      hide Scan, Render, SkipSpaces, Reads;
      StartOfLine(items, trailing);
      ScanSpaces(line, 0, items[0].gap, [], max);
      OpenAtOnce(line, items[0].gap, max);
    }
  }

  // ---------------------------------------------------------------------------------------------
  // Exactly which words are read back
  // ---------------------------------------------------------------------------------------------

  lemma {:induction false} ScanKeeps(line: string, p: nat, start: Option<nat>, inquote: Option<char>,
                                     words: seq<string>, max: int)
    requires p <= |line| && (start.Some? ==> start.value <= p) && (inquote.Some? ==> start.Some?)
    requires (inquote.Some? ==> Quote(inquote.value)) && (words == [] || |words| <= max - 1)
    ensures words <= Scan(line, p, start, inquote, words, max)
    decreases 2 * (|line| - p) + if start.Some? then 1 else 0
  {
    if |words| < max - 1 {
      if p == |line| {
      } else if Some(line[p]) == inquote ||
        (start.Some? && inquote == None && (line[p] == ' ' || line[p] == '|'))
      {
        ScanKeeps(line, if inquote.Some? then p + 1 else p, None, None, words + [line[start.value..p]], max);
      } else if Quote(line[p]) {
        ScanKeeps(line, p + 1, Some(p + 1), Some(line[p]), words, max);
      } else if start == None && line[p] == '|' {
        ScanKeeps(line, p + 1, None, inquote, words + ["|"], max);
      } else if start == None && line[p] != ' ' {
        ScanKeeps(line, p + 1, Some(p), inquote, words, max);
      } else {
        ScanKeeps(line, p + 1, start, inquote, words, max);
      }
    }
  }

  /** On every line whose first character after the spaces is a bar the first word is empty. */
  lemma LeadingBar(line: string, max: int)
    requires max >= 2 && SkipSpaces(line, 0) < |line| && line[SkipSpaces(line, 0)] == '|'
    ensures Parse(line, max) != [] && Parse(line, max)[0] == ""
  {
    var p := SkipSpaces(line, 0);
    assert line[p..p] == "";
    assert [] + [line[p..p]] == [""];
    assert Scan(line, p, Some(p), None, [], max) == Scan(line, p, None, None, [""], max);
    ScanKeeps(line, p, None, None, [""], max);
  }

  predicate AllFree(words: seq<string>) { forall i :: 0 <= i < |words| ==> Free(words[i]) }

  lemma {:induction false} ScanFree(line: string, p: nat, start: Option<nat>, inquote: Option<char>,
                                    words: seq<string>, max: int)
    requires p <= |line| && (start.Some? ==> start.value <= p) && (inquote.Some? ==> start.Some?)
    requires (inquote.Some? ==> Quote(inquote.value)) && (words == [] || |words| <= max - 1)
    requires AllFree(words) && (start.Some? ==> Free(line[start.value..p]))
    ensures AllFree(Scan(line, p, start, inquote, words, max))
    decreases 2 * (|line| - p) + if start.Some? then 1 else 0
  {
    if p < |line| && start.Some? { assert line[start.value..p + 1] == line[start.value..p] + [line[p]]; }
    if |words| < max - 1 {
      if p == |line| {
      } else if Some(line[p]) == inquote ||
        (start.Some? && inquote == None && (line[p] == ' ' || line[p] == '|'))
      {
        ScanFree(line, if inquote.Some? then p + 1 else p, None, None, words + [line[start.value..p]], max);
      } else if Quote(line[p]) {
        ScanFree(line, p + 1, Some(p + 1), Some(line[p]), words, max);
      } else if start == None && line[p] == '|' {
        ScanFree(line, p + 1, None, inquote, words + ["|"], max);
      } else if start == None && line[p] != ' ' {
        ScanFree(line, p + 1, Some(p), inquote, words, max);
      } else {
        ScanFree(line, p + 1, start, inquote, words, max);
      }
    }
  }

  /** No word of any line has a quote of either kind. */
  lemma ParsedAreFree(line: string, max: int)
    ensures AllFree(Parse(line, max))
  {
    var p := SkipSpaces(line, 0);
    ScanFree(line, p, if p < |line| then Some(p) else None, None, [], max);
  }

  /** A plain word is not empty and has no space or bar; anything at all may stand between quotes. */
  predicate Enterable(t: Typed) {
    match t
    case Plain(word) => word != "" && Joined(word)
    case Quoted(quote, _) => Quote(quote)
    case Bar => true
  }

  lemma StartsWithBar(items: seq<Item>, trailing: nat)
    requires items != [] && items[0].typed.Bar?
    ensures var line := Render(items, trailing);
      SkipSpaces(line, 0) < |line| && line[SkipSpaces(line, 0)] == '|'
  {
    SkipsGap(Render(items, trailing), 0, items[0].gap);
  }

  /** Up to max - 1 words, typed plain, in quotes of either kind or as bars, with spaces at least between a plain word
      and the plain or quoted word after it, are read back exactly if no word has a quote of either kind and the first
      is not a bar. */
  lemma WordsBackIff(items: seq<Item>, trailing: nat, max: int)
    requires |items| <= max - 1 || items == []
    requires AllApart(items) && forall i :: 0 <= i < |items| ==> Enterable(items[i].typed)
    ensures Parse(Render(items, trailing), max) == WordsOf(items)
      <==> AllFree(WordsOf(items)) && (items != [] ==> !items[0].typed.Bar?)
  {
    var line := Render(items, trailing);
    hide Render, Parse;
    assert items != [] ==> WordsOf(items)[0] == WordOf(items[0].typed);
    if AllFree(WordsOf(items)) && (items != [] ==> !items[0].typed.Bar?) {
      forall i | 0 <= i < |items|
        ensures Readable(items[i].typed)
      {
        assert Free(WordsOf(items)[i]);
      }
      WordsBack(items, trailing, max);
    }
    if Parse(line, max) == WordsOf(items) {
      ParsedAreFree(line, max);
      if items != [] && items[0].typed.Bar? {
        StartsWithBar(items, trailing);
        LeadingBar(line, max);
      }
    }
  }

  // ---------------------------------------------------------------------------------------------
  // Lines that are not read as they were typed
  // ---------------------------------------------------------------------------------------------

  function FirstWords(words: seq<string>, items: seq<Item>, n: nat): seq<string>
    requires n <= |items|
  {
    words + WordsOf(items[..n])
  }

  lemma FirstWordsCons(words: seq<string>, items: seq<Item>, n: nat)
    requires 0 < n <= |items|
    ensures FirstWords(words, items, n) == FirstWords(words + [WordOf(items[0].typed)], items[1..], n - 1)
  {
    hide WordOf;
    assert items[..n][0] == items[0] && items[..n][1..] == items[1..][..n - 1];
    ThenCons(words, items[..n]);
  }

  lemma EnoughWords(line: string, p: nat, items: seq<Item>, words: seq<string>, max: int)
    requires p <= |line| && |words| == max - 1
    ensures Scan(line, p, None, None, words, max) == words == FirstWords(words, items, 0)
  {
  }

  lemma {:induction false} ScanFirst(line: string, p: nat, items: seq<Item>, trailing: nat, words: seq<string>,
                                     max: int)
    requires p <= |line| && Remains(line, p, Render(items, trailing)) && Typeable(items)
    requires |words| <= max - 1 <= |words| + |items|
    ensures Scan(line, p, None, None, words, max) == FirstWords(words, items, max - 1 - |words|)
    decreases |items|
  {
    hide Scan, Show, WordOf, FirstWords, Reads, Readable, Remains, Typeable, Spaces, Render;
    if |words| == max - 1 {
      EnoughWords(line, p, items, words, max);
    } else {
      TypeableRest(items);
      Parts(line, p, items, trailing);
      FirstWordsCons(words, items, max - 1 - |words|);
      var t := items[0].typed;
      var q := p + items[0].gap;
      ScanSpaces(line, p, items[0].gap, words, max);
      ScanTyped(line, q, t, words, max);
      ScanFirst(line, q + |Show(t)|, items[1..], trailing, words + [WordOf(t)], max);
    }
  }

  /** Of more words than there is room for the first max - 1 are read. */
  lemma TooManyWords(items: seq<Item>, trailing: nat, max: int)
    requires 0 < max - 1 <= |items| && Typeable(items) && !items[0].typed.Bar?
    ensures Parse(Render(items, trailing), max) == WordsOf(items[..max - 1])
  {
    var line := Render(items, trailing);
    assert line[0..] == line;
    ScanFirst(line, 0, items, trailing, [], max);
    assert [] + WordsOf(items[..max - 1]) == WordsOf(items[..max - 1]);
    hide Scan, Render, SkipSpaces, Reads;
    StartOfLine(items, trailing);
    ScanSpaces(line, 0, items[0].gap, [], max);
    OpenAtOnce(line, items[0].gap, max);
  }

  lemma ScanLost(line: string, p: nat, w: string, words: seq<string>, max: int)
    requires Reads(line, p, w) && |words| < max - 1 && Readable(Plain(w))
    requires p + |w| < |line| && Quote(line[p + |w|])
    ensures Scan(line, p, None, None, words, max) == Scan(line, p + |w|, None, None, words, max)
  {
    ReadsAt(line, p, w, 0);
    assert w == [w[0]] + w[1..];
    ReadsSplit(line, p, [w[0]], w[1..]);
    assert Scan(line, p, None, None, words, max) == Scan(line, p + 1, Some(p), None, words, max);
    ScanWord(line, p + 1, w[1..], p, None, words, max);
  }

  /** Characters directly before a quote are lost. */
  lemma LostBeforeQuote(w: string, items: seq<Item>, trailing: nat, max: int)
    requires Readable(Plain(w)) && items != [] && items[0].gap == 0 && items[0].typed.Quoted?
    requires |items| <= max - 1 && Typeable(items)
    ensures Parse(w + Render(items, trailing), max) == WordsOf(items)
  {
    var more := Render(items, trailing);
    var line := w + more;
    assert more[0] == items[0].typed.quote && line[|w|] == more[0] && line[|w|..] == more;
    assert Reads(line, 0, w) by { assert line[0..|w|] == w; }
    TypeableRest(items);
    assert line[0] == w[0];
    SkipsGap(line, 0, 0);
    OpenAtOnce(line, 0, max);
    hide Scan, Render, SkipSpaces, Typeable;
    ScanLost(line, 0, w, [], max);
    ScanItems(line, |w|, items, trailing, [], max);
    assert [] + WordsOf(items) == WordsOf(items);
  }

  /** A quote that is never closed ends with the line. */
  lemma OpenQuote(quote: char, w: string, max: int)
    requires Quote(quote) && Free(w) && max >= 2
    ensures Parse([quote] + w, max) == [w]
  {
    var line := [quote] + w;
    SkipsGap(line, 0, 0);
    assert Reads(line, 1, w) by { assert line[1..] == w; }
    ScanWord(line, 1, w, 1, Some(quote), [], max);
    assert line[1..|line|] == w && [] + [w] == [w];
  }
}
