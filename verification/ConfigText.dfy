/**
  Configuration files: the line parser with its escapes and continuations, and a
  printer it is the inverse of.
*/
module ConfigText {
  import opened OptionScan
  import opened Expansion

  // ---- characters ----

  predicate Ws(c: char) { c == ' ' || c == '\t' || c == '\r' }

  predicate WsNl(c: char) { Ws(c) || c == '\n' }

  predicate WsNlEq(c: char) { WsNl(c) || c == '=' }

  datatype Class = IsWs | IsWsNl | IsWsNlEq | IsNl
  {
    predicate Has(c: char) {
      match this
      case IsWs => Ws(c)
      case IsWsNl => WsNl(c)
      case IsWsNlEq => WsNlEq(c)
      case IsNl => c == '\n'
    }
  }

  /** find_first_of, the end of the text standing for "none". */
  function FirstOf(t: string, k: Class, i: nat): (j: nat)
    ensures i <= |t| ==> i <= j <= |t|
    ensures i > |t| ==> j == i
    ensures j < |t| ==> k.Has(t[j])
    decreases |t| - i
  {
    if i >= |t| || k.Has(t[i]) then i else FirstOf(t, k, i + 1)
  }

  /** find_first_not_of. */
  function FirstNotOf(t: string, k: Class, i: nat): (j: nat)
    ensures i <= |t| ==> i <= j <= |t|
    ensures i > |t| ==> j == i
    ensures j < |t| ==> !k.Has(t[j])
    decreases |t| - i
  {
    if i >= |t| || !k.Has(t[i]) then i else FirstNotOf(t, k, i + 1)
  }

  // ---- one value ----

  /** What reading a value yields: its characters, where it ends, whether its last one was escaped. */
  datatype Val = Val(chars: string, end: nat, lastEscaped: bool)

  function Unescaped(c: char): string {
    match c
    case 't' => "\t"
    case 'r' => "\r"
    case 'n' => "\n"
    case _ => [c]
  }

  /** The first character after a backslash-newline and the blanks that follow it. */
  function Continued(t: string, pos: nat): (q: nat)
    requires pos < |t|
    ensures pos < q
  {
    var q := FirstNotOf(t, IsWs, pos + 1);
    if q < |t| then q else |t| + 1
  }

  function ReadValue(t: string, pos: nat, escaped: bool, last: bool): (v: Val)
    ensures v.end >= pos
    ensures pos < |t| && t[pos] != '\n' ==> v.end > pos
    decreases if pos <= |t| then |t| - pos else 0
  {
    if pos >= |t| || (!escaped && t[pos] == '\n') then Val("", pos, last)
    else if t[pos] == '\r' then ReadValue(t, pos + 1, escaped, last)
    else if !escaped then
      if t[pos] == '\\' then ReadValue(t, pos + 1, true, false)
      else Prepend([t[pos]], ReadValue(t, pos + 1, false, false))
    else if t[pos] == '\n' then ReadValue(t, Continued(t, pos), false, true)
    else Prepend(Unescaped(t[pos]), ReadValue(t, pos + 1, false, true))
  }

  function Prepend(s: string, v: Val): Val {
    v.(chars := s + v.chars)
  }

  lemma PrependTwice(a: string, b: string, v: Val)
    ensures Prepend(a, Prepend(b, v)) == Prepend(a + b, v)
  {
    assert a + (b + v.chars) == a + b + v.chars;
  }

  function Trimmed(s: string): string {
    if s != "" && WsNl(s[|s| - 1]) then Trimmed(s[..|s| - 1]) else s
  }

  // ---- a whole text ----

  datatype OptionText = OptionText(word: string, end: nat)

  /** The option that starts at index start. */
  function OptionAt(t: string, start: nat): (o: OptionText)
    requires start < |t| && !WsNl(t[start])
    ensures start < o.end
  {
    var optend := FirstOf(t, IsWsNlEq, start);
    var word, p := "--" + t[start..optend], FirstNotOf(t, IsWs, optend);
    if p >= |t| || t[p] == '\n' then OptionText(word, p)
    else
      var v := ReadValue(t, p, false, false);
      OptionText(Ended(Glued(word, t[p], v.chars), v.lastEscaped), v.end)
  }

  /** Name and value with one '=' between them; first is the value's first raw character. */
  function Glued(word: string, first: char, chars: string): string {
    word + (if first != '=' then "=" else "") + chars
  }

  /** Blanks at the end go, unless the last character was escaped. */
  function Ended(s: string, escaped: bool): string {
    if escaped then s else Trimmed(s)
  }

  /** The option words a text stands for, from index pos on. */
  function WordsFrom(t: string, pos: nat): seq<string>
    decreases |t| - pos
  {
    var start := FirstNotOf(t, IsWsNl, pos);
    if start >= |t| then []
    else if t[start] == '#' then WordsFrom(t, FirstOf(t, IsNl, start))
    else
      var o := OptionAt(t, start);
      [o.word] + WordsFrom(t, o.end)
  }

  method ParseFile(t: string) returns (words: seq<string>)
    ensures words == WordsFrom(t, 0)
  {
    words := [];
    var pos := 0;
    while pos < |t|
      invariant words + WordsFrom(t, pos) == WordsFrom(t, 0)
      decreases |t| - pos
    {
      var start := FirstNotOf(t, IsWsNl, pos);
      if start >= |t| {
        return;
      }
      if t[start] == '#' {
        pos := FirstOf(t, IsNl, start);
        continue;
      }
      var optarg: string;
      optarg, pos := ReadOption(t, start);
      assert words + ([optarg] + WordsFrom(t, pos)) == words + [optarg] + WordsFrom(t, pos);
      words := words + [optarg];
    }
  }

  method ReadOption(t: string, start: nat) returns (optarg: string, pos: nat)
    requires start < |t| && !WsNl(t[start])
    ensures OptionText(optarg, pos) == OptionAt(t, start)
  {
    var optend := FirstOf(t, IsWsNlEq, start);
    optarg := "--" + t[start..optend];
    pos := FirstNotOf(t, IsWs, optend);
    if pos < |t| && t[pos] != '\n' {
      optarg, pos := ReadSetting(t, optarg, pos);
    }
  }

  /** An option with a value, which starts at p. */
  method ReadSetting(t: string, word: string, p: nat) returns (optarg: string, pos: nat)
    requires p < |t| && t[p] != '\n'
    ensures var v := ReadValue(t, p, false, false);
            pos == v.end && optarg == Ended(Glued(word, t[p], v.chars), v.lastEscaped)
  {
    optarg := if t[p] != '=' then word + "=" else word;
    assert word + "" == word;
    var v := ScanValue(t, p);
    optarg, pos := optarg + v.chars, v.end;
    if !v.lastEscaped {
      optarg := TrimEnd(optarg);
    }
  }

  /** The inner loop of parse_file. */
  method ScanValue(t: string, p: nat) returns (v: Val)
    ensures v == ReadValue(t, p, false, false)
  {
    var pos, chars, escape, lastEscaped := p, "", false, false;
    while pos < |t| && (escape || t[pos] != '\n')
      invariant Prepend(chars, ReadValue(t, pos, escape, lastEscaped)) == ReadValue(t, p, false, false)
      decreases if pos <= |t| then |t| - pos else 0
    {
      if t[pos] == '\r' {
        pos := pos + 1;
        continue;
      }
      if !escape {
        lastEscaped := false;
        if t[pos] == '\\' {
          escape := true;
        } else {
          PrependTwice(chars, [t[pos]], ReadValue(t, pos + 1, false, false));
          chars := chars + [t[pos]];
        }
        pos := pos + 1;
        continue;
      }
      escape := false;
      lastEscaped := true;
      if t[pos] == '\n' {
        pos := Continued(t, pos);
      } else {
        PrependTwice(chars, Unescaped(t[pos]), ReadValue(t, pos + 1, false, true));
        chars := chars + Unescaped(t[pos]);
        pos := pos + 1;
      }
    }
    return Val(chars, pos, lastEscaped);
  }

  method TrimEnd(s: string) returns (r: string)
    ensures r == Trimmed(s)
  {
    r := s;
    while r != "" && WsNl(r[|r| - 1])
      invariant Trimmed(r) == Trimmed(s)
      decreases |r|
    {
      r := r[..|r| - 1];
    }
  }

  // ---- printing ----

  predicate NeedsEscape(c: char) {
    WsNlEq(c) || c == '\\'
  }

  function EscapeChar(c: char): string {
    match c
    case '\t' => "\\t"
    case '\r' => "\\r"
    case '\n' => "\\n"
    case _ => if NeedsEscape(c) then ['\\', c] else [c]
  }

  function Escape(v: string): string {
    if v == "" then "" else EscapeChar(v[0]) + Escape(v[1..])
  }

  /** One option of a configuration; a spaced one is written "name value". */
  datatype Setting =
    | Flag(name: string)
    | With(name: string, value: string, spaced: bool)

  /** A name; before '=' it may be missing. */
  predicate NameOk(n: string) {
    (n != "" ==> n[0] != '#') && forall i :: 0 <= i < |n| ==> !WsNlEq(n[i])
  }

  /** A name that can stand at the start of a line. */
  predicate ConfigName(n: string) {
    n != "" && NameOk(n)
  }

  predicate Printable(s: Setting) {
    ConfigName(s.name) && (s.With? && s.spaced ==> s.value != "")
  }

  function Line(s: Setting): string {
    match s
    case Flag(n) => n
    case With(n, v, spaced) => n + (if spaced then " " else "=") + Escape(v)
  }

  function Print(ss: seq<Setting>): string {
    if ss == [] then "" else Line(ss[0]) + "\n" + Print(ss[1..])
  }

  function Word(s: Setting): string {
    match s
    case Flag(n) => "--" + n
    case With(n, v, _) => "--" + n + "=" + v
  }

  function WordsOf(ss: seq<Setting>): seq<string> {
    if ss == [] then [] else [Word(ss[0])] + WordsOf(ss[1..])
  }

  // ---- what a text means, declared ----

  /**
    A piece of a value as it is written: a character as it stands; a backslash and the
    character it quotes; or a backslash, the end of the line, and the blanks that follow.
    Carriage returns after a backslash are passed over.
  */
  datatype Bit =
    | Raw(c: char)
    | Escaped(c: char, crs: nat)
    | Joined(crs: nat, blanks: string)

  predicate Blank(s: string) {
    forall k :: 0 <= k < |s| ==> Ws(s[k])
  }

  function Returns(n: nat): (s: string)
    ensures |s| == n && forall k :: 0 <= k < n ==> s[k] == '\r'
  {
    seq(n, _ => '\r')
  }

  /** The character that stands for c after a backslash. */
  function Code(c: char): char {
    match c
    case '\t' => 't'
    case '\r' => 'r'
    case '\n' => 'n'
    case _ => c
  }

  function BitText(b: Bit): string {
    match b
    case Raw(c) => [c]
    case Escaped(c, crs) => "\\" + Returns(crs) + [Code(c)]
    case Joined(crs, blanks) => "\\" + Returns(crs) + "\n" + blanks
  }

  function BitChars(b: Bit): string {
    match b
    case Raw(c) => if c == '\r' then "" else [c]
    case Escaped(c, _) => [c]
    case Joined(_, _) => ""
  }

  predicate BitOk(b: Bit) {
    match b
    case Raw(c) => c != '\\' && c != '\n'
    case Escaped(c, _) => c != 't' && c != 'r' && c != 'n'
    case Joined(_, blanks) => Blank(blanks)
  }

  function BitsText(bs: seq<Bit>): string {
    if bs == [] then "" else BitText(bs[0]) + BitsText(bs[1..])
  }

  function BitsChars(bs: seq<Bit>): string {
    if bs == [] then "" else BitChars(bs[0]) + BitsChars(bs[1..])
  }

  predicate StartsBlank(s: string) {
    s != "" && Ws(s[0])
  }

  /** All blanks after the end of a joined line belong to it. */
  predicate BitsOk(bs: seq<Bit>) {
    bs == [] ||
    (BitOk(bs[0]) && BitsOk(bs[1..]) && (bs[0].Joined? ==> !StartsBlank(BitsText(bs[1..]))))
  }

  /** The last character of the value, or the end of its last line, had a backslash. */
  predicate EndsQuoted(bs: seq<Bit>, before: bool) {
    if bs == [] then before
    else EndsQuoted(bs[1..], if bs[0].Raw? then bs[0].c == '\r' && before else true)
  }

  /** What a value means: its characters, without the blanks at the end unless a backslash comes last. */
  function Value(bs: seq<Bit>): string {
    if EndsQuoted(bs, false) then BitsChars(bs) else Trimmed(BitsChars(bs))
  }

  /** Trimming takes the blanks at the end, all of them and nothing else. */
  lemma {:induction false} TrimmedMeans(s: string) returns (blanks: string)
    ensures s == Trimmed(s) + blanks && forall k :: 0 <= k < |blanks| ==> WsNl(blanks[k])
    ensures Trimmed(s) != "" ==> !WsNl(Trimmed(s)[|Trimmed(s)| - 1])
    decreases |s|
  {
    if s == "" || !WsNl(s[|s| - 1]) {
      blanks := "";
    } else {
      var more := TrimmedMeans(s[..|s| - 1]);
      blanks := more + [s[|s| - 1]];
    }
  }

  /** A line of a text as it is written. */
  datatype Layout =
    | Empty(blanks: string)
    | Comment(indent: string, text: string)
    | FlagLine(indent: string, name: string, blanks: string)
    | ValueLine(indent: string, name: string, blanks: string, eq: bool, bits: seq<Bit>)

  function LayoutText(y: Layout): string {
    match y
    case Empty(blanks) => blanks
    case Comment(indent, text) => indent + ("#" + text)
    case FlagLine(indent, name, blanks) => indent + (name + blanks)
    case ValueLine(indent, name, blanks, eq, bits) =>
      indent + (name + (blanks + ((if eq then "=" else "") + BitsText(bits))))
  }

  predicate LayoutOk(y: Layout) {
    match y
    case Empty(blanks) => Blank(blanks)
    case Comment(indent, text) => Blank(indent) && '\n' !in text
    case FlagLine(indent, name, blanks) => Blank(indent) && name != "" && NameOk(name) && Blank(blanks)
    case ValueLine(indent, name, blanks, eq, bits) =>
      && Blank(indent) && NameOk(name) && Blank(blanks) && BitsOk(bits)
      && (name == "" ==> blanks == "" && eq)
      && (!eq ==> blanks != "" && BitsText(bits) != "" && !Ws(BitsText(bits)[0]) && BitsText(bits)[0] != '=')
  }

  /** The option word a line stands for, if it stands for one. */
  function LayoutWords(y: Layout): seq<string> {
    match y
    case Empty(_) => []
    case Comment(_, _) => []
    case FlagLine(_, name, _) => ["--" + name]
    case ValueLine(_, name, _, _, bits) => ["--" + name + "=" + Value(bits)]
  }

  function LayoutsWords(ys: seq<Layout>): seq<string> {
    if ys == [] then [] else LayoutWords(ys[0]) + LayoutsWords(ys[1..])
  }

  function LayoutsText(ys: seq<Layout>): string {
    if ys == [] then "" else LayoutText(ys[0]) + "\n" + LayoutsText(ys[1..])
  }

  /** The line ends in the middle of a value that goes on in the next. */
  predicate GoesOn(y: Layout) {
    y.ValueLine? && y.bits != [] && y.bits[|y.bits| - 1].Joined?
  }

  // ---- reading a value ----

  /** part stands in t at position i. */
  predicate Here(t: string, i: nat, part: string) {
    i + |part| <= |t| && t[i..i + |part|] == part
  }

  lemma HereSplits(t: string, i: nat, a: string, b: string)
    requires Here(t, i, a + b)
    ensures Here(t, i, a) && Here(t, i + |a|, b)
    ensures a != "" ==> t[i] == a[0]
  {
    assert t[i..i + |a|] == t[i..i + |a + b|][..|a|] == a;
    assert t[i + |a|..i + |a| + |b|] == t[i..i + |a + b|][|a|..] == b;
    assert a != "" ==> t[i] == t[i..i + |a|][0];
  }

  lemma HereAt(t: string, i: nat, part: string, k: nat)
    requires Here(t, i, part) && k < |part|
    ensures t[i + k] == part[k]
  {
    assert t[i + k] == t[i..i + |part|][k];
  }

  lemma HereFits(t: string, i: nat, part: string)
    requires Here(t, i, part)
    ensures i + |part| <= |t|
  {
  }

  /** The line that ends at e ends there. */
  predicate LineEnds(t: string, e: nat) {
    e == |t| || (e < |t| && t[e] == '\n')
  }

  lemma {:induction false} ReturnsAreSkipped(t: string, p: nat, n: nat, escaped: bool, last: bool)
    requires Here(t, p, Returns(n))
    ensures ReadValue(t, p, escaped, last) == ReadValue(t, p + n, escaped, last)
    decreases n
  {
    hide Here;
    if n == 0 {
    } else {
      HereAt(t, p, Returns(n), 0);
      HereFits(t, p, Returns(n));
      assert Here(t, p + 1, Returns(n - 1)) by {
        assert Returns(n) == "\r" + Returns(n - 1);
        HereSplits(t, p, "\r", Returns(n - 1));
      }
      ReturnsAreSkipped(t, p + 1, n - 1, escaped, last);
    }
  }

  lemma EscapedText(b: Bit)
    requires b.Escaped?
    ensures BitText(b) == "\\" + Returns(b.crs) + [Code(b.c)] && |BitText(b)| == 2 + b.crs
  {
  }

  lemma QuotedReads(t: string, p: nat, b: Bit, last: bool)
    requires b.Escaped? && BitOk(b) && Here(t, p, BitText(b))
    ensures ReadValue(t, p, false, last) == Prepend(BitChars(b), ReadValue(t, p + |BitText(b)|, false, true))
  {
    hide ReadValue, Returns, Here, BitText, Code;
    EscapedText(b);
    var rs, q := Returns(b.crs), p + 1 + b.crs;
    BackslashSplits(t, p, rs, [Code(b.c)]);
    ReturnsAreSkipped(t, p + 1, b.crs, true, false);
    HereAt(t, q, [Code(b.c)], 0);
    QuotedStep(t, q, b.c);
    BackslashStep(t, p, last);
  }

  lemma BackslashSplits(t: string, p: nat, rs: string, rest: string)
    requires Here(t, p, "\\" + rs + rest)
    ensures p < |t| && t[p] == '\\' && Here(t, p + 1, rs) && Here(t, p + 1 + |rs|, rest)
  {
    Associates("\\", rs, rest);
    HereSplits(t, p, "\\", rs + rest);
    HereSplits(t, p + 1, rs, rest);
  }

  lemma BackslashStep(t: string, p: nat, last: bool)
    requires p < |t| && t[p] == '\\'
    ensures ReadValue(t, p, false, last) == ReadValue(t, p + 1, true, false)
  {
  }

  lemma QuotedStep(t: string, q: nat, c: char)
    requires q < |t| && t[q] == Code(c) && c != 't' && c != 'r' && c != 'n'
    ensures ReadValue(t, q, true, false) == Prepend([c], ReadValue(t, q + 1, false, true))
  {
  }

  lemma JoinedReads(t: string, p: nat, b: Bit, last: bool)
    requires b.Joined? && BitOk(b) && Here(t, p, BitText(b))
    requires var e := p + |BitText(b)|; e < |t| && !Ws(t[e])
    ensures ReadValue(t, p, false, last) == ReadValue(t, p + |BitText(b)|, false, true)
  {
    hide ReadValue, Returns, FirstNotOf, Here, Blank, Ws, BitText;
    var rs, q, e := Returns(b.crs), p + 1 + b.crs, p + |BitText(b)|;
    JoinedText(b);
    BackslashSplits(t, p, rs, "\n" + b.blanks);
    HereSplits(t, q, "\n", b.blanks);
    HereFits(t, q, "\n" + b.blanks);
    ReturnsAreSkipped(t, p + 1, b.crs, true, false);
    BackslashStep(t, p, last);
    HereAt(t, q, "\n" + b.blanks, 0);
    PassedTo(t, q, b.blanks);
    JoinedStep(t, q);
  }

  lemma JoinedText(b: Bit)
    requires b.Joined?
    ensures BitText(b) == "\\" + Returns(b.crs) + ("\n" + b.blanks)
    ensures |BitText(b)| == 2 + b.crs + |b.blanks|
  {
    Associates("\\" + Returns(b.crs), "\n", b.blanks);
  }

  lemma JoinedStep(t: string, q: nat)
    requires q < |t| && t[q] == '\n'
    ensures ReadValue(t, q, true, false) == ReadValue(t, Continued(t, q), false, true)
  {
  }

  lemma PassedTo(t: string, q: nat, blanks: string)
    requires q < |t| && Here(t, q + 1, blanks) && Blank(blanks)
    requires q + 1 + |blanks| < |t| && !Ws(t[q + 1 + |blanks|])
    ensures Continued(t, q) == q + 1 + |blanks|
  {
    hide FirstNotOf, Here, Blank, Ws;
    BlanksArePassed(t, q + 1, blanks, IsWs);
  }

  // Blanks are passed over in one go.
  lemma {:induction false} BlanksArePassed(t: string, i: nat, blanks: string, k: Class)
    requires Here(t, i, blanks) && Blank(blanks) && (k.IsWs? || k.IsWsNl?)
    requires i + |blanks| < |t| ==> !k.Has(t[i + |blanks|])
    ensures FirstNotOf(t, k, i) == i + |blanks|
    decreases |blanks|
  {
    if blanks == "" {
    } else {
      assert blanks == [blanks[0]] + blanks[1..];
      HereSplits(t, i, [blanks[0]], blanks[1..]);
      BlanksArePassed(t, i + 1, blanks[1..], k);
    }
  }

  lemma RawReads(t: string, p: nat, c: char, last: bool)
    requires p < |t| && t[p] == c && c != '\\' && c != '\n'
    ensures ReadValue(t, p, false, last) ==
            Prepend(BitChars(Raw(c)), ReadValue(t, p + 1, false, c == '\r' && last))
  {
    var v := ReadValue(t, p + 1, false, c == '\r' && last);
    assert "" + v.chars == v.chars;
  }

  lemma PrependNothing(v: Val)
    ensures Prepend("", v) == v
  {
    assert "" + v.chars == v.chars;
  }

  // One piece of a value reads as its characters.
  lemma BitReads(t: string, p: nat, b: Bit, last: bool)
    requires BitOk(b) && Here(t, p, BitText(b))
    requires b.Joined? ==> p + |BitText(b)| < |t| && !Ws(t[p + |BitText(b)|])
    ensures ReadValue(t, p, false, last) ==
            Prepend(BitChars(b), ReadValue(t, p + |BitText(b)|, false,
                                           if b.Raw? then b.c == '\r' && last else true))
  {
    match b
    case Raw(c) =>
      HereAt(t, p, [c], 0);
      RawReads(t, p, c, last);
    case Escaped(_, _) => QuotedReads(t, p, b, last);
    case Joined(_, _) =>
      JoinedReads(t, p, b, last);
      PrependNothing(ReadValue(t, p + |BitText(b)|, false, true));
  }

  lemma BitsStep(t: string, p: nat, bs: seq<Bit>)
    requires bs != [] && BitsOk(bs) && Here(t, p, BitsText(bs))
    ensures BitOk(bs[0]) && BitsOk(bs[1..]) && Here(t, p, BitText(bs[0]))
    ensures Here(t, p + |BitText(bs[0])|, BitsText(bs[1..]))
    ensures |BitsText(bs)| == |BitText(bs[0])| + |BitsText(bs[1..])|
    ensures bs[0].Joined? && bs[1..] != [] ==>
              p + |BitText(bs[0])| < |t| && !Ws(t[p + |BitText(bs[0])|])
  {
    hide BitText, BitOk, Ws, Here;
    var more := BitsText(bs[1..]);
    HereSplits(t, p, BitText(bs[0]), more);
    if bs[1..] != [] {
      BitsAreSome(bs[1..]);
      HereAt(t, p + |BitText(bs[0])|, more, 0);
      HereFits(t, p + |BitText(bs[0])|, more);
    }
  }

  lemma BitsAreSome(bs: seq<Bit>)
    requires bs != []
    ensures BitsText(bs) != ""
  {
  }

  /** Any value as it may be written reads as its characters, up to the end of its line. */
  lemma {:induction false} BitsRead(t: string, p: nat, bs: seq<Bit>, last: bool)
    requires BitsOk(bs) && Here(t, p, BitsText(bs)) && LineEnds(t, p + |BitsText(bs)|)
    requires bs != [] && bs[|bs| - 1].Joined? ==> p + |BitsText(bs)| < |t|
    ensures ReadValue(t, p, false, last) == Val(BitsChars(bs), p + |BitsText(bs)|, EndsQuoted(bs, last))
    decreases |bs|
  {
    hide ReadValue, BitText, BitChars, BitOk, Here, Ws;
    if bs == [] {
      EndReads(t, p, last);
    } else {
      var b, more := bs[0], bs[1..];
      var q, now := p + |BitText(b)|, if b.Raw? then b.c == '\r' && last else true;
      BitsStep(t, p, bs);
      NewlineIsNoBlank();
      BitReads(t, p, b, last);
      BitsRead(t, q, more, now);
    }
  }

  lemma NewlineIsNoBlank()
    ensures !Ws('\n')
  {
  }

  lemma EndReads(t: string, p: nat, last: bool)
    requires LineEnds(t, p)
    ensures ReadValue(t, p, false, last) == Val("", p, last)
  {
  }

  // ---- reading a line ----

  lemma {:induction false} FirstOfIs(t: string, k: Class, i: nat, j: nat)
    requires i <= j <= |t| && (j < |t| ==> k.Has(t[j])) && forall m :: i <= m < j ==> !k.Has(t[m])
    ensures FirstOf(t, k, i) == j
    decreases j - i
  {
    if i == j {
    } else {
      FirstOfIs(t, k, i + 1, j);
    }
  }

  lemma NameEnds(t: string, i: nat, n: string)
    requires NameOk(n) && Here(t, i, n)
    requires var e := i + |n|; e < |t| ==> WsNlEq(t[e])
    ensures FirstOf(t, IsWsNlEq, i) == i + |n| && t[i..i + |n|] == n
  {
    forall m | i <= m < i + |n| ensures !WsNlEq(t[m]) {
      HereAt(t, i, n, m - i);
    }
    FirstOfIs(t, IsWsNlEq, i, i + |n|);
  }

  lemma FlagReads(t: string, i: nat, n: string, blanks: string)
    requires n != "" && NameOk(n) && Blank(blanks) && Here(t, i, n + blanks) && LineEnds(t, i + |n + blanks|)
    ensures i < |t| && !WsNl(t[i]) && t[i] != '#'
    ensures OptionAt(t, i) == OptionText("--" + n, i + |n + blanks|)
  {
    hide ReadValue, FirstOf, FirstNotOf, Here, OptionAt;
    var e := i + |n|;
    HereSplits(t, i, n, blanks);
    HereFits(t, i, n + blanks);
    BareOptionAt(t, i, e, e + |blanks|);
    assert blanks != "" ==> Ws(blanks[0]);
    NameEnds(t, i, n);
    BlanksArePassed(t, e, blanks, IsWs);
  }

  lemma BareOptionAt(t: string, i: nat, e: nat, p: nat)
    requires i < |t| && LineEnds(t, p)
    ensures !WsNl(t[i]) && FirstOf(t, IsWsNlEq, i) == e && i <= e <= |t| && FirstNotOf(t, IsWs, e) == p ==>
              OptionAt(t, i) == OptionText("--" + t[i..e], p)
  {
    hide ReadValue;
  }

  lemma {:induction false} TrimmedConcat(s: string, v: string)
    requires s != "" && !WsNl(s[|s| - 1])
    ensures Trimmed(s + v) == s + Trimmed(v)
    decreases |v|
  {
    if v == "" || !WsNl(v[|v| - 1]) {
      assert s + "" == s;
    } else {
      assert (s + v)[..|s + v| - 1] == s + v[..|v| - 1];
      TrimmedConcat(s, v[..|v| - 1]);
    }
  }

  lemma WordGlues(n: string, first: char, v: string)
    ensures Glued("--" + n, '=', "=" + v) == "--" + n + "=" + v
    ensures first != '=' ==> Glued("--" + n, first, v) == "--" + n + "=" + v
  {
    Associates("--" + n, "=", v);
    assert "--" + n + "" == "--" + n;
  }

  lemma WordEnds(n: string, bs: seq<Bit>)
    ensures Ended("--" + n + "=" + BitsChars(bs), EndsQuoted(bs, false)) == "--" + n + "=" + Value(bs)
  {
    TrimmedConcat("--" + n + "=", BitsChars(bs));
  }

  // The value that starts at p, its '=' included if it has one.
  lemma ValueAt(t: string, p: nat, n: string, eq: bool, bs: seq<Bit>)
    requires BitsOk(bs) && Here(t, p, (if eq then "=" else "") + BitsText(bs))
    requires var e := p + |(if eq then "=" else "") + BitsText(bs)|;
             LineEnds(t, e) && (bs != [] && bs[|bs| - 1].Joined? ==> e < |t|)
    requires !eq ==> BitsText(bs) != "" && BitsText(bs)[0] != '='
    ensures p < |t| && t[p] == if eq then '=' else BitsText(bs)[0]
    ensures var r := ReadValue(t, p, false, false);
            && r.end == p + |(if eq then "=" else "") + BitsText(bs)|
            && Ended(Glued("--" + n, t[p], r.chars), r.lastEscaped) == "--" + n + "=" + Value(bs)
  {
    hide ReadValue, BitText, BitChars, Ended, Glued, Value, Here;
    if eq {
      var all := [Raw('=')] + bs;
      EqualsBit(bs);
      assert all[|all| - 1].Joined? ==> bs != [] && bs[|bs| - 1].Joined?;
      HereAt(t, p, "=" + BitsText(bs), 0);
      BitsRead(t, p, all, false);
    } else {
      assert "" + BitsText(bs) == BitsText(bs);
      HereAt(t, p, BitsText(bs), 0);
      BitsRead(t, p, bs, false);
    }
    WordGlues(n, t[p], BitsChars(bs));
    WordEnds(n, bs);
  }

  lemma EqualsBit(bs: seq<Bit>)
    requires BitsOk(bs)
    ensures var all := [Raw('=')] + bs;
            && BitsOk(all) && BitsText(all) == "=" + BitsText(bs) && BitsChars(all) == "=" + BitsChars(bs)
            && EndsQuoted(all, false) == EndsQuoted(bs, false)
  {
    assert ([Raw('=')] + bs)[1..] == bs;
  }

  lemma BitsStart(bs: seq<Bit>)
    requires BitsOk(bs) && bs != []
    ensures BitsText(bs) != "" && BitsText(bs)[0] != '\n'
  {
  }

  lemma ValueLineReads(t: string, i: nat, n: string, blanks: string, eq: bool, bs: seq<Bit>)
    requires LayoutOk(ValueLine("", n, blanks, eq, bs))
    requires Here(t, i, n + (blanks + ((if eq then "=" else "") + BitsText(bs))))
    requires var e := i + |n + (blanks + ((if eq then "=" else "") + BitsText(bs)))|;
             LineEnds(t, e) && (bs != [] && bs[|bs| - 1].Joined? ==> e < |t|)
    ensures i < |t| && !WsNl(t[i]) && t[i] != '#'
    ensures OptionAt(t, i) ==
            OptionText("--" + n + "=" + Value(bs), i + |n + (blanks + ((if eq then "=" else "") + BitsText(bs)))|)
  {
    hide ReadValue, BitText, BitChars, Value, BitsOk, BitsText, Ended, Glued, FirstOf, FirstNotOf, Here, OptionAt;
    var raw := (if eq then "=" else "") + BitsText(bs);
    var e, p := i + |n|, i + |n| + |blanks|;
    HereSplits(t, i, n, blanks + raw);
    HereSplits(t, e, blanks, raw);
    HereFits(t, p, raw);
    ValueAt(t, p, n, eq, bs);
    if bs != [] {
      BitsStart(bs);
    }
    NothingIsNoText();
    assert blanks != "" ==> Ws(blanks[0]);
    NameEnds(t, i, n);
    BlanksArePassed(t, e, blanks, IsWs);
    OptionAtIs(t, i, e, p);
  }

  lemma OptionAtIs(t: string, i: nat, e: nat, p: nat)
    requires i < |t| && !WsNl(t[i]) && i <= e <= p < |t| && t[p] != '\n'
    requires FirstOf(t, IsWsNlEq, i) == e && FirstNotOf(t, IsWs, e) == p
    ensures var r := ReadValue(t, p, false, false);
            OptionAt(t, i) ==
            OptionText(Ended(Glued("--" + t[i..e], t[p], r.chars), r.lastEscaped), r.end)
  {
  }

  lemma NothingIsNoText()
    ensures BitsText([]) == ""
  {
  }

  // ---- reading a text ----

  lemma SameStart(t: string, i: nat, j: nat)
    requires FirstNotOf(t, IsWsNl, i) == FirstNotOf(t, IsWsNl, j)
    ensures WordsFrom(t, i) == WordsFrom(t, j)
  {
  }

  lemma {:induction false} BlanksAreSkipped(t: string, i: nat, blanks: string)
    requires Here(t, i, blanks) && Blank(blanks)
    ensures WordsFrom(t, i) == WordsFrom(t, i + |blanks|)
    decreases |blanks|
  {
    hide WordsFrom, Here;
    if blanks == "" {
    } else {
      assert blanks == [blanks[0]] + blanks[1..];
      HereSplits(t, i, [blanks[0]], blanks[1..]);
      HereFits(t, i, [blanks[0]]);
      SameStart(t, i, i + 1);
      BlanksAreSkipped(t, i + 1, blanks[1..]);
    }
  }

  /** Where the next line starts. */
  function NextLine(t: string, e: nat): nat {
    if e < |t| then e + 1 else e
  }

  lemma LineEndIsSkipped(t: string, e: nat)
    requires LineEnds(t, e)
    ensures WordsFrom(t, e) == WordsFrom(t, NextLine(t, e))
  {
    if e < |t| {
      SameStart(t, e, e + 1);
    }
  }

  lemma CommentIsSkipped(t: string, i: nat, text: string)
    requires '\n' !in text && Here(t, i, "#" + text) && LineEnds(t, i + |"#" + text|)
    ensures WordsFrom(t, i) == WordsFrom(t, i + |"#" + text|)
  {
    var e := i + |"#" + text|;
    forall m | i <= m < e ensures t[m] != '\n' {
      HereAt(t, i, "#" + text, m - i);
    }
    HereAt(t, i, "#" + text, 0);
    FirstOfIs(t, IsNl, i, e);
  }

  lemma OptionIsRead(t: string, i: nat, word: string, e: nat)
    requires i < |t| && !WsNl(t[i]) && t[i] != '#' && OptionAt(t, i) == OptionText(word, e)
    ensures WordsFrom(t, i) == [word] + WordsFrom(t, e)
  {
    assert FirstNotOf(t, IsWsNl, i) == i;
  }

  /** Any line reads as the word it stands for, and reading goes on with the next. */
  lemma LineReads(t: string, i: nat, y: Layout)
    requires LayoutOk(y) && Here(t, i, LayoutText(y)) && LineEnds(t, i + |LayoutText(y)|)
    requires GoesOn(y) ==> i + |LayoutText(y)| < |t|
    ensures WordsFrom(t, i) == LayoutWords(y) + WordsFrom(t, NextLine(t, i + |LayoutText(y)|))
  {
    hide WordsFrom, OptionAt, BitsText, BitsOk, Value, Here, Blank, NameOk;
    var e := i + |LayoutText(y)|;
    LineEndIsSkipped(t, e);
    match y
    case Empty(blanks) => BlanksAreSkipped(t, i, blanks);
    case Comment(indent, text) => CommentLineIsSkipped(t, i, indent, text);
    case FlagLine(_, _, _) => FlagLineIsRead(t, i, y);
    case ValueLine(_, _, _, _, _) => ValueLineIsRead(t, i, y);
  }

  lemma CommentLineIsSkipped(t: string, i: nat, indent: string, text: string)
    requires Blank(indent) && '\n' !in text && Here(t, i, indent + ("#" + text))
    requires LineEnds(t, i + |indent + ("#" + text)|)
    ensures WordsFrom(t, i) == WordsFrom(t, i + |indent + ("#" + text)|)
  {
    hide WordsFrom, Here, Blank;
    HereSplits(t, i, indent, "#" + text);
    BlanksAreSkipped(t, i, indent);
    CommentIsSkipped(t, i + |indent|, text);
  }

  lemma FlagLineIsRead(t: string, i: nat, y: Layout)
    requires y.FlagLine? && LayoutOk(y) && Here(t, i, LayoutText(y)) && LineEnds(t, i + |LayoutText(y)|)
    ensures WordsFrom(t, i) == LayoutWords(y) + WordsFrom(t, i + |LayoutText(y)|)
  {
    hide WordsFrom, OptionAt, Here, Blank, NameOk, Ws;
    var start := i + |y.indent|;
    HereSplits(t, i, y.indent, y.name + y.blanks);
    BlanksAreSkipped(t, i, y.indent);
    FlagReads(t, start, y.name, y.blanks);
    OptionIsRead(t, start, "--" + y.name, i + |LayoutText(y)|);
  }

  lemma ValueLineIsRead(t: string, i: nat, y: Layout)
    requires y.ValueLine? && LayoutOk(y) && Here(t, i, LayoutText(y)) && LineEnds(t, i + |LayoutText(y)|)
    requires GoesOn(y) ==> i + |LayoutText(y)| < |t|
    ensures WordsFrom(t, i) == LayoutWords(y) + WordsFrom(t, i + |LayoutText(y)|)
  {
    hide WordsFrom, OptionAt, Here, Blank, NameOk, Ws, BitsText, BitsOk, Value, LayoutText, LayoutOk, LayoutWords;
    ValueLineParts(y);
    var start, raw := i + |y.indent|, (if y.eq then "=" else "") + BitsText(y.bits);
    HereSplits(t, i, y.indent, y.name + (y.blanks + raw));
    BlanksAreSkipped(t, i, y.indent);
    ValueLineReads(t, start, y.name, y.blanks, y.eq, y.bits);
    OptionIsRead(t, start, "--" + y.name + "=" + Value(y.bits), i + |LayoutText(y)|);
  }

  lemma ValueLineParts(y: Layout)
    requires y.ValueLine? && LayoutOk(y)
    ensures LayoutText(y) == y.indent + (y.name + (y.blanks + ((if y.eq then "=" else "") + BitsText(y.bits))))
    ensures Blank(y.indent) && LayoutOk(ValueLine("", y.name, y.blanks, y.eq, y.bits))
    ensures LayoutWords(y) == ["--" + y.name + "=" + Value(y.bits)]
  {
    hide BitsText, BitsOk, Value;
    PlainBlanks();
  }

  /** The lines ys make up t from i on; the last may lack its newline, if its value does not go on. */
  predicate Stands(t: string, i: nat, ys: seq<Layout>)
    decreases |ys|
  {
    if ys == [] then i == |t|
    else
      var e := i + |LayoutText(ys[0])|;
      && LayoutOk(ys[0]) && Here(t, i, LayoutText(ys[0])) && LineEnds(t, e)
      && (if e < |t| then Stands(t, e + 1, ys[1..]) else ys[1..] == [] && !GoesOn(ys[0]))
  }

  lemma {:induction false} LinesRead(t: string, i: nat, ys: seq<Layout>)
    requires Stands(t, i, ys)
    ensures WordsFrom(t, i) == LayoutsWords(ys)
    decreases |ys|
  {
    hide LayoutText, LayoutWords, LayoutOk, GoesOn, Here;
    if ys == [] {
      assert WordsFrom(t, |t|) == [];
    } else {
      hide WordsFrom;
      var e := i + |LayoutText(ys[0])|;
      LineReads(t, i, ys[0]);
      if e < |t| {
        LinesRead(t, e + 1, ys[1..]);
      } else {
        NothingFrom(t);
      }
    }
  }

  lemma NothingFrom(t: string)
    ensures WordsFrom(t, |t|) == []
  {
  }

  lemma {:induction false} TextStands(t: string, i: nat, ys: seq<Layout>)
    requires (forall k :: 0 <= k < |ys| ==> LayoutOk(ys[k])) && Here(t, i, LayoutsText(ys))
    requires i + |LayoutsText(ys)| == |t|
    ensures Stands(t, i, ys)
    decreases |ys|
  {
    hide LayoutText, LayoutOk;
    if ys == [] {
    } else {
      var line, more := LayoutText(ys[0]), LayoutsText(ys[1..]);
      LinesSplit(t, i, line, more);
      TextStands(t, i + |line| + 1, ys[1..]);
    }
  }

  lemma LinesSplit(t: string, i: nat, line: string, more: string)
    requires Here(t, i, line + "\n" + more)
    ensures Here(t, i, line) && Here(t, i + |line| + 1, more)
    ensures i + |line| < |t| && t[i + |line|] == '\n'
  {
    Associates(line, "\n", more);
    HereSplits(t, i, line, "\n" + more);
    HereSplits(t, i + |line|, "\n", more);
  }

  lemma {:induction false} UnfinishedStands(t: string, i: nat, ys: seq<Layout>, y: Layout)
    requires forall k :: 0 <= k < |ys| ==> LayoutOk(ys[k])
    requires LayoutOk(y) && !GoesOn(y) && Here(t, i, LayoutsText(ys) + LayoutText(y))
    requires i + |LayoutsText(ys) + LayoutText(y)| == |t|
    ensures Stands(t, i, ys + [y])
    decreases |ys|
  {
    hide LayoutText, LayoutOk, GoesOn;
    if ys == [] {
      assert ys + [y] == [y] && [y][1..] == [] && LayoutsText(ys) + LayoutText(y) == LayoutText(y);
    } else {
      var line, more := LayoutText(ys[0]), LayoutsText(ys[1..]);
      assert (ys + [y])[1..] == ys[1..] + [y];
      Associates(line + "\n", more, LayoutText(y));
      LinesSplit(t, i, line, more + LayoutText(y));
      UnfinishedStands(t, i + |line| + 1, ys[1..], y);
    }
  }

  /**
    What parse_file makes of a text: the words its option lines stand for, in order.  Empty
    lines and comments stand for none.
  */
  lemma ParsedMeans(ys: seq<Layout>)
    requires forall k :: 0 <= k < |ys| ==> LayoutOk(ys[k])
    ensures WordsFrom(LayoutsText(ys), 0) == LayoutsWords(ys)
  {
    TextStands(LayoutsText(ys), 0, ys);
    LinesRead(LayoutsText(ys), 0, ys);
  }

  /** The same when the last line has no newline. */
  lemma ParsedUnfinished(ys: seq<Layout>, y: Layout)
    requires forall k :: 0 <= k < |ys| ==> LayoutOk(ys[k])
    requires LayoutOk(y) && !GoesOn(y)
    ensures WordsFrom(LayoutsText(ys) + LayoutText(y), 0) == LayoutsWords(ys + [y])
  {
    var t := LayoutsText(ys) + LayoutText(y);
    UnfinishedStands(t, 0, ys, y);
    LinesRead(t, 0, ys + [y]);
  }

  // ---- the printer writes such texts ----

  function BitsOf(v: string): seq<Bit> {
    if v == "" then []
    else [if NeedsEscape(v[0]) then Escaped(v[0], 0) else Raw(v[0])] + BitsOf(v[1..])
  }

  lemma BitOfChar(c: char)
    ensures var b := if NeedsEscape(c) then Escaped(c, 0) else Raw(c);
            BitOk(b) && BitText(b) == EscapeChar(c) && BitChars(b) == [c] && !b.Joined?
  {
    assert "\\" + Returns(0) + [Code(c)] == ['\\', Code(c)];
  }

  lemma {:induction false} BitsOfEscape(v: string, before: bool)
    ensures BitsOk(BitsOf(v)) && BitsText(BitsOf(v)) == Escape(v) && BitsChars(BitsOf(v)) == v
    ensures EndsQuoted(BitsOf(v), before) == if v == "" then before else NeedsEscape(v[|v| - 1])
    ensures BitsOf(v) != [] ==> !BitsOf(v)[|BitsOf(v)| - 1].Joined?
    decreases |v|
  {
    hide BitOk, BitText, BitChars, NeedsEscape, EscapeChar, BitsOk, BitsText, BitsChars, EndsQuoted;
    if v == "" {
      NoBits(before);
    } else {
      var b := if NeedsEscape(v[0]) then Escaped(v[0], 0) else Raw(v[0]);
      BitOfChar(v[0]);
      NeedsEscapeReturn();
      BitsOfEscape(v[1..], NeedsEscape(v[0]));
      OneMoreBit(b, BitsOf(v[1..]), before);
      assert v == [v[0]] + v[1..];
    }
  }

  lemma NoBits(before: bool)
    ensures BitsOk([]) && BitsText([]) == "" && BitsChars([]) == "" && EndsQuoted([], before) == before
  {
  }

  lemma OneMoreBit(b: Bit, bs: seq<Bit>, before: bool)
    requires BitOk(b) && BitsOk(bs) && !b.Joined?
    ensures var all := [b] + bs;
            && BitsOk(all) && BitsText(all) == BitText(b) + BitsText(bs) && BitsChars(all) == BitChars(b) + BitsChars(bs)
            && EndsQuoted(all, before) == EndsQuoted(bs, if b.Raw? then b.c == '\r' && before else true)
  {
    hide BitOk, BitText, BitChars;
    assert ([b] + bs)[1..] == bs;
  }

  lemma NeedsEscapeReturn()
    ensures NeedsEscape('\r')
  {
  }

  lemma ValueOfBits(v: string)
    ensures Value(BitsOf(v)) == v
  {
    BitsOfEscape(v, false);
  }

  function LayoutOf(s: Setting): Layout {
    match s
    case Flag(n) => FlagLine("", n, "")
    case With(n, v, spaced) => ValueLine("", n, if spaced then " " else "", !spaced, BitsOf(v))
  }

  lemma PrintedLine(s: Setting)
    requires Printable(s)
    ensures LayoutOk(LayoutOf(s)) && LayoutText(LayoutOf(s)) == Line(s) && LayoutWords(LayoutOf(s)) == [Word(s)]
  {
    hide Value, BitsOk, BitsText, Escape, BitsOf, WsNlEq, Ws;
    PlainBlanks();
    match s
    case Flag(n) => assert "" + (n + "") == n;
    case With(n, v, spaced) =>
      BitsOfEscape(v, false);
      ValueOfBits(v);
      if spaced {
        EscapedStart(v);
        assert "" + (n + (" " + ("" + Escape(v)))) == n + " " + Escape(v);
      } else {
        assert "" + (n + ("" + ("=" + Escape(v)))) == n + "=" + Escape(v);
      }
  }

  lemma PlainBlanks()
    ensures Blank("") && Blank(" ")
  {
  }

  lemma EscapedStart(v: string)
    requires v != ""
    ensures Escape(v) != "" && !Ws(Escape(v)[0]) && Escape(v)[0] != '='
  {
    assert Escape(v)[0] == EscapeChar(v[0])[0];
  }

  lemma {:induction false} PrintedLines(ss: seq<Setting>) returns (ys: seq<Layout>)
    requires forall k :: 0 <= k < |ss| ==> Printable(ss[k])
    ensures forall k :: 0 <= k < |ys| ==> LayoutOk(ys[k])
    ensures LayoutsText(ys) == Print(ss) && LayoutsWords(ys) == WordsOf(ss)
    decreases |ss|
  {
    hide Printable, LayoutOk, LayoutText, LayoutWords, Line, Word, LayoutOf;
    if ss == [] {
      ys := [];
    } else {
      var more := PrintedLines(ss[1..]);
      PrintedLine(ss[0]);
      ys := [LayoutOf(ss[0])] + more;
      assert ys[1..] == more;
    }
  }

  /** parse_file is the inverse of printing. */
  lemma PrintedReads(ss: seq<Setting>)
    requires forall k :: 0 <= k < |ss| ==> Printable(ss[k])
    ensures WordsFrom(Print(ss), 0) == WordsOf(ss)
  {
    var ys := PrintedLines(ss);
    ParsedMeans(ys);
  }

  // ---- from text to invocations ----

  /** What a list of words makes the parser invoke, up to the first one it rejects. */
  function Invoked(acts: Actions, words: seq<string>): (seq<Item>, bool) {
    if words == [] then ([], true)
    else
      var r := ScanAll(acts, words[..1]);
      if r.items == [] || !Final(r.items).Good() then ([], false)
      else
        var (more, ok) := Invoked(acts, words[1..]);
        (r.items + more, ok)
  }

  /** The word by itself is an option as it may be written. */
  predicate Accepted(acts: Actions, word: string) {
    var items := ScanAll(acts, [word]).items;
    items != [] && forall k :: 0 <= k < |items| ==> items[k].Good()
  }

  function ItemsOf(acts: Actions, words: seq<string>): seq<Item> {
    if words == [] then [] else ScanAll(acts, [words[0]]).items + ItemsOf(acts, words[1..])
  }

  /** The words before the first that is not accepted are invoked, and no other. */
  lemma {:induction false} InvokedMeans(acts: Actions, words: seq<string>) returns (n: nat)
    ensures n <= |words| && (forall k :: 0 <= k < n ==> Accepted(acts, words[k]))
    ensures n < |words| ==> !Accepted(acts, words[n])
    ensures Invoked(acts, words) == (ItemsOf(acts, words[..n]), n == |words|)
    decreases |words|
  {
    hide ScanAll;
    if words == [] {
      n := 0;
    } else {
      OneWordOnly(acts, words[0]);
      assert words[..1] == [words[0]];
      if !Accepted(acts, words[0]) {
        n := 0;
      } else {
        var m := InvokedMeans(acts, words[1..]);
        n := m + 1;
        assert words[..n][1..] == words[1..][..m] && words[..n][0] == words[0];
        assert forall k :: 0 < k < n ==> words[k] == words[1..][k - 1];
      }
    }
  }

  // What is wrong with a word comes last.
  lemma OneWordOnly(acts: Actions, w: string)
    ensures Accepted(acts, w) <==>
            var items := ScanAll(acts, [w]).items; items != [] && Final(items).Good()
  {
    WordItems(acts, w);
    assert [w][0] == w && [w][1..] == [];
    assert Scan(acts, w) + [] == Scan(acts, w);
  }

  /** The invocation a setting is for. */
  function Wanted(s: Setting): Item {
    match s
    case Flag(n) => Option("--" + n)
    case With(n, v, _) => OptionArg("--" + n, v)
  }

  function WantedOf(ss: seq<Setting>): (r: seq<Item>)
    ensures |r| == |ss| && forall k :: 0 <= k < |ss| ==> r[k] == Wanted(ss[k])
  {
    if ss == [] then [] else [Wanted(ss[0])] + WantedOf(ss[1..])
  }

  predicate Registered(acts: Actions, s: Setting) {
    && "--" + s.name in acts
    && (if s.Flag? then !acts["--" + s.name].Arg? else !acts["--" + s.name].NoArg?)
  }

  lemma WordInvokes(acts: Actions, s: Setting)
    requires ConfigName(s.name) && Registered(acts, s)
    ensures ScanAll(acts, [Word(s)]).items == [Wanted(s)]
  {
    var opt, w := "--" + s.name, Word(s);
    assert forall i :: 0 <= i < |opt| ==> opt[i] != '=';
    if s.Flag? {
      assert Find(w, '=', 0) == |w|;
      assert w[..|w|] == w;
    } else {
      assert w == opt + ("=" + s.value);
      FindAfter(opt, "=" + s.value, '=', 0);
      assert w[..|opt|] == opt && w[|opt| + 1..] == s.value;
    }
    assert Scan(acts, w) == [Wanted(s)];
    assert [Wanted(s)] + [] == [Wanted(s)];
  }

  lemma {:induction false} WordsInvoke(acts: Actions, ss: seq<Setting>, words: seq<string>)
    requires forall k :: 0 <= k < |ss| ==> ConfigName(ss[k].name) && Registered(acts, ss[k])
    requires words == WordsOf(ss)
    ensures Invoked(acts, words) == (WantedOf(ss), true)
    decreases |ss|
  {
    if ss == [] {
    } else {
      assert words[..1] == [Word(ss[0])];
      WordInvokes(acts, ss[0]);
      WordsInvoke(acts, ss[1..], words[1..]);
    }
  }

  /**
    Printing any configuration and parsing the text invokes exactly those options with
    exactly those values, in order, whatever characters the values hold.
  */
  lemma ConfigRoundTrip(acts: Actions, ss: seq<Setting>)
    requires forall k :: 0 <= k < |ss| ==> Printable(ss[k]) && Registered(acts, ss[k])
    ensures Invoked(acts, WordsFrom(Print(ss), 0)) ==
            (WantedOf(ss), true)
  {
    PrintedReads(ss);
    WordsInvoke(acts, ss, WordsFrom(Print(ss), 0));
  }

  function Quoted(s: Setting): Setting {
    match s
    case Flag(_) => s
    case With(n, v, spaced) => With(n, Quote(v), spaced)
  }

  function AllQuoted(ss: seq<Setting>): (qs: seq<Setting>)
    ensures |qs| == |ss| && forall k :: 0 <= k < |ss| ==> qs[k] == Quoted(ss[k])
  {
    seq(|ss|, k requires 0 <= k < |ss| => Quoted(ss[k]))
  }

  /** item invokes setting s, once its argument is expanded. */
  predicate InvokesExpanded(item: Item, s: Setting, value: string -> string) {
    match s
    case Flag(n) => item == Option("--" + n)
    case With(n, v, _) => item.OptionArg? && item.opt == "--" + n && Expand(item.arg, value) == v
  }

  /** With every value quoted against ${...} too, each action gets back its value itself. */
  lemma QuotedRoundTrip(acts: Actions, ss: seq<Setting>, value: string -> string)
    requires forall k :: 0 <= k < |ss| ==> Printable(ss[k]) && Registered(acts, ss[k])
    ensures var (items, ok) := Invoked(acts, WordsFrom(Print(AllQuoted(ss)), 0));
            ok && |items| == |ss| && forall k :: 0 <= k < |ss| ==> InvokesExpanded(items[k], ss[k], value)
  {
    hide Invoked, WordsFrom, Print, Expand, ConfigName;
    var qs := AllQuoted(ss);
    forall k | 0 <= k < |ss| ensures Printable(qs[k]) && Registered(acts, qs[k]) {
      assert Printable(ss[k]) && Registered(acts, ss[k]);
    }
    ConfigRoundTrip(acts, qs);
    forall k | 0 <= k < |ss| ensures InvokesExpanded(Wanted(qs[k]), ss[k], value) {
      if ss[k].With? {
        QuoteRoundTrip(ss[k].value, value);
      }
    }
  }
}
