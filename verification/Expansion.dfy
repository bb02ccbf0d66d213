/** Expansion of ${VAR} in option values. */
module Expansion {

  /** The first index at or after i where s has c, or |s|. */
  function Find(s: string, c: char, i: nat): (j: nat)
    requires i <= |s|
    ensures i <= j <= |s|
    ensures forall k :: i <= k < j ==> s[k] != c
    ensures j < |s| ==> s[j] == c
    decreases |s| - i
  {
    if i == |s| || s[i] == c then i else Find(s, c, i + 1)
  }

  lemma {:induction false} FindAfter(s: string, tail: string, c: char, i: nat)
    requires c !in s && i <= |s| && tail != "" && tail[0] == c
    ensures Find(s + tail, c, i) == |s|
    decreases |s| - i
  {
    if i == |s| {
    } else {
      FindAfter(s, tail, c, i + 1);
    }
  }

  /** "${" starts at i, and is closed. */
  predicate Reference(s: string, i: nat) {
    i + 2 <= |s| && s[i] == '$' && s[i + 1] == '{' && Find(s, '}', i + 2) < |s|
  }

  datatype Piece = Piece(text: string, next: nat)

  /** What the characters at i expand to, and where to go on. */
  function PieceAt(s: string, i: nat, value: string -> string): (p: Piece)
    requires i < |s|
    ensures i < p.next <= |s|
  {
    if s[i] == '\\' then
      if i + 1 < |s| then Piece([s[i + 1]], i + 2) else Piece("\\", |s|)
    else if Reference(s, i) then
      var j := Find(s, '}', i + 2);
      Piece(value(s[i + 2..j]), j + 1)
    else Piece([s[i]], i + 1)
  }

  /** What s from i on expands to. */
  function ExpandFrom(s: string, i: nat, value: string -> string): string
    requires i <= |s|
    decreases |s| - i
  {
    if i == |s| then ""
    else
      var p := PieceAt(s, i, value);
      p.text + ExpandFrom(s, p.next, value)
  }

  function Expand(s: string, value: string -> string): string {
    ExpandFrom(s, 0, value)
  }

  method VarExpand(s: string, value: string -> string) returns (r: string)
    ensures r == Expand(s, value)
  {
    r := "";
    var i := 0;
    while i < |s|
      invariant i <= |s|
      invariant r + ExpandFrom(s, i, value) == Expand(s, value)
      decreases |s| - i
    {
      var piece: string;
      piece, i := ExpandPiece(s, i, value);
      assert r + (piece + ExpandFrom(s, i, value)) == r + piece + ExpandFrom(s, i, value);
      r := r + piece;
    }
  }

  /** One turn of var_expand's loop. */
  method ExpandPiece(s: string, i0: nat, value: string -> string) returns (piece: string, i: nat)
    requires i0 < |s|
    ensures Piece(piece, i) == PieceAt(s, i0, value)
  {
    i := i0;
    if s[i] == '\\' {
      i := i + 1;
      if i < |s| {
        return [s[i]], i + 1;
      }
      return "\\", i;
    }
    assert i + 2 <= |s| ==> s[i..i + 2] == [s[i], s[i + 1]];
    if i + 2 <= |s| && s[i..i + 2] == "${" {
      assert s[i] == s[i..i + 2][0] && s[i + 1] == s[i..i + 2][1];
      var j := Find(s, '}', i + 2);
      if j < |s| {
        return value(s[i + 2..j]), j + 1;
      }
    }
    return [s[i]], i + 1;
  }

  // ---- what a text means, declared ----

  /** One piece of a text: a character as it stands or after a backslash, a reference, a final backslash. */
  datatype Segment =
    | Bare(c: char)
    | Quoted(c: char)
    | Ref(name: string)
    | Slash

  function Text(g: Segment): string {
    match g
    case Bare(c) => [c]
    case Quoted(c) => ['\\', c]
    case Ref(name) => "${" + name + "}"
    case Slash => "\\"
  }

  function Meaning(g: Segment, value: string -> string): string {
    match g
    case Bare(c) => [c]
    case Quoted(c) => [c]
    case Ref(name) => value(name)
    case Slash => "\\"
  }

  function TextOf(gs: seq<Segment>): string {
    if gs == [] then "" else Text(gs[0]) + TextOf(gs[1..])
  }

  function MeaningOf(gs: seq<Segment>, value: string -> string): string {
    if gs == [] then "" else Meaning(gs[0], value) + MeaningOf(gs[1..], value)
  }

  /** g may stand before rest: a bare '$' must not begin a reference that is closed further on. */
  predicate MayPrecede(g: Segment, rest: string) {
    match g
    case Bare(c) => c != '\\' && !(c == '$' && rest != "" && rest[0] == '{' && '}' in rest[1..])
    case Quoted(_) => true
    case Ref(name) => '}' !in name
    case Slash => rest == ""
  }

  predicate Readable(gs: seq<Segment>) {
    gs == [] || (MayPrecede(gs[0], TextOf(gs[1..])) && Readable(gs[1..]))
  }

  // One segment more in front.
  lemma Prepended(g: Segment, gs: seq<Segment>, value: string -> string)
    requires Readable(gs) && MayPrecede(g, TextOf(gs))
    ensures Readable([g] + gs) && TextOf([g] + gs) == Text(g) + TextOf(gs)
    ensures MeaningOf([g] + gs, value) == Meaning(g, value) + MeaningOf(gs, value)
  {
    assert ([g] + gs)[1..] == gs;
  }

  lemma Associates(a: string, b: string, c: string)
    ensures a + (b + c) == a + b + c
  {
  }

  // The piece at the end of before is the segment that stands there.
  lemma SegmentAt(before: string, g: Segment, rest: string, value: string -> string)
    requires MayPrecede(g, rest)
    ensures PieceAt(before + Text(g) + rest, |before|, value) == Piece(Meaning(g, value), |before| + |Text(g)|)
  {
    match g
    case Bare(c) => BareAt(before, c, rest, value);
    case Quoted(c) => assert (before + Text(g) + rest)[|before|..][..2] == Text(g);
    case Ref(name) => RefAt(before, name, rest, value);
    case Slash =>
  }

  lemma ReferenceIsClosed(s: string, i: nat)
    ensures Reference(s, i) <==> i + 2 <= |s| && s[i] == '$' && s[i + 1] == '{' && '}' in s[i + 2..]
  {
    if i + 2 <= |s| {
      var j := Find(s, '}', i + 2);
      if j < |s| {
        assert s[i + 2..][j - i - 2] == '}';
      } else {
        var t := s[i + 2..];
        forall k | 0 <= k < |t| ensures t[k] != '}' {
          assert t[k] == s[i + 2 + k];
        }
      }
    }
  }

  lemma BareAt(before: string, c: char, rest: string, value: string -> string)
    requires MayPrecede(Bare(c), rest)
    ensures PieceAt(before + [c] + rest, |before|, value) == Piece([c], |before| + 1)
  {
    var s, i := before + [c] + rest, |before|;
    assert s[i] == c;
    assert s[i + 1..] == rest;
    assert rest != "" ==> s[i + 1] == rest[0] && s[i + 2..] == rest[1..];
    ReferenceIsClosed(s, i);
  }

  lemma RefAt(before: string, name: string, rest: string, value: string -> string)
    requires '}' !in name
    ensures PieceAt(before + ("${" + name + "}") + rest, |before|, value) ==
            Piece(value(name), |before| + |name| + 3)
  {
    var s, i := before + ("${" + name + "}") + rest, |before|;
    var j := i + 2 + |name|;
    assert s[i..j + 1] == "${" + name + "}";
    assert s[i] == s[i..j + 1][0] && s[i + 1] == s[i..j + 1][1] && s[j] == s[i..j + 1][j - i];
    assert s[i + 2..j] == s[i..j + 1][2..j - i] == name;
    FindIs(s, '}', i + 2, j);
  }

  lemma {:induction false} FindIs(s: string, c: char, i: nat, j: nat)
    requires i <= j < |s| && s[j] == c && c !in s[i..j]
    ensures Find(s, c, i) == j
    decreases j - i
  {
    if i == j {
    } else {
      assert s[i] == s[i..j][0] && s[i..j][1..] == s[i + 1..j];
      FindIs(s, c, i + 1, j);
    }
  }

  lemma ExpandStep(s: string, i: nat, value: string -> string)
    requires i < |s|
    ensures var p := PieceAt(s, i, value);
            ExpandFrom(s, i, value) == p.text + ExpandFrom(s, p.next, value)
  {
  }

  lemma {:induction false} ExpandSegments(before: string, gs: seq<Segment>, value: string -> string)
    requires Readable(gs)
    ensures ExpandFrom(before + TextOf(gs), |before|, value) == MeaningOf(gs, value)
    decreases |gs|
  {
    hide PieceAt, Text, Meaning, MayPrecede;
    if gs == [] {
      assert before + TextOf(gs) == before;
    } else {
      var head, rest := Text(gs[0]), TextOf(gs[1..]);
      Associates(before, head, rest);
      TextIsSome(gs[0]);
      ExpandStep(before + head + rest, |before|, value);
      SegmentAt(before, gs[0], rest, value);
      ExpandSegments(before + head, gs[1..], value);
    }
  }

  lemma TextIsSome(g: Segment)
    ensures Text(g) != ""
  {
  }

  /**
    What a text expands to: references their values, everything else itself, a
    backslash apart that stands before a character.
  */
  lemma ExpandMeans(gs: seq<Segment>, value: string -> string)
    requires Readable(gs)
    ensures Expand(TextOf(gs), value) == MeaningOf(gs, value)
  {
    ExpandSegments("", gs, value);
    assert "" + TextOf(gs) == TextOf(gs);
  }

  /** And every text can be read so. */
  lemma {:induction false} EveryTextIsReadable(s: string) returns (gs: seq<Segment>)
    ensures Readable(gs) && TextOf(gs) == s
    decreases |s|
  {
    if s == "" {
      gs := [];
    } else {
      var g := FirstSegment(s);
      var more := EveryTextIsReadable(s[|Text(g)|..]);
      gs := [g] + more;
      assert gs[1..] == more;
    }
  }

  lemma FirstSegment(s: string) returns (g: Segment)
    requires s != ""
    ensures Text(g) <= s && Text(g) != "" && MayPrecede(g, s[|Text(g)|..])
  {
    if s[0] == '\\' {
      g := if |s| == 1 then Slash else Quoted(s[1]);
    } else if |s| > 1 && s[0] == '$' && s[1] == '{' && '}' in s[2..] {
      var j := Find(s, '}', 2);
      var k :| 0 <= k < |s[2..]| && s[2..][k] == '}';
      assert s[k + 2] == '}';
      g := Ref(s[2..j]);
      assert s == "${" + s[2..j] + "}" + s[j + 1..];
    } else {
      g := Bare(s[0]);
      assert |s| > 1 ==> s[1..][1..] == s[2..];
    }
  }

  // ---- quoting ----

  /** Quoting a literal value so that expansion gives it back. */
  function Quote(v: string): string {
    if v == "" then ""
    else (if v[0] == '\\' || v[0] == '$' then ['\\', v[0]] else [v[0]]) + Quote(v[1..])
  }

  /** A part of a template: a literal value, or a reference to a variable. */
  datatype Part = Literal(v: string) | Variable(name: string)

  function Template(ps: seq<Part>): string {
    if ps == [] then ""
    else
      (match ps[0]
       case Literal(v) => Quote(v)
       case Variable(name) => "${" + name + "}") + Template(ps[1..])
  }

  function Filled(ps: seq<Part>, value: string -> string): string {
    if ps == [] then ""
    else
      (match ps[0]
       case Literal(v) => v
       case Variable(name) => value(name)) + Filled(ps[1..], value)
  }

  function QuotedChar(c: char): Segment {
    if c == '\\' || c == '$' then Quoted(c) else Bare(c)
  }

  lemma QuoteStep(v: string, rest: string, value: string -> string)
    requires v != ""
    ensures Quote(v) + rest == Text(QuotedChar(v[0])) + (Quote(v[1..]) + rest)
    ensures v == Meaning(QuotedChar(v[0]), value) + v[1..]
    ensures forall r :: MayPrecede(QuotedChar(v[0]), r)
  {
  }

  lemma {:induction false} QuoteIsReadable(v: string, rest: seq<Segment>, value: string -> string)
    returns (gs: seq<Segment>)
    requires Readable(rest)
    ensures Readable(gs) && TextOf(gs) == Quote(v) + TextOf(rest)
    ensures MeaningOf(gs, value) == v + MeaningOf(rest, value)
    decreases |v|
  {
    hide Readable, MayPrecede, Text, Meaning, QuotedChar, TextOf, MeaningOf;
    if v == "" {
      gs := rest;
    } else {
      hide Quote;
      var more := QuoteIsReadable(v[1..], rest, value);
      QuoteStep(v, TextOf(rest), value);
      Prepended(QuotedChar(v[0]), more, value);
      Associates(Meaning(QuotedChar(v[0]), value), v[1..], MeaningOf(rest, value));
      gs := [QuotedChar(v[0])] + more;
    }
  }

  lemma TemplateStep(ps: seq<Part>, value: string -> string)
    requires ps != []
    ensures ps[0].Literal? ==>
              Template(ps) == Quote(ps[0].v) + Template(ps[1..]) && Filled(ps, value) == ps[0].v + Filled(ps[1..], value)
    ensures ps[0].Variable? ==>
              && Template(ps) == Text(Ref(ps[0].name)) + Template(ps[1..])
              && Filled(ps, value) == Meaning(Ref(ps[0].name), value) + Filled(ps[1..], value)
  {
  }

  lemma {:induction false} TemplateIsReadable(ps: seq<Part>, rest: seq<Segment>, value: string -> string)
    returns (gs: seq<Segment>)
    requires Readable(rest) && forall k :: 0 <= k < |ps| && ps[k].Variable? ==> '}' !in ps[k].name
    ensures Readable(gs) && TextOf(gs) == Template(ps) + TextOf(rest)
    ensures MeaningOf(gs, value) == Filled(ps, value) + MeaningOf(rest, value)
    decreases |ps|
  {
    hide Readable, Text, Meaning, TextOf, MeaningOf, Quote;
    if ps == [] {
      gs := rest;
    } else {
      hide Template, Filled;
      var more := TemplateIsReadable(ps[1..], rest, value);
      TemplateStep(ps, value);
      match ps[0]
      case Literal(v) =>
        gs := QuoteIsReadable(v, more, value);
        Associates(Quote(v), Template(ps[1..]), TextOf(rest));
        Associates(v, Filled(ps[1..], value), MeaningOf(rest, value));
      case Variable(name) =>
        Prepended(Ref(name), more, value);
        gs := [Ref(name)] + more;
        Associates(Text(Ref(name)), Template(ps[1..]), TextOf(rest));
        Associates(Meaning(Ref(name), value), Filled(ps[1..], value), MeaningOf(rest, value));
    }
  }

  /** Quoted literals and references side by side expand to the literals and the values. */
  lemma TemplateExpands(ps: seq<Part>, value: string -> string)
    requires forall k :: 0 <= k < |ps| && ps[k].Variable? ==> '}' !in ps[k].name
    ensures Expand(Template(ps), value) == Filled(ps, value)
  {
    var gs := TemplateIsReadable(ps, [], value);
    assert TextOf(gs) == Template(ps) && MeaningOf(gs, value) == Filled(ps, value);
    ExpandMeans(gs, value);
  }

  /** A quoted value expands to itself, whatever the variables hold. */
  lemma QuoteRoundTrip(v: string, value: string -> string)
    ensures Expand(Quote(v), value) == v
  {
    var gs := QuoteIsReadable(v, [], value);
    assert TextOf(gs) == Quote(v) && MeaningOf(gs, value) == v;
    ExpandMeans(gs, value);
  }

  /** A "${" that is not closed stays as it stands. */
  lemma UnclosedStays(ps: seq<Part>, v: string, value: string -> string)
    requires forall k :: 0 <= k < |ps| && ps[k].Variable? ==> '}' !in ps[k].name
    requires '}' !in v
    ensures Expand(Template(ps) + "${" + Quote(v), value) == Filled(ps, value) + "${" + v
  {
    var open := OpenReference(v, value);
    var gs := TemplateIsReadable(ps, open, value);
    Associates(Template(ps), "${", Quote(v));
    Associates(Filled(ps, value), "${", v);
    ExpandMeans(gs, value);
  }

  lemma OpenReference(v: string, value: string -> string) returns (gs: seq<Segment>)
    requires '}' !in v
    ensures Readable(gs) && TextOf(gs) == "${" + Quote(v) && MeaningOf(gs, value) == "${" + v
  {
    hide Quote, TextOf, MeaningOf, Readable;
    NothingReadable(value);
    var qs := QuoteIsReadable(v, [], value);
    QuoteAddsNoBrace(v);
    Prepended(Bare('{'), qs, value);
    assert ("{" + Quote(v))[1..] == Quote(v);
    Prepended(Bare('$'), [Bare('{')] + qs, value);
    gs := [Bare('$')] + ([Bare('{')] + qs);
    assert "${" + Quote(v) == "$" + ("{" + Quote(v)) && "${" + v == "$" + ("{" + v);
  }

  lemma NothingReadable(value: string -> string)
    ensures Readable([]) && TextOf([]) == "" && MeaningOf([], value) == ""
  {
  }

  lemma {:induction false} QuoteAddsNoBrace(v: string)
    requires '}' !in v
    ensures '}' !in Quote(v)
    decreases |v|
  {
    if v == "" {
    } else {
      assert v == [v[0]] + v[1..];
      QuoteAddsNoBrace(v[1..]);
    }
  }
}
