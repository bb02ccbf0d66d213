/**
  What the completer's answers mean, in terms of scanning the finished line: which option
  takes the word as its argument, which options the word can become, and when it can
  become nothing.
*/
module CompletionLaws {
  import opened OptionScan
  import opened OptionGrammar
  import opened Expansion

  /** The words before the last end with the "--" that ends the options. */
  ghost predicate AfterDashes(acts: Actions, prev: seq<string>) {
    exists sps :: AllFit(acts, sps) && prev == AllWritten(sps) + ["--"]
  }

  // ---- how the words before the last can end ----

  /** Only options, each with the argument it needs. */
  predicate Through(acts: Actions, prev: seq<string>, sps: seq<Spelling>) {
    AllFit(acts, sps) && prev == AllWritten(sps)
  }

  /** A positional word, or "--" and then more words, is among them. */
  predicate Past(acts: Actions, prev: seq<string>, sps: seq<Spelling>) {
    var n := |AllWritten(sps)|;
    && AllFit(acts, sps) && AllWritten(sps) <= prev && n < |prev|
    && (IsPositional(prev[n]) || (prev[n] == "--" && n + 1 < |prev|))
  }

  predicate Open(acts: Actions, prev: seq<string>, sps: seq<Spelling>, f: Fault) {
    FailsAs(acts, prev, sps, f) && (f.NameAtEnd? || f.LetterAtEnd?)
  }

  predicate Broken(acts: Actions, prev: seq<string>, sps: seq<Spelling>, f: Fault) {
    FailsAs(acts, prev, sps, f) && !f.NameAtEnd? && !f.LetterAtEnd?
  }

  /** The option that waits for its argument. */
  function Waiting(f: Fault): string
    requires f.NameAtEnd? || f.LetterAtEnd?
  {
    match f
    case NameAtEnd(opt) => opt
    case LetterAtEnd(_, c) => ['-', c]
    case _ => ""
  }

  /** The option with its argument. */
  function Closed(f: Fault, arg: string): Spelling
    requires f.NameAtEnd? || f.LetterAtEnd?
  {
    match f
    case NameAtEnd(opt) => Followed(opt, arg)
    case LetterAtEnd(flags, c) => Letters(flags, Apart(c, arg))
    case _ => Long("")
  }

  lemma {:induction false} WordsConcat(sps: seq<Spelling>, sp: Spelling)
    ensures AllWritten(sps + [sp]) == AllWritten(sps) + Written(sp)
    ensures AllSpelled(sps + [sp]) == AllSpelled(sps) + Spelled(sp)
    decreases |sps|
  {
    hide Written, Spelled;
    if sps == [] {
      assert [sp][1..] == [] && [] + [sp] == [sp];
      assert Written(sp) + [] == Written(sp) && Spelled(sp) + [] == Spelled(sp);
    } else {
      assert (sps + [sp])[1..] == sps[1..] + [sp];
      WordsConcat(sps[1..], sp);
    }
  }

  // One more word after options only.
  lemma ThroughThen(acts: Actions, prev: seq<string>, sps: seq<Spelling>, v: string)
    requires Through(acts, prev, sps)
    ensures ScanAll(acts, prev) == Scanned(AllSpelled(sps), |prev|) && ScanOk(ScanAll(acts, prev))
    ensures ScanAll(acts, prev + [v]) == Before(AllSpelled(sps), |prev|, ScanAll(acts, [v]))
  {
    SpellingsScan(acts, sps, []);
    SpellingsScan(acts, sps, [v]);
    SpelledIsGood(sps);
    assert AllWritten(sps) + [] == prev && AllSpelled(sps) + [] == AllSpelled(sps);
  }

  lemma PastThen(acts: Actions, prev: seq<string>, sps: seq<Spelling>, v: string)
    requires Past(acts, prev, sps)
    ensures ScanAll(acts, prev).positional < |prev|
    ensures ScanAll(acts, prev + [v]) == ScanAll(acts, prev) && ScanOk(ScanAll(acts, prev))
  {
    var n := |AllWritten(sps)|;
    var r := Scanned(AllSpelled(sps), if prev[n] == "--" then n + 1 else n);
    assert (prev + [v])[n] == prev[n];
    assert ReadsAs(acts, prev, sps, r);
    assert ReadsAs(acts, prev + [v], sps, r);
    ReadsScan(acts, prev, sps, r);
    ReadsScan(acts, prev + [v], sps, r);
  }

  lemma DashesThen(acts: Actions, prev: seq<string>, v: string)
    requires AfterDashes(acts, prev)
    ensures ScanAll(acts, prev).positional == |prev|
    ensures ScanAll(acts, prev + [v]) == ScanAll(acts, prev) && ScanOk(ScanAll(acts, prev))
  {
    var sps :| AllFit(acts, sps) && prev == AllWritten(sps) + ["--"];
    var n := |AllWritten(sps)|;
    var r := Scanned(AllSpelled(sps), n + 1);
    assert prev[n] == "--" && (prev + [v])[n] == "--";
    assert ReadsAs(acts, prev, sps, r);
    assert ReadsAs(acts, prev + [v], sps, r);
    ReadsScan(acts, prev, sps, r);
    ReadsScan(acts, prev + [v], sps, r);
  }

  lemma BrokenThen(acts: Actions, prev: seq<string>, sps: seq<Spelling>, f: Fault, v: string)
    requires Broken(acts, prev, sps, f)
    ensures ScanAll(acts, prev).positional == |prev| && ScanAll(acts, prev).items != []
    ensures !Final(ScanAll(acts, prev).items).Good() && !Final(ScanAll(acts, prev).items).NeedNextArg?
    ensures !ScanOk(ScanAll(acts, prev + [v]))
  {
    FaultIsReported(acts, prev, sps, f);
    FaultEnds(f);
    var items := AllSpelled(sps) + Reported(f);
    assert Final(items) == Final(Reported(f));
    assert FailsAs(acts, prev + [v], sps, f);
    FaultIsReported(acts, prev + [v], sps, f);
  }

  lemma OpenThen(acts: Actions, prev: seq<string>, sps: seq<Spelling>, f: Fault, v: string)
    requires Open(acts, prev, sps, f)
    ensures var r := ScanAll(acts, prev);
            r.positional == |prev| && r.items != [] && Final(r.items) == NeedNextArg(Waiting(f))
    ensures var s := ScanAll(acts, prev + [v]);
            ScanOk(s) && s.positional == |prev| + 1 && s.items != [] && Final(s.items) == OptionArg(Waiting(f), v)
  {
    hide FaultyWord, Written, Spelled, Reported, IsFault, Fits, ScanAll, Closed, Waiting, AllWritten, AllSpelled;
    FaultIsReported(acts, prev, sps, f);
    FaultEnds(f);
    ClosedFits(acts, f, v);
    var items := AllSpelled(sps) + Reported(f);
    assert Final(items) == Final(Reported(f)) == NeedNextArg(Waiting(f));
    var sp := Closed(f, v);
    WordsConcat(sps, sp);
    assert prev == AllWritten(sps) + [FaultyWord(f)];
    assert prev + [v] == AllWritten(sps) + Written(sp) == AllWritten(sps + [sp]);
    ThroughScans(acts, prev + [v], sps + [sp]);
    assert Final(AllSpelled(sps) + Spelled(sp)) == Final(Spelled(sp));
  }

  lemma ThroughScans(acts: Actions, args: seq<string>, sps: seq<Spelling>)
    requires Through(acts, args, sps)
    ensures ScanAll(acts, args) == Scanned(AllSpelled(sps), |args|) && ScanOk(ScanAll(acts, args))
  {
    ThroughThen(acts, args, sps, "");
  }

  lemma ClosedFits(acts: Actions, f: Fault, v: string)
    requires IsFault(acts, f) && (f.NameAtEnd? || f.LetterAtEnd?)
    ensures Fits(acts, Closed(f, v)) && Written(Closed(f, v)) == [FaultyWord(f), v]
    ensures Spelled(Closed(f, v)) != [] && Final(Spelled(Closed(f, v))) == OptionArg(Waiting(f), v)
    ensures Final(Reported(f)) == NeedNextArg(Waiting(f))
  {
  }

  /** There is no sixth way. */
  lemma Endings(acts: Actions, prev: seq<string>) returns (sps: seq<Spelling>, f: Fault)
    requires Legal(acts)
    ensures || Through(acts, prev, sps) || Past(acts, prev, sps) || AfterDashes(acts, prev)
            || Open(acts, prev, sps, f) || Broken(acts, prev, sps, f)
  {
    hide Fits, IsFault, FaultyWord, Written, Spelled, AllWritten, AllSpelled, ScanAll, Legal;
    var ok;
    ok, sps, f := Outcome(acts, prev);
    if ok {
      var n := |AllWritten(sps)|;
      assert prev == AllWritten(sps) + prev[n..];
      if n < |prev| && prev[n] == "--" && n + 1 == |prev| {
        assert prev == AllWritten(sps) + ["--"];
      }
    }
  }

  // ---- the last word ----

  /** w is the start of an option's argument: opt takes one, and pre is what stands before it. */
  predicate ArgumentAfter(acts: Actions, pre: string, opt: string) {
    || (pre == opt + "=" && LongName(opt) && (Is(acts, opt, Arg) || Is(acts, opt, OptArg)))
    || (&& |pre| > 1 && ShortWord(pre) && AllFlags(acts, pre[1..|pre| - 1]) && opt == ['-', pre[|pre| - 1]]
        && (Is(acts, opt, Arg) || Is(acts, opt, OptArg)))
  }

  lemma SpelledLast(sp: Spelling, opt: string, x: string)
    requires sp == Glued(opt, x) || (sp.Letters? && |opt| == 2 && opt[0] == '-' && sp.tail == Attached(opt[1], x))
    ensures Spelled(sp) != [] && Final(Spelled(sp)) == OptionArg(opt, x)
  {
    assert |opt| == 2 && opt[0] == '-' ==> opt == ['-', opt[1]];
  }

  // What follows pre is the argument, unless nothing follows a letter.
  lemma ArgumentScans(acts: Actions, pre: string, opt: string, x: string)
    requires ArgumentAfter(acts, pre, opt) && x != ""
    ensures var r := ScanAll(acts, [pre + x]);
            ScanOk(r) && r.positional == 1 && r.items != [] && Final(r.items) == OptionArg(opt, x)
  {
    hide ScanAll, ScanOk, Spelled;
    var sp := if pre[1] == '-' then Glued(opt, x) else Letters(pre[1..|pre| - 1], Attached(opt[1], x));
    assert WordOf(sp) == pre + x;
    assert Fits(acts, sp);
    assert Written(sp) == [pre + x];
    SpelledLast(sp, opt, x);
    AloneScans(acts, sp);
  }

  // One word that scans to options is written as one spelling.
  lemma OneWord(acts: Actions, v: string) returns (sp: Spelling)
    requires Legal(acts) && ScanOk(ScanAll(acts, [v])) && ScanAll(acts, [v]).items != []
    ensures Fits(acts, sp) && WordOf(sp) == v && NextOf(sp) == [] && ScanAll(acts, [v]).items == Spelled(sp)
  {
    hide Legal, Fits, IsFault, FaultyWord, WordOf, Spelled, ScanOk;
    WordItems(acts, v);
    assert [v][0] == v && [v][1..] == [];
    var ok, f;
    ok, sp, f := FirstWord(acts, v, []);
    if ok {
      assert Written(sp) == [v] && NextOf(sp) == [];
      SpellingScans(acts, sp, []);
      assert Written(sp) + [] == [v] && Spelled(sp) + [] == Spelled(sp);
    } else {
      FaultAlone(acts, v, f);
    }
  }

  lemma FaultAlone(acts: Actions, v: string, f: Fault)
    requires IsFault(acts, f) && FaultyWord(f) == v
    ensures !ScanOk(ScanAll(acts, [v]))
  {
    hide IsFault, FaultyWord;
    assert [] + [FaultyWord(f)] == [v] && AllWritten([]) == [];
    assert FailsAs(acts, [v], [], f);
    FaultIsReported(acts, [v], [], f);
  }

  // And only where an option takes an argument does a word end in one.
  lemma ArgumentOnlyAfter(acts: Actions, pre: string, opt: string, x: char)
    requires Legal(acts)
    requires var r := ScanAll(acts, [pre + [x]]);
             ScanOk(r) && r.items != [] && Final(r.items) == OptionArg(opt, [x])
    ensures ArgumentAfter(acts, pre, opt)
  {
    hide ScanAll, ScanOk, Legal;
    var sp := OneWord(acts, pre + [x]);
    SpelledArgument(acts, sp, pre, opt, x);
  }

  lemma SpelledArgument(acts: Actions, sp: Spelling, pre: string, opt: string, x: char)
    requires Fits(acts, sp) && WordOf(sp) == pre + [x] && NextOf(sp) == []
    requires Spelled(sp) != [] && Final(Spelled(sp)) == OptionArg(opt, [x])
    ensures ArgumentAfter(acts, pre, opt)
  {
    var v := pre + [x];
    assert pre == v[..|v| - 1];
    match sp
    case Glued(o, a) => assert o + "=" == v[..|v| - 1];
    case Letters(flags, Attached(c, a)) =>
      assert v == "-" + flags + [c] + [x];
      assert v[..|v| - 1] == "-" + flags + [c];
      assert pre[1..|pre| - 1] == flags;
    case _ =>
  }

  // ---- what the completer says about the last word ----

  /** A letter alone that needs an argument: it may as well end the word. */
  predicate MayEnd(acts: Actions, pre: string, arg: string, opt: string) {
    arg == "" && ShortWord(pre) && Is(acts, opt, Arg)
  }

  lemma {:induction false} CompletePastFlags(acts: Actions, w: string, j: nat, k: nat)
    requires 1 <= j <= k <= |w| && AllFlags(acts, w[j..k])
    ensures CompleteShort(acts, w, j) == CompleteShort(acts, w, k)
    decreases k - j
  {
    if j == k {
    } else {
      assert Is(acts, ['-', w[j..k][0]], NoArg);
      assert w[j..k][1..] == w[j + 1..k];
      CompletePastFlags(acts, w, j + 1, k);
    }
  }

  lemma ArgumentIsOffered(acts: Actions, pre: string, arg: string, opt: string, index: nat)
    requires ArgumentAfter(acts, pre, opt) && !MayEnd(acts, pre, arg, opt)
    ensures CompleteWord(acts, pre + arg, index) == ArgCompletions(opt, arg, pre)
  {
    var w := pre + arg;
    assert w[..|pre|] == pre && w[|pre|..] == arg;
    if pre[1] == '-' {
      assert w == opt + ("=" + arg);
      FindAfter(opt, "=" + arg, '=', 0);
    } else {
      var k := |pre| - 1;
      assert w[1..k] == pre[1..k] && w[k] == pre[k];
      CompletePastFlags(acts, w, 1, k);
    }
  }

  /** Where CompleteShort stops: what the letters before were, and what it says. */
  lemma {:induction false} ShortAnswer(acts: Actions, w: string, j: nat) returns (k: nat)
    requires ShortWord(w) && 1 <= j <= |w| && AllFlags(acts, w[1..j])
    ensures j <= k <= |w| && AllFlags(acts, w[1..k])
    ensures k < |w| ==> !Is(acts, ['-', w[k]], NoArg)
    ensures CompleteShort(acts, w, j) ==
            if k == |w| then RawCompletions({w + " "})
            else if ['-', w[k]] !in acts then NoCompletions
            else if Is(acts, ['-', w[k]], Arg) && k + 1 == |w| then RawCompletions({w + " "})
            else ArgCompletions(['-', w[k]], w[k + 1..], w[..k + 1])
    decreases |w| - j
  {
    if j == |w| || !Is(acts, ['-', w[j]], NoArg) {
      k := j;
    } else {
      assert w[1..j + 1] == w[1..j] + [w[j]];
      k := ShortAnswer(acts, w, j + 1);
    }
  }

  lemma OfferedIsArgument(acts: Actions, w: string, index: nat)
    requires Legal(acts) && CompleteWord(acts, w, index).ArgCompletions?
    ensures var c := CompleteWord(acts, w, index);
            c.prepend + c.arg == w && ArgumentAfter(acts, c.prepend, c.opt) && !MayEnd(acts, c.prepend, c.arg, c.opt)
  {
    var c := CompleteWord(acts, w, index);
    if w[1] == '-' {
      var n := Find(w, '=', 0);
      assert LegalName(w[..n]);
      assert w[..n + 1] == w[..n] + "=" && w == w[..n + 1] + w[n + 1..];
    } else {
      assert w[1..1] == "";
      var k := ShortAnswer(acts, w, 1);
      assert w == w[..k + 1] + w[k + 1..];
      assert w[..k + 1][1..k] == w[1..k];
    }
  }

  lemma NothingToOffer(acts: Actions, w: string, x: string, index: nat)
    requires Legal(acts) && CompleteWord(acts, w, index) == NoCompletions
    ensures !ScanOk(ScanAll(acts, [w + x]))
  {
    hide Legal, ScanAll, ScanOk, CompleteShort;
    if w[1] == '-' {
      var n := Find(w, '=', 0);
      assert w == w[..n] + "=" + w[n + 1..];
      WrongName(acts, w[..n], w[n + 1..], x);
    } else {
      assert w[1..1] == "";
      var k := ShortAnswer(acts, w, 1);
      assert w == "-" + w[1..k] + [w[k]] + w[k + 1..];
      WrongLetter(acts, w[1..k], w[k], w[k + 1..], x);
    }
  }

  lemma WrongName(acts: Actions, opt: string, arg: string, x: string)
    requires Legal(acts) && |opt| >= 2 && opt[0] == '-' && opt[1] == '-' && '=' !in opt
    requires opt !in acts || acts[opt].NoArg?
    ensures !ScanOk(ScanAll(acts, [opt + "=" + arg + x]))
  {
    hide ScanAll, ScanOk;
    Associates(opt + "=", arg, x);
    Associates(opt, "=", arg + x);
    assert opt in acts ==> LegalName(opt);
    FaultAlone(acts, opt + "=" + arg + x,
               if opt in acts then UnwantedValue(opt, arg + x) else UnknownName(opt, "=" + (arg + x)));
  }

  lemma WrongLetter(acts: Actions, flags: string, c: char, rest: string, x: string)
    requires AllFlags(acts, flags) && ['-', c] !in acts && ShortWord("-" + flags + [c] + rest)
    ensures !ScanOk(ScanAll(acts, ["-" + flags + [c] + rest + x]))
  {
    hide ScanAll, ScanOk;
    var f := UnknownLetter(flags, c, rest + x);
    Associates("-" + flags + [c], rest, x);
    assert FaultyWord(f)[1] == ("-" + flags + [c] + rest)[1];
    FaultAlone(acts, FaultyWord(f), f);
  }

  /** A word that starts like a long option and is not at its '=' yet. */
  predicate NameStart(w: string) {
    |w| > 2 && w[0] == '-' && w[1] == '-' && '=' !in w
  }

  /** n, with the ending that says whether an argument can follow in the same word. */
  predicate Ended(acts: Actions, n: string, v: string) {
    n in acts &&
    match acts[n]
    case OptArg => v == if |n| > 2 then n + "=" else n
    case _ => v == n + " "
  }

  /** The names w begins are offered, and nothing else. */
  lemma NamesAreOffered(acts: Actions, w: string, index: nat)
    requires w == "-" || w == "--" || NameStart(w)
    ensures var c := CompleteWord(acts, w, index);
            c.RawCompletions? && forall v :: v in c.vals <==> exists n :: n in acts && w <= n && Ended(acts, n, v)
  {
    var c := CompleteWord(acts, w, index);
    assert Find(w, '=', 0) == |w|;
    forall v ensures v in c.vals <==> exists n :: n in acts && w <= n && Ended(acts, n, v) {
      if n :| n in acts && w <= n && Ended(acts, n, v) {
        assert Offered(acts, n) == v by { assert n + "" == n; }
      }
    }
    forall n | n in acts ensures Ended(acts, n, Offered(acts, n)) {
      assert n + "" == n;
    }
  }

  /** A bundle that is complete as a word: flags, and last perhaps a letter whose argument comes next. */
  lemma BundleIsOffered(acts: Actions, w: string, index: nat)
    requires ShortWord(w) && CompleteWord(acts, w, index).RawCompletions?
    ensures CompleteWord(acts, w, index) == RawCompletions({w + " "})
    ensures ScanOk(ScanAll(acts, [w])) || forall y :: ScanOk(ScanAll(acts, [w, y]))
    ensures exists x :: ScanOk(ScanAll(acts, [w + x]))
  {
    hide ScanAll, ScanOk, CompleteShort;
    assert w[1..1] == "";
    var k := ShortAnswer(acts, w, 1);
    if k == |w| {
      assert w == "-" + w[1..k] && w + "" == w;
      FlagsAlone(acts, w[1..k]);
    } else {
      assert w == "-" + w[1..k] + [w[k]];
      LetterMayEnd(acts, w[1..k], w[k]);
    }
  }

  lemma FlagsAlone(acts: Actions, flags: string)
    requires AllFlags(acts, flags) && ShortWord("-" + flags)
    ensures ScanOk(ScanAll(acts, ["-" + flags]))
  {
    hide ScanAll, ScanOk;
    var sp := Letters(flags, NoTail);
    assert WordOf(sp) == "-" + flags && Written(sp) == ["-" + flags];
    AloneScans(acts, sp);
  }

  lemma LetterMayEnd(acts: Actions, flags: string, c: char)
    requires AllFlags(acts, flags) && Is(acts, ['-', c], Arg) && ShortWord("-" + flags + [c])
    ensures ScanOk(ScanAll(acts, ["-" + flags + [c] + "a"]))
    ensures forall y :: ScanOk(ScanAll(acts, ["-" + flags + [c], y]))
  {
    hide ScanAll, ScanOk;
    var sp := Letters(flags, Attached(c, "a"));
    Associates("-" + flags, [c], "a");
    assert Written(sp) == ["-" + flags + [c] + "a"];
    AloneScans(acts, sp);
    forall y ensures ScanOk(ScanAll(acts, ["-" + flags + [c], y])) {
      var next := Letters(flags, Apart(c, y));
      assert Written(next) == ["-" + flags + [c], y];
      AloneScans(acts, next);
    }
  }

  lemma AloneScans(acts: Actions, sp: Spelling)
    requires Fits(acts, sp)
    ensures ScanOk(ScanAll(acts, Written(sp)))
    ensures ScanAll(acts, Written(sp)) == Scanned(Spelled(sp), |Written(sp)|)
  {
    hide Fits, Written, Spelled, ScanAll;
    WordsConcat([], sp);
    assert [] + [sp] == [sp] && [] + Written(sp) == Written(sp) && [] + Spelled(sp) == Spelled(sp);
    ThroughScans(acts, Written(sp), [sp]);
  }

  lemma NameCanGoOn(acts: Actions, w: string)
    requires Legal(acts) && NameStart(w)
    ensures (exists x :: ScanOk(ScanAll(acts, [w + x]))) <==> exists n :: n in acts && w <= n
  {
    if x :| ScanOk(ScanAll(acts, [w + x])) {
      NameOfWord(acts, w, x);
    }
    if n :| n in acts && w <= n {
      assert LegalName(n);
      assert n == w + n[|w|..];
      NameGoesOn(acts, w, n[|w|..]);
    }
  }

  lemma NameGoesOn(acts: Actions, w: string, more: string)
    requires NameStart(w) && w + more in acts && LegalName(w + more)
    ensures exists x :: ScanOk(ScanAll(acts, [w + x]))
  {
    hide ScanAll, ScanOk;
    var n := w + more;
    if acts[n].Arg? {
      assert n + "=" + "a" == w + (more + "=a");
      assert Written(Glued(n, "a")) == [w + (more + "=a")];
      AloneScans(acts, Glued(n, "a"));
    } else {
      assert Written(Long(n)) == [w + more];
      AloneScans(acts, Long(n));
    }
  }

  lemma NameOfWord(acts: Actions, w: string, x: string)
    requires Legal(acts) && NameStart(w) && ScanOk(ScanAll(acts, [w + x]))
    ensures exists n :: n in acts && w <= n
  {
    var v := w + x;
    WordItems(acts, v);
    assert !IsPositional(v) && v != "--" && [v][0] == v;
    var sp := OneWord(acts, v);
    WordIsFound(acts, sp);
    match sp
    case Long(o) => assert w <= o && o in acts;
    case Glued(o, a) =>
      assert '=' !in w && v == o + "=" + a;
      NameBeforeEquals(w, x, o, a);
    case _ =>
  }

  lemma NameBeforeEquals(w: string, x: string, o: string, a: string)
    requires '=' !in w && w + x == o + "=" + a
    ensures w <= o
  {
    var v := w + x;
    assert v[|o|] == '=';
    assert forall i :: 0 <= i < |w| ==> w[i] == v[i];
    if |w| <= |o| {
      assert w == v[..|w|] == o[..|w|];
    }
  }

  /** Some continuation of the word can be scanned. */
  lemma WordCanGoOn(acts: Actions, w: string, index: nat)
    requires Legal(acts)
    ensures (exists x :: ScanOk(ScanAll(acts, [w + x]))) <==>
            var c := CompleteWord(acts, w, index);
            !(c == NoCompletions || (c == RawCompletions({}) && w != "-" && w != "--"))
  {
    var c := CompleteWord(acts, w, index);
    assert w + "" == w;
    if IsPositional(w) || w == "--" {
      WordItems(acts, w);
      assert ScanOk(ScanAll(acts, [w + ""]));
    } else if c.ArgCompletions? {
      OfferedIsArgument(acts, w, index);
      ArgumentScans(acts, c.prepend, c.opt, c.arg + "a");
      assert w + "a" == c.prepend + (c.arg + "a");
    } else if c.NoCompletions? {
      forall x ensures !ScanOk(ScanAll(acts, [w + x])) {
        NothingToOffer(acts, w, x, index);
      }
    } else if NameStart(w) {
      NameCanGoOn(acts, w);
      NamesAreOffered(acts, w, index);
      SomeNameOffered(acts, w, c);
    } else {
      PositionOfWord(acts, w, index);
      BundleIsOffered(acts, w, index);
      assert w + " " in {w + " "};
    }
  }

  lemma SomeNameOffered(acts: Actions, w: string, c: Completion)
    requires c.RawCompletions?
    requires forall v :: v in c.vals <==> exists n :: n in acts && w <= n && Ended(acts, n, v)
    ensures c == RawCompletions({}) <==> !exists n :: n in acts && w <= n
  {
    if n :| n in acts && w <= n {
      var v := if acts[n].OptArg? then (if |n| > 2 then n + "=" else n) else n + " ";
      assert Ended(acts, n, v) && v in c.vals;
    }
  }

  // ---- what the completer says about the whole line ----

  lemma CompleteCases(acts: Actions, optind: nat, argv: seq<string>)
    requires optind < |argv|
    ensures var prev, w := argv[optind..|argv| - 1], argv[|argv| - 1];
            var r := ScanAll(acts, prev);
            Complete(acts, optind, argv) ==
            if r.positional != |prev| then Position(optind + r.positional)
            else if r.items != [] && Final(r.items).NeedNextArg? then ArgCompletions(Final(r.items).opt, w, "")
            else if r.items != [] && !Final(r.items).Good() then NoCompletions
            else CompleteWord(acts, w, |argv| - 1)
  {
  }

  /** Without a word to complete, the next one is what is asked for. */
  lemma NoWordYet(acts: Actions, optind: nat, argv: seq<string>)
    requires optind >= |argv|
    ensures Complete(acts, optind, argv) == Position(|argv|)
  {
  }

  /** In the words before the last and pre, opt has been written and its argument begins. */
  ghost predicate TakesArgument(acts: Actions, prev: seq<string>, pre: string, opt: string) {
    forall x :: x != "" ==>
      var r := ScanAll(acts, prev + [pre + x]);
      ScanOk(r) && r.positional == |prev| + 1 && r.items != [] && Final(r.items) == OptionArg(opt, x)
  }

  lemma TakesAfterOptions(acts: Actions, prev: seq<string>, sps: seq<Spelling>, pre: string, opt: string)
    requires Legal(acts) && Through(acts, prev, sps)
    ensures TakesArgument(acts, prev, pre, opt) <==> ArgumentAfter(acts, pre, opt)
  {
    hide ScanAll, Legal, Fits, Through, ArgumentAfter;
    if ArgumentAfter(acts, pre, opt) {
      forall x | x != ""
        ensures var r := ScanAll(acts, prev + [pre + x]);
                ScanOk(r) && r.positional == |prev| + 1 && r.items != [] && Final(r.items) == OptionArg(opt, x)
      {
        ThroughThen(acts, prev, sps, pre + x);
        SpelledIsGood(sps);
        ArgumentScans(acts, pre, opt, x);
      }
    }
    if TakesArgument(acts, prev, pre, opt) {
      var r := ScanAll(acts, prev + [pre + "a"]);
      ThroughThen(acts, prev, sps, pre + "a");
      LastWordCounts(acts, prev, sps, pre + "a");
      assert (pre + "a")[|pre|] == 'a';
      ArgumentOnlyAfter(acts, pre, opt, 'a');
    }
  }

  // A scan that takes the last word as an option takes it so by itself.
  lemma LastWordCounts(acts: Actions, prev: seq<string>, sps: seq<Spelling>, v: string)
    requires Through(acts, prev, sps) && ScanAll(acts, prev + [v]).positional == |prev| + 1
    requires ScanOk(ScanAll(acts, prev + [v])) && ScanAll(acts, prev + [v]).items != []
    requires Final(ScanAll(acts, prev + [v]).items).OptionArg?
    ensures ScanOk(ScanAll(acts, [v]))
    ensures v != "--" ==> ScanAll(acts, [v]).items != [] && Final(ScanAll(acts, [v]).items) == Final(ScanAll(acts, prev + [v]).items)
  {
    hide ScanAll, ScanOk, Through, Fits, AllSpelled, IsPositional;
    ThroughThen(acts, prev, sps, v);
    var s, r := ScanAll(acts, [v]), ScanAll(acts, prev + [v]);
    OneWordCounts(acts, v);
    RestOk(r, AllSpelled(sps), |prev|, s);
  }

  lemma OneWordCounts(acts: Actions, v: string)
    ensures ScanAll(acts, [v]).positional == 1 && v != "--" ==> ScanAll(acts, [v]).items != []
  {
    WordItems(acts, v);
    assert [v][0] == v && [v][1..] == [];
  }

  lemma NeverPast(acts: Actions, prev: seq<string>, sps: seq<Spelling>, pre: string, opt: string)
    requires Past(acts, prev, sps)
    ensures !TakesArgument(acts, prev, pre, opt)
  {
    PastThen(acts, prev, sps, pre + "a");
  }

  lemma NeverBroken(acts: Actions, prev: seq<string>, sps: seq<Spelling>, f: Fault, pre: string, opt: string)
    requires Broken(acts, prev, sps, f)
    ensures !TakesArgument(acts, prev, pre, opt)
  {
    BrokenThen(acts, prev, sps, f, pre + "a");
  }

  lemma TakesWhenOpen(acts: Actions, prev: seq<string>, sps: seq<Spelling>, f: Fault, pre: string, opt: string)
    requires Open(acts, prev, sps, f)
    ensures TakesArgument(acts, prev, pre, opt) <==> pre == "" && opt == Waiting(f)
  {
    hide ScanAll, FailsAs, Waiting;
    if pre == "" && opt == Waiting(f) {
      forall x | x != ""
        ensures var r := ScanAll(acts, prev + [pre + x]);
                ScanOk(r) && r.positional == |prev| + 1 && r.items != [] && Final(r.items) == OptionArg(opt, x)
      {
        OpenThen(acts, prev, sps, f, x);
        assert pre + x == x;
      }
    }
    if TakesArgument(acts, prev, pre, opt) {
      OpenThen(acts, prev, sps, f, pre + "a");
      assert "a" != "";
      assert |pre + "a"| == 1;
    }
  }

  /**
    The completer asks for the argument of an option exactly if, whatever the user goes on
    to write, scanning would take it as that option's argument; a letter that needs an
    argument and ends the word is left to be a word of its own.
  */
  lemma ArgumentExact(acts: Actions, optind: nat, argv: seq<string>, opt: string, arg: string, pre: string)
    requires Legal(acts) && optind < |argv| && !AfterDashes(acts, argv[optind..|argv| - 1])
    ensures var prev, w := argv[optind..|argv| - 1], argv[|argv| - 1];
            Complete(acts, optind, argv) == ArgCompletions(opt, arg, pre) <==>
            pre + arg == w && TakesArgument(acts, prev, pre, opt) && !(pre != "" && MayEnd(acts, pre, arg, opt))
  {
    hide ScanAll, Legal, Through, Past, Open, Broken, AfterDashes, TakesArgument, ArgumentAfter, MayEnd, Waiting, Complete, CompleteWord;
    var prev, w := argv[optind..|argv| - 1], argv[|argv| - 1];
    CompleteCases(acts, optind, argv);
    var sps, f := Endings(acts, prev);
    if Through(acts, prev, sps) {
      ThroughThen(acts, prev, sps, w);
      GoodEnd(ScanAll(acts, prev));
      TakesAfterOptions(acts, prev, sps, pre, opt);
      WordArgumentExact(acts, w, |argv| - 1, opt, arg, pre);
    } else if Past(acts, prev, sps) {
      PastThen(acts, prev, sps, w);
      NeverPast(acts, prev, sps, pre, opt);
    } else if Open(acts, prev, sps, f) {
      OpenThen(acts, prev, sps, f, w);
      TakesWhenOpen(acts, prev, sps, f, pre, opt);
      assert "" + arg == arg;
    } else {
      BrokenThen(acts, prev, sps, f, w);
      NeverBroken(acts, prev, sps, f, pre, opt);
    }
  }

  lemma GoodEnd(r: Scanned)
    requires ScanOk(r)
    ensures r.items != [] ==> Final(r.items).Good() && !Final(r.items).NeedNextArg?
  {
  }

  lemma WordArgumentExact(acts: Actions, w: string, index: nat, opt: string, arg: string, pre: string)
    requires Legal(acts)
    ensures CompleteWord(acts, w, index) == ArgCompletions(opt, arg, pre) <==>
            pre + arg == w && ArgumentAfter(acts, pre, opt) && !MayEnd(acts, pre, arg, opt)
    ensures ArgumentAfter(acts, pre, opt) ==> pre != ""
  {
    hide Legal, CompleteWord, MayEnd;
    if CompleteWord(acts, w, index) == ArgCompletions(opt, arg, pre) {
      OfferedIsArgument(acts, w, index);
    }
    if pre + arg == w && ArgumentAfter(acts, pre, opt) && !MayEnd(acts, pre, arg, opt) {
      ArgumentIsOffered(acts, pre, arg, opt, index);
    }
  }

  /**
    The completer has nothing to say exactly if nothing the word can become lets the line
    be scanned: it answers so, or offers an empty list of names.
  */
  lemma CanGoOnExact(acts: Actions, optind: nat, argv: seq<string>)
    requires Legal(acts) && optind < |argv| && !AfterDashes(acts, argv[optind..|argv| - 1])
    ensures var prev, w, c := argv[optind..|argv| - 1], argv[|argv| - 1], Complete(acts, optind, argv);
            (exists x :: ScanOk(ScanAll(acts, prev + [w + x]))) <==>
            !(c == NoCompletions || (c == RawCompletions({}) && w != "-" && w != "--"))
  {
    hide ScanAll, ScanOk, Legal, Through, Past, Open, Broken, AfterDashes, Complete, CompleteWord;
    var prev, w := argv[optind..|argv| - 1], argv[|argv| - 1];
    CompleteCases(acts, optind, argv);
    var sps, f := Endings(acts, prev);
    if Through(acts, prev, sps) {
      ThroughThen(acts, prev, sps, w);
      GoodEnd(ScanAll(acts, prev));
      forall x ensures ScanOk(ScanAll(acts, prev + [w + x])) <==> ScanOk(ScanAll(acts, [w + x])) {
        OkAfterOptions(acts, prev, sps, [w + x]);
      }
      WordCanGoOn(acts, w, |argv| - 1);
    } else if Past(acts, prev, sps) {
      PastThen(acts, prev, sps, w + "");
    } else if Open(acts, prev, sps, f) {
      OpenThen(acts, prev, sps, f, w + "");
    } else {
      BrokenThen(acts, prev, sps, f, w);
      forall x ensures !ScanOk(ScanAll(acts, prev + [w + x])) {
        BrokenThen(acts, prev, sps, f, w + x);
      }
    }
  }

  /**
    A list of whole words is offered for the start of an option's name: the names it
    begins, each with its ending.  Or it is the word itself, for a bundle that is complete:
    the line scans with it, or with it and any argument after it.
  */
  lemma ListedMeans(acts: Actions, optind: nat, argv: seq<string>)
    requires Legal(acts) && optind < |argv| && !AfterDashes(acts, argv[optind..|argv| - 1])
    requires Complete(acts, optind, argv).RawCompletions?
    ensures var prev, w, c := argv[optind..|argv| - 1], argv[|argv| - 1], Complete(acts, optind, argv);
            if w == "-" || w == "--" || NameStart(w) then
              forall v :: v in c.vals <==> exists n :: n in acts && w <= n && Ended(acts, n, v)
            else
              && ShortWord(w) && c.vals == {w + " "}
              && (ScanOk(ScanAll(acts, prev + [w])) || forall y :: ScanOk(ScanAll(acts, prev + [w, y])))
  {
    hide ScanAll, ScanOk, Legal, Through, Past, Open, Broken, AfterDashes, Complete, CompleteWord, Ended;
    var prev, w := argv[optind..|argv| - 1], argv[|argv| - 1];
    CompleteCases(acts, optind, argv);
    var sps, f := Endings(acts, prev);
    if Through(acts, prev, sps) {
      WordListed(acts, prev, sps, w, |argv| - 1);
    } else if Past(acts, prev, sps) {
      PastThen(acts, prev, sps, w);
    } else if Open(acts, prev, sps, f) {
      OpenThen(acts, prev, sps, f, w);
    } else {
      BrokenThen(acts, prev, sps, f, w);
    }
  }

  lemma WordListed(acts: Actions, prev: seq<string>, sps: seq<Spelling>, w: string, index: nat)
    requires Through(acts, prev, sps) && CompleteWord(acts, w, index).RawCompletions?
    ensures var c := CompleteWord(acts, w, index);
            if w == "-" || w == "--" || NameStart(w) then
              forall v :: v in c.vals <==> exists n :: n in acts && w <= n && Ended(acts, n, v)
            else
              && ShortWord(w) && c.vals == {w + " "}
              && (ScanOk(ScanAll(acts, prev + [w])) || forall y :: ScanOk(ScanAll(acts, prev + [w, y])))
  {
    hide ScanAll, ScanOk, Through, Ended;
    if w == "-" || w == "--" || NameStart(w) {
      NamesAreOffered(acts, w, index);
    } else {
      PositionOfWord(acts, w, index);
      BundleIsOffered(acts, w, index);
      OkAfterOptions(acts, prev, sps, [w]);
      forall y ensures ScanOk(ScanAll(acts, prev + [w, y])) <==> ScanOk(ScanAll(acts, [w, y])) {
        OkAfterOptions(acts, prev, sps, [w, y]);
      }
    }
  }

  lemma OkAfterOptions(acts: Actions, prev: seq<string>, sps: seq<Spelling>, rest: seq<string>)
    requires Through(acts, prev, sps)
    ensures ScanOk(ScanAll(acts, prev + rest)) <==> ScanOk(ScanAll(acts, rest))
  {
    hide ScanAll, Fits;
    SpellingsScan(acts, sps, rest);
    SpelledIsGood(sps);
    if ScanOk(ScanAll(acts, prev + rest)) {
      RestOk(ScanAll(acts, prev + rest), AllSpelled(sps), |prev|, ScanAll(acts, rest));
    }
  }

  /** After the final "--" the completer answers as if the word were the first. */
  lemma AfterDashesAsFirst(acts: Actions, optind: nat, argv: seq<string>)
    requires optind < |argv| && AfterDashes(acts, argv[optind..|argv| - 1])
    ensures Complete(acts, optind, argv) == Complete(acts, |argv| - 1, argv)
  {
    hide ScanAll, ScanOk, AfterDashes, Complete, CompleteWord;
    var prev, w := argv[optind..|argv| - 1], argv[|argv| - 1];
    assert argv[|argv| - 1..|argv| - 1] == [];
    CompleteCases(acts, optind, argv);
    CompleteCases(acts, |argv| - 1, argv);
    DashesThen(acts, prev, w);
    GoodEnd(ScanAll(acts, prev));
    ThroughThen(acts, [], [], w);
  }
}
