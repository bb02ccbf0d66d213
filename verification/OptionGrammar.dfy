/**
  Which words a command line may hold, and which items they spell: a grammar in terms of
  what a user writes, and the proof that scanning is its inverse, errors included.
*/
module OptionGrammar {
  import opened OptionScan
  import opened Expansion

  // ---- the grammar ----

  /** What can follow the flags of a bundle: a letter with its optional, attached or separate argument. */
  datatype Tail = NoTail | Lone(c: char) | Attached(c: char, arg: string) | Apart(c: char, arg: string)

  /** One option, or one bundle of them, as it is written. */
  datatype Spelling =
    | Long(opt: string)                   // --opt
    | Glued(opt: string, arg: string)     // --opt=arg
    | Followed(opt: string, arg: string)  // --opt arg
    | Letters(flags: string, tail: Tail)  // -abc, -abcarg, -abc arg

  function TailText(t: Tail): string {
    match t
    case NoTail => ""
    case Lone(c) => [c]
    case Attached(c, arg) => [c] + arg
    case Apart(c, _) => [c]
  }

  function WordOf(sp: Spelling): string {
    match sp
    case Long(opt) => opt
    case Glued(opt, arg) => opt + "=" + arg
    case Followed(opt, _) => opt
    case Letters(flags, tail) => "-" + flags + TailText(tail)
  }

  function NextOf(sp: Spelling): seq<string> {
    match sp
    case Followed(_, arg) => [arg]
    case Letters(_, Apart(_, arg)) => [arg]
    case _ => []
  }

  function Written(sp: Spelling): seq<string> {
    [WordOf(sp)] + NextOf(sp)
  }

  function Flags(flags: string): (r: seq<Item>)
    ensures |r| == |flags| && forall k :: 0 <= k < |r| ==> r[k] == Option(['-', flags[k]])
  {
    if flags == "" then [] else [Option(['-', flags[0]])] + Flags(flags[1..])
  }

  function TailItems(t: Tail): seq<Item> {
    match t
    case NoTail => []
    case Lone(c) => [Option(['-', c])]
    case Attached(c, arg) => [OptionArg(['-', c], arg)]
    case Apart(c, arg) => [OptionArg(['-', c], arg)]
  }

  /** What it stands for. */
  function Spelled(sp: Spelling): seq<Item> {
    match sp
    case Long(opt) => [Option(opt)]
    case Glued(opt, arg) => [OptionArg(opt, arg)]
    case Followed(opt, arg) => [OptionArg(opt, arg)]
    case Letters(flags, tail) => Flags(flags) + TailItems(tail)
  }

  predicate LongName(opt: string) {
    |opt| > 2 && opt[0] == '-' && opt[1] == '-' && '=' !in opt
  }

  predicate Is(acts: Actions, opt: string, h: HasArg) {
    opt in acts && acts[opt] == h
  }

  predicate AllFlags(acts: Actions, flags: string) {
    forall k :: 0 <= k < |flags| ==> Is(acts, ['-', flags[k]], NoArg)
  }

  /** Every option is registered, and has an argument as it may. */
  predicate Fits(acts: Actions, sp: Spelling) {
    match sp
    case Long(opt) => LongName(opt) && (Is(acts, opt, NoArg) || Is(acts, opt, OptArg))
    case Glued(opt, _) => LongName(opt) && (Is(acts, opt, Arg) || Is(acts, opt, OptArg))
    case Followed(opt, _) => LongName(opt) && Is(acts, opt, Arg)
    case Letters(flags, tail) =>
      && AllFlags(acts, flags) && ShortWord(WordOf(sp))
      && match tail
         case NoTail => true
         case Lone(c) => Is(acts, ['-', c], OptArg)
         case Attached(c, arg) => arg != "" && (Is(acts, ['-', c], Arg) || Is(acts, ['-', c], OptArg))
         case Apart(c, _) => Is(acts, ['-', c], Arg)
  }

  /** A word that starts with one dash only. */
  predicate ShortWord(w: string) {
    |w| > 1 && w[0] == '-' && w[1] != '-'
  }

  function AllWritten(sps: seq<Spelling>): seq<string> {
    if sps == [] then [] else Written(sps[0]) + AllWritten(sps[1..])
  }

  function AllSpelled(sps: seq<Spelling>): seq<Item> {
    if sps == [] then [] else Spelled(sps[0]) + AllSpelled(sps[1..])
  }

  predicate AllFit(acts: Actions, sps: seq<Spelling>) {
    forall k :: 0 <= k < |sps| ==> Fits(acts, sps[k])
  }

  /** args begins with the options written so; they end at the end, before a positional word, or at "--". */
  predicate ReadsAs(acts: Actions, args: seq<string>, sps: seq<Spelling>, r: Scanned) {
    var n := |AllWritten(sps)|;
    && AllFit(acts, sps) && r.items == AllSpelled(sps) && AllWritten(sps) <= args
    && if n == |args| then r.positional == n
       else if args[n] == "--" then r.positional == n + 1
       else IsPositional(args[n]) && r.positional == n
  }

  // ---- what can be wrong ----

  datatype Fault =
    | UnknownName(opt: string, rest: string)           // --opt or --opt=..., not registered
    | UnwantedValue(opt: string, arg: string)          // --opt=arg, and opt takes none
    | NameAtEnd(opt: string)                           // --opt at the end, and opt needs one
    | UnknownLetter(flags: string, c: char, rest: string)
    | LetterAtEnd(flags: string, c: char)

  function FaultyWord(f: Fault): string {
    match f
    case UnknownName(opt, rest) => opt + rest
    case UnwantedValue(opt, arg) => opt + "=" + arg
    case NameAtEnd(opt) => opt
    case UnknownLetter(flags, c, rest) => "-" + flags + [c] + rest
    case LetterAtEnd(flags, c) => "-" + flags + [c]
  }

  /** What is reported: the flags before the fault, and why. */
  function Reported(f: Fault): seq<Item> {
    match f
    case UnknownName(opt, _) => [UnknownOption(opt)]
    case UnwantedValue(opt, _) => [UnexpectedArg(opt)]
    case NameAtEnd(opt) => [NeedNextArg(opt)]
    case UnknownLetter(flags, c, _) => Flags(flags) + [UnknownOption(['-', c])]
    case LetterAtEnd(flags, c) => Flags(flags) + [NeedNextArg(['-', c])]
  }

  predicate IsFault(acts: Actions, f: Fault) {
    match f
    case UnknownName(opt, rest) =>
      && |opt| >= 2 && opt[0] == '-' && opt[1] == '-' && '=' !in opt && opt !in acts
      && (if rest == "" then |opt| > 2 else rest[0] == '=')
    case UnwantedValue(opt, _) => LongName(opt) && Is(acts, opt, NoArg)
    case NameAtEnd(opt) => LongName(opt) && Is(acts, opt, Arg)
    case UnknownLetter(flags, c, _) => ShortWord(FaultyWord(f)) && AllFlags(acts, flags) && ['-', c] !in acts
    case LetterAtEnd(flags, c) => ShortWord(FaultyWord(f)) && AllFlags(acts, flags) && Is(acts, ['-', c], Arg)
  }

  /** The first word that is not part of an option as it may be written. */
  predicate FailsAs(acts: Actions, args: seq<string>, sps: seq<Spelling>, f: Fault) {
    var n := |AllWritten(sps)|;
    && AllFit(acts, sps) && IsFault(acts, f) && AllWritten(sps) + [FaultyWord(f)] <= args
    && (f.NameAtEnd? || f.LetterAtEnd? ==> n + 1 == |args|)
  }

  // ---- bundles ----

  lemma FlagStep(acts: Actions, w: string, j: nat)
    requires 1 <= j < |w| && Is(acts, ['-', w[j]], NoArg)
    ensures ScanShort(acts, w, j) == [Option(['-', w[j]])] + ScanShort(acts, w, j + 1)
  {
  }

  lemma FlagsStep(flags: string, more: seq<Item>)
    requires flags != ""
    ensures Flags(flags) + more == [Option(['-', flags[0]])] + (Flags(flags[1..]) + more)
  {
  }

  lemma {:induction false} FlagsScan(acts: Actions, w: string, j: nat, flags: string)
    requires AllFlags(acts, flags) && 1 <= j && j + |flags| <= |w| && w[j..j + |flags|] == flags
    ensures ScanShort(acts, w, j) == Flags(flags) + ScanShort(acts, w, j + |flags|)
    decreases |flags|
  {
    hide ScanShort;
    if flags == "" {
    } else {
      assert w[j] == w[j..j + |flags|][0] == flags[0];
      assert w[j + 1..j + 1 + |flags[1..]|] == w[j..j + |flags|][1..] == flags[1..];
      FlagStep(acts, w, j);
      FlagsStep(flags, ScanShort(acts, w, j + |flags|));
      FlagsScan(acts, w, j + 1, flags[1..]);
    }
  }

  // The flags at the start of a bundle's rest.
  lemma {:induction false} LeadingFlags(acts: Actions, w: string, j: nat) returns (flags: string)
    requires 1 <= j <= |w|
    ensures AllFlags(acts, flags) && j + |flags| <= |w| && w[j..j + |flags|] == flags
    ensures j + |flags| < |w| ==> !Is(acts, ['-', w[j + |flags|]], NoArg)
    decreases |w| - j
  {
    if j == |w| || !Is(acts, ['-', w[j]], NoArg) {
      flags := "";
    } else {
      var more := LeadingFlags(acts, w, j + 1);
      flags := [w[j]] + more;
      assert w[j..j + |flags|] == [w[j]] + w[j + 1..j + 1 + |more|];
    }
  }

  // ---- from the grammar to the scan ----

  /** What scanning the first word of a spelling finds: an argument that stands apart is still missing. */
  function Found1(sp: Spelling): seq<Item> {
    match sp
    case Followed(opt, _) => [NeedNextArg(opt)]
    case Letters(flags, Apart(c, _)) => Flags(flags) + [NeedNextArg(['-', c])]
    case _ => Spelled(sp)
  }

  lemma BundleScans(acts: Actions, flags: string, c: char, rest: string)
    requires AllFlags(acts, flags) && !Is(acts, ['-', c], NoArg)
    ensures var w, opt := "-" + flags + [c] + rest, ['-', c];
            ScanShort(acts, w, 1) == Flags(flags) +
              [if opt !in acts then UnknownOption(opt)
               else if rest != "" then OptionArg(opt, rest)
               else if acts[opt].OptArg? then Option(opt)
               else NeedNextArg(opt)]
  {
    var w, j := "-" + flags + [c] + rest, 1 + |flags|;
    assert w[1..j] == flags && w[j] == c && w[j + 1..] == rest;
    FlagsScan(acts, w, 1, flags);
  }

  lemma FlagsOnlyScan(acts: Actions, flags: string)
    requires AllFlags(acts, flags)
    ensures ScanShort(acts, "-" + flags, 1) == Flags(flags)
  {
    var w := "-" + flags;
    assert w[1..1 + |flags|] == flags;
    FlagsScan(acts, w, 1, flags);
    assert Flags(flags) + [] == Flags(flags);
  }

  lemma LongScans(acts: Actions, opt: string, rest: string)
    requires '=' !in opt && (rest == "" || rest[0] == '=')
    ensures ScanLong(acts, opt + rest) ==
            if opt !in acts then UnknownOption(opt)
            else if rest == "" then (if acts[opt].Arg? then NeedNextArg(opt) else Option(opt))
            else if acts[opt].NoArg? then UnexpectedArg(opt)
            else OptionArg(opt, rest[1..])
  {
    var w := opt + rest;
    if rest == "" {
      assert w == opt && Find(opt, '=', 0) == |opt| && w[..|opt|] == opt;
    } else {
      FindAfter(opt, rest, '=', 0);
      assert w[..|opt|] == opt && w[|opt| + 1..] == rest[1..];
    }
  }

  lemma LettersScan(acts: Actions, flags: string, tail: Tail)
    requires Fits(acts, Letters(flags, tail))
    ensures ScanShort(acts, WordOf(Letters(flags, tail)), 1) == Found1(Letters(flags, tail))
  {
    match tail
    case NoTail =>
      assert "-" + flags + "" == "-" + flags && Flags(flags) + [] == Flags(flags);
      FlagsOnlyScan(acts, flags);
    case Lone(c) =>
      assert "-" + flags + [c] + "" == "-" + flags + [c];
      BundleScans(acts, flags, c, "");
    case Attached(c, arg) =>
      assert "-" + flags + [c] + arg == "-" + flags + ([c] + arg);
      BundleScans(acts, flags, c, arg);
    case Apart(c, _) =>
      assert "-" + flags + [c] + "" == "-" + flags + [c];
      BundleScans(acts, flags, c, "");
  }

  lemma WordIsFound(acts: Actions, sp: Spelling)
    requires Fits(acts, sp)
    ensures Scan(acts, WordOf(sp)) == Found1(sp)
    ensures !IsPositional(WordOf(sp)) && WordOf(sp) != "--"
  {
    match sp
    case Long(opt) =>
      assert opt + "" == opt;
      LongScans(acts, opt, "");
    case Glued(opt, arg) =>
      assert opt + ("=" + arg) == opt + "=" + arg;
      LongScans(acts, opt, "=" + arg);
    case Followed(opt, _) =>
      assert opt + "" == opt;
      LongScans(acts, opt, "");
    case Letters(flags, tail) => LettersScan(acts, flags, tail);
  }

  // A spelling, whatever follows it, scans to what it stands for.
  lemma SpellingScans(acts: Actions, sp: Spelling, rest: seq<string>)
    requires Fits(acts, sp)
    ensures ScanAll(acts, Written(sp) + rest) == Before(Spelled(sp), |Written(sp)|, ScanAll(acts, rest))
  {
    var args := Written(sp) + rest;
    WordIsFound(acts, sp);
    WordItems(acts, WordOf(sp));
    assert args[0] == WordOf(sp) && args[1..] == NextOf(sp) + rest;
    assert args[|Written(sp)|..] == rest;
    SpelledIsCompleted(acts, sp, rest);
  }

  lemma SpelledIsCompleted(acts: Actions, sp: Spelling, rest: seq<string>)
    requires Fits(acts, sp)
    ensures Found1(sp) != [] && Spelled(sp) != [] && Final(Spelled(sp)).Good()
    ensures NextOf(sp) != [] ==>
              Completed(Found1(sp), NextOf(sp) + rest) == Spelled(sp) && Used(Found1(sp), NextOf(sp) + rest) == 2
    ensures NextOf(sp) == [] ==> Found1(sp) == Spelled(sp)
  {
    match sp
    case Letters(flags, tail) =>
      if tail.Apart? {
        var items := Found1(sp);
        assert items[..|items| - 1] == Flags(flags);
      }
    case _ =>
  }

  lemma {:induction false} SpellingsScan(acts: Actions, sps: seq<Spelling>, rest: seq<string>)
    requires AllFit(acts, sps)
    ensures ScanAll(acts, AllWritten(sps) + rest) ==
            Before(AllSpelled(sps), |AllWritten(sps)|, ScanAll(acts, rest))
    decreases |sps|
  {
    hide Fits, Written, Spelled, ScanAll;
    if sps == [] {
      assert [] + rest == rest && [] + ScanAll(acts, rest).items == ScanAll(acts, rest).items;
    } else {
      var sp, more := sps[0], sps[1..];
      assert AllWritten(sps) + rest == Written(sp) + (AllWritten(more) + rest);
      SpellingScans(acts, sp, AllWritten(more) + rest);
      SpellingsScan(acts, more, rest);
      Regroup(Spelled(sp), |Written(sp)|, AllSpelled(more), |AllWritten(more)|, ScanAll(acts, rest));
    }
  }

  lemma {:induction false} SpelledIsGood(sps: seq<Spelling>)
    ensures forall k :: 0 <= k < |AllSpelled(sps)| ==> AllSpelled(sps)[k].Good()
    decreases |sps|
  {
    if sps == [] {
    } else {
      SpelledIsGood(sps[1..]);
    }
  }

  /** What is written so is read so. */
  lemma ReadsScan(acts: Actions, args: seq<string>, sps: seq<Spelling>, r: Scanned)
    requires ReadsAs(acts, args, sps, r)
    ensures ScanAll(acts, args) == r && ScanOk(r)
  {
    hide Written, Spelled, Fits, AllWritten, AllSpelled;
    var n := |AllWritten(sps)|;
    var rest := args[n..];
    assert args == AllWritten(sps) + rest;
    SpellingsScan(acts, sps, rest);
    SpelledIsGood(sps);
    if rest != [] {
      WordItems(acts, rest[0]);
    }
    assert AllSpelled(sps) + [] == AllSpelled(sps);
  }

  lemma FaultScans(acts: Actions, f: Fault, rest: seq<string>)
    requires IsFault(acts, f) && (f.NameAtEnd? || f.LetterAtEnd? ==> rest == [])
    ensures ScanAll(acts, [FaultyWord(f)] + rest) == Scanned(Reported(f), 1 + |rest|)
    ensures Reported(f) != [] && !Final(Reported(f)).Good()
  {
    hide IsFault, Reported, FaultyWord, Scan;
    var args := [FaultyWord(f)] + rest;
    FaultIsFound(acts, f);
    FaultEnds(f);
    assert args[0] == FaultyWord(f) && args[1..] == rest;
  }

  lemma FaultEnds(f: Fault)
    ensures Reported(f) != []
    ensures var last := Final(Reported(f));
            && !last.Good() && !last.PositionalHere? && !last.PositionalNext?
            && (last.NeedNextArg? <==> f.NameAtEnd? || f.LetterAtEnd?)
  {
  }

  lemma FaultIsFound(acts: Actions, f: Fault)
    requires IsFault(acts, f)
    ensures Scan(acts, FaultyWord(f)) == Reported(f)
  {
    match f
    case UnknownName(opt, rest) =>
      LongScans(acts, opt, rest);
      assert FaultyWord(f) != "--" && !IsPositional(FaultyWord(f));
    case UnwantedValue(opt, arg) =>
      assert opt + ("=" + arg) == opt + "=" + arg;
      LongScans(acts, opt, "=" + arg);
    case NameAtEnd(opt) =>
      assert opt + "" == opt;
      LongScans(acts, opt, "");
    case UnknownLetter(flags, c, rest) => BundleScans(acts, flags, c, rest);
    case LetterAtEnd(flags, c) =>
      assert "-" + flags + [c] + "" == "-" + flags + [c];
      BundleScans(acts, flags, c, "");
  }

  /** A fault is reported: the options before it, the flags before it in its word, and what it is. */
  lemma FaultIsReported(acts: Actions, args: seq<string>, sps: seq<Spelling>, f: Fault)
    requires FailsAs(acts, args, sps, f)
    ensures ScanAll(acts, args) == Scanned(AllSpelled(sps) + Reported(f), |args|)
    ensures !ScanOk(ScanAll(acts, args))
  {
    hide Written, Spelled, Fits, AllWritten, AllSpelled, FaultyWord, Reported, IsFault, ScanAll;
    var n := |AllWritten(sps)|;
    var rest := args[n + 1..];
    assert args == AllWritten(sps) + ([FaultyWord(f)] + rest);
    SpellingsScan(acts, sps, [FaultyWord(f)] + rest);
    FaultScans(acts, f, rest);
    var items := AllSpelled(sps) + Reported(f);
    assert items[|items| - 1] == Final(Reported(f));
  }

  // ---- from the words to the grammar ----

  /** A word that looks like an option begins one as it may be written, or is faulty. */
  lemma FirstWord(acts: Actions, w: string, next: seq<string>) returns (ok: bool, sp: Spelling, f: Fault)
    requires Legal(acts) && !IsPositional(w) && w != "--"
    ensures ok ==> Fits(acts, sp) && Written(sp) <= [w] + next
    ensures !ok ==> IsFault(acts, f) && FaultyWord(f) == w && (f.NameAtEnd? || f.LetterAtEnd? ==> next == [])
  {
    if w[1] == '-' {
      ok, sp, f := FirstLong(acts, w, next);
    } else {
      ok, sp, f := FirstBundle(acts, w, next);
    }
  }

  lemma FirstLong(acts: Actions, w: string, next: seq<string>) returns (ok: bool, sp: Spelling, f: Fault)
    requires Legal(acts) && |w| > 2 && w[0] == '-' && w[1] == '-'
    ensures ok ==> Fits(acts, sp) && Written(sp) <= [w] + next
    ensures !ok ==> IsFault(acts, f) && FaultyWord(f) == w && (f.NameAtEnd? || f.LetterAtEnd? ==> next == [])
  {
    var n := Find(w, '=', 0);
    var opt, rest := w[..n], w[n..];
    assert w == opt + rest && '=' !in opt && n >= 2;
    assert opt in acts ==> LegalName(opt);
    assert rest == "" ==> w == opt;
    sp, f, ok := Long(opt), UnknownName(opt, rest), opt in acts;
    if opt in acts {
      if rest != "" {
        var arg := rest[1..];
        assert w == opt + "=" + arg;
        sp, f, ok := Glued(opt, arg), UnwantedValue(opt, arg), !acts[opt].NoArg?;
      } else if acts[opt].Arg? {
        f, ok := NameAtEnd(opt), next != [];
        if ok {
          sp := Followed(opt, next[0]);
          assert [w] + next == Written(sp) + next[1..];
        }
      }
    }
  }

  lemma FirstBundle(acts: Actions, w: string, next: seq<string>) returns (ok: bool, sp: Spelling, f: Fault)
    requires ShortWord(w)
    ensures ok ==> Fits(acts, sp) && Written(sp) <= [w] + next
    ensures !ok ==> IsFault(acts, f) && FaultyWord(f) == w && (f.NameAtEnd? || f.LetterAtEnd? ==> next == [])
  {
    var flags := LeadingFlags(acts, w, 1);
    var j := 1 + |flags|;
    assert w[..j] == "-" + flags;
    sp, f, ok := Letters(flags, NoTail), NameAtEnd(""), true;
    if j == |w| {
      assert w == "-" + flags + "";
    } else {
      var c, rest := w[j], w[j + 1..];
      var opt := ['-', c];
      assert w == "-" + flags + [c] + rest;
      assert w == "-" + flags + ([c] + rest);
      if opt !in acts {
        f, ok := UnknownLetter(flags, c, rest), false;
      } else if rest != "" {
        sp := Letters(flags, Attached(c, rest));
      } else {
        assert w == "-" + flags + [c];
        if acts[opt].OptArg? {
          sp := Letters(flags, Lone(c));
        } else if next != [] {
          sp := Letters(flags, Apart(c, next[0]));
          assert [w] + next == Written(sp) + next[1..];
        } else {
          f, ok := LetterAtEnd(flags, c), false;
        }
      }
    }
  }

  /** Every argument vector is read by the grammar, or fails by it. */
  lemma {:induction false} Outcome(acts: Actions, args: seq<string>)
    returns (ok: bool, sps: seq<Spelling>, f: Fault)
    requires Legal(acts)
    ensures ok ==> ReadsAs(acts, args, sps, ScanAll(acts, args))
    ensures !ok ==> FailsAs(acts, args, sps, f)
    decreases |args|
  {
    hide Fits, IsFault, FaultyWord, Spelled, Legal;
    if args == [] || IsPositional(args[0]) || args[0] == "--" {
      ok, sps, f := true, [], NameAtEnd("");
      if args != [] {
        WordItems(acts, args[0]);
      }
    } else {
      var first, sp, fault := FirstWord(acts, args[0], args[1..]);
      assert args == [args[0]] + args[1..];
      if first {
        var rest := args[|Written(sp)|..];
        assert args == Written(sp) + rest;
        var more;
        ok, more, f := Outcome(acts, rest);
        sps := [sp] + more;
        OneMoreSpelling(acts, sp, more, rest, ok, f);
      } else {
        ok, sps, f := false, [], fault;
        assert [] + [FaultyWord(f)] == [FaultyWord(f)];
      }
    }
  }

  lemma OneMoreSpelling(acts: Actions, sp: Spelling, sps: seq<Spelling>, rest: seq<string>, ok: bool, f: Fault)
    requires Fits(acts, sp)
    requires if ok then ReadsAs(acts, rest, sps, ScanAll(acts, rest)) else FailsAs(acts, rest, sps, f)
    ensures var args := Written(sp) + rest;
            if ok then ReadsAs(acts, args, [sp] + sps, ScanAll(acts, args)) else FailsAs(acts, args, [sp] + sps, f)
  {
    hide Fits, IsFault, FaultyWord, Spelled, Written, ScanAll;
    var args, more := Written(sp) + rest, [sp] + sps;
    assert more[1..] == sps;
    assert AllWritten(more) == Written(sp) + AllWritten(sps) && AllSpelled(more) == Spelled(sp) + AllSpelled(sps);
    SpellingScans(acts, sp, rest);
    var n := |AllWritten(sps)|;
    if ok {
      assert rest == AllWritten(sps) + rest[n..];
      assert args == AllWritten(more) + rest[n..];
    } else {
      assert rest == AllWritten(sps) + [FaultyWord(f)] + rest[n + 1..];
      assert args == AllWritten(more) + [FaultyWord(f)] + rest[n + 1..];
    }
  }

  // ---- the scan is the grammar's inverse ----

  /** A scan succeeds, and reads r, exactly if options are written that stand for r. */
  lemma ScanExact(acts: Actions, args: seq<string>, r: Scanned)
    requires Legal(acts)
    ensures ScanAll(acts, args) == r && ScanOk(r) <==> exists sps :: ReadsAs(acts, args, sps, r)
  {
    hide ReadsAs, FailsAs, ScanAll, Legal;
    var ok, sps, f := Outcome(acts, args);
    if !ok {
      FaultIsReported(acts, args, sps, f);
    }
    forall sps | ReadsAs(acts, args, sps, r) ensures ScanAll(acts, args) == r && ScanOk(r) {
      ReadsScan(acts, args, sps, r);
    }
  }

  /**
    It fails exactly if some word is faulty behind options as they may be written, and
    then reports these options, the flags before the fault and what it is, in order.
  */
  lemma FailureExact(acts: Actions, args: seq<string>)
    requires Legal(acts)
    ensures !ScanOk(ScanAll(acts, args)) <==> exists sps, f :: FailsAs(acts, args, sps, f)
    ensures forall sps, f :: FailsAs(acts, args, sps, f) ==>
              ScanAll(acts, args) == Scanned(AllSpelled(sps) + Reported(f), |args|)
  {
    hide ReadsAs, FailsAs, ScanAll, Legal, ScanOk, AllSpelled, Reported;
    var ok, sps, f := Outcome(acts, args);
    if ok {
      ReadsScan(acts, args, sps, ScanAll(acts, args));
    }
    forall sps, f | FailsAs(acts, args, sps, f)
      ensures ScanAll(acts, args) == Scanned(AllSpelled(sps) + Reported(f), |args|)
      ensures !ScanOk(ScanAll(acts, args))
    {
      FaultIsReported(acts, args, sps, f);
    }
  }
}
