/** Configuration files that include each other, and the detection of loops among them. */
module ConfigIncludes {

  type File = string

  /** One option of a file, as far as including is concerned; names are resolved to files. */
  datatype Line =
    | Conf(file: File)        // --conf
    | ConfIfAny(file: File)   // --conf?
    | Plain(ok: bool)         // any other option, and whether its action accepts it

  type Files = map<File, seq<Line>>

  datatype Result = Parsed | Loop | NotFound | BadOption

  /** What parsing file f answers while the files of active are being parsed. */
  function Parse(fs: Files, active: set<File>, f: File): Result
    requires f in fs
    decreases fs.Keys - active, 0, 0
  {
    if f in active then Loop else ParseLines(fs, active + {f}, fs[f])
  }

  function ParseLines(fs: Files, active: set<File>, lines: seq<Line>): Result
    decreases fs.Keys - active, |lines|
  {
    if lines == [] then Parsed
    else
      var r := ParseLine(fs, active, lines[0], |lines|);
      if r != Parsed then r else ParseLines(fs, active, lines[1..])
  }

  function ParseLine(fs: Files, active: set<File>, line: Line, n: nat): Result
    requires n > 0
    decreases fs.Keys - active, n - 1, 1
  {
    match line
    case Plain(ok) => if ok then Parsed else BadOption
    case Conf(g) => if g in fs then Parse(fs, active, g) else NotFound
    case ConfIfAny(g) => if g in fs then Parse(fs, active, g) else Parsed
  }

  class Config {
    const files: Files
    var loopDetect: set<File>
    var parsingConfigFile: bool

    constructor (files: Files)
      ensures this.files == files && loopDetect == {} && !parsingConfigFile
    {
      this.files, loopDetect, parsingConfigFile := files, {}, false;
    }

    /** Whatever the outcome, the active set and the flag come back as they were. */
    method ParseConfigFile(f: File) returns (r: Result)
      requires f in files
      modifies this
      ensures r == Parse(files, old(loopDetect), f)
      ensures loopDetect == old(loopDetect) && parsingConfigFile == old(parsingConfigFile)
      decreases files.Keys - loopDetect, 0
    {
      if f in loopDetect {
        return Loop;
      }
      var pcf := parsingConfigFile;
      loopDetect := loopDetect + {f};
      parsingConfigFile := true;
      ghost var active := loopDetect;
      var i := 0;
      r := Parsed;
      while i < |files[f]| && r == Parsed
        invariant 0 <= i <= |files[f]|
        invariant loopDetect == active && parsingConfigFile
        invariant r == Parsed ==>
                    ParseLines(files, active, files[f][i..]) == ParseLines(files, active, files[f])
        invariant r != Parsed ==> r == ParseLines(files, active, files[f])
        decreases |files[f]| - i
      {
        match files[f][i] {
        case Plain(ok) => r := if ok then Parsed else BadOption;
        case Conf(g) =>
          if g in files {
            r := ParseConfigFile(g);
          } else {
            r := NotFound;
          }
        case ConfIfAny(g) =>
          if g in files {
            r := ParseConfigFile(g);
          }
        }
        i := i + 1;
      }
      loopDetect := loopDetect - {f};
      parsingConfigFile := pcf;
    }
  }

  // ---- loops, declared ----

  /** f has a line that includes g. */
  predicate Includes(fs: Files, f: File, g: File) {
    f in fs && exists i :: 0 <= i < |fs[f]| && !fs[f][i].Plain? && fs[f][i].file == g
  }

  predicate Walk(fs: Files, w: seq<File>) {
    w != [] && forall i :: 0 <= i < |w| - 1 ==> Includes(fs, w[i], w[i + 1])
  }

  predicate Repeats(w: seq<File>) {
    exists i, j :: 0 <= i < j < |w| && w[i] == w[j]
  }

  /** Following includes from f, one can come to a file a second time. */
  ghost predicate CycleFrom(fs: Files, f: File) {
    exists w :: Walk(fs, w) && w[0] == f && Repeats(w)
  }

  /** Every line includes a file that exists. */
  predicate OnlyIncludes(fs: Files) {
    forall f, i :: f in fs && 0 <= i < |fs[f]| ==> !fs[f][i].Plain? && fs[f][i].file in fs
  }

  /** What one line answers. */
  function Answer(fs: Files, active: set<File>, line: Line): Result {
    ParseLine(fs, active, line, 1)
  }

  /** A list of lines answers what its first line that fails does, if one fails. */
  lemma {:induction false} FirstAnswer(fs: Files, active: set<File>, lines: seq<Line>) returns (i: nat)
    ensures i <= |lines| && forall k :: 0 <= k < i ==> Answer(fs, active, lines[k]) == Parsed
    ensures ParseLines(fs, active, lines) == if i == |lines| then Parsed else Answer(fs, active, lines[i])
    ensures i < |lines| ==> ParseLines(fs, active, lines) != Parsed
    decreases |lines|
  {
    if lines == [] || Answer(fs, active, lines[0]) != Parsed {
      i := 0;
    } else {
      var j := FirstAnswer(fs, active, lines[1..]);
      i := j + 1;
      assert forall k :: 0 < k < i ==> lines[k] == lines[1..][k - 1];
    }
  }

  // What a walk must not do if its first file is to be parsed.
  predicate Clean(w: seq<File>, active: set<File>) {
    !Repeats(w) && forall i :: 0 <= i < |w| ==> w[i] !in active
  }

  /** The file has an option that is rejected. */
  predicate HasBadOption(fs: Files, f: File) {
    f in fs && exists i :: 0 <= i < |fs[f]| && fs[f][i] == Plain(false)
  }

  /** The file asks for a file that does not exist, with --conf; with --conf? that is no fault. */
  predicate HasMissing(fs: Files, f: File) {
    f in fs && exists i :: 0 <= i < |fs[f]| && fs[f][i].Conf? && fs[f][i].file !in fs
  }

  lemma ParsedFile(fs: Files, active: set<File>, f: File)
    requires f in fs && Parse(fs, active, f) == Parsed
    ensures f !in active && !HasBadOption(fs, f) && !HasMissing(fs, f)
    ensures forall g :: Includes(fs, f, g) && g in fs ==> Parse(fs, active + {f}, g) == Parsed
  {
    var n := FirstAnswer(fs, active + {f}, fs[f]);
    forall i | 0 <= i < |fs[f]| ensures Answer(fs, active + {f}, fs[f][i]) == Parsed {
    }
  }

  lemma {:induction false} ParsedIsClean(fs: Files, active: set<File>, w: seq<File>)
    requires Walk(fs, w) && w[0] in fs && active <= fs.Keys
    requires Parse(fs, active, w[0]) == Parsed
    ensures Clean(w, active) && !HasBadOption(fs, w[|w| - 1]) && !HasMissing(fs, w[|w| - 1])
    decreases |w|
  {
    var f := w[0];
    ParsedFile(fs, active, f);
    if |w| <= 1 {
    } else {
      assert Includes(fs, w[0], w[1]);
      WalkOn(fs, w);
      if w[1] in fs {
        ParsedIsClean(fs, active + {f}, w[1..]);
      } else {
        assert |w| > 2 ==> Includes(fs, w[1], w[2]);
        assert Clean(w[1..], active + {f});
      }
      CleanFrom(w, active);
    }
  }

  lemma WalkOn(fs: Files, w: seq<File>)
    requires Walk(fs, w) && |w| > 1
    ensures Walk(fs, w[1..])
  {
    forall k | 0 <= k < |w[1..]| - 1 ensures Includes(fs, w[1..][k], w[1..][k + 1]) {
      assert Includes(fs, w[k + 1], w[k + 2]);
    }
  }

  lemma CleanFrom(w: seq<File>, active: set<File>)
    requires |w| > 1 && w[0] !in active && Clean(w[1..], active + {w[0]})
    ensures Clean(w, active)
  {
    forall i | 1 <= i < |w| ensures w[i] !in active + {w[0]} {
      assert w[i] == w[1..][i - 1];
    }
    forall i, j | 0 <= i < j < |w| ensures w[i] != w[j] {
      if i > 0 {
        assert w[i] == w[1..][i - 1] && w[j] == w[1..][j - 1];
      }
    }
  }

  /** What the end of a walk has to do with a result other than success. */
  predicate Explains(fs: Files, active: set<File>, w: seq<File>, r: Result) {
    w != [] &&
    match r
    case Loop => !Clean(w, active)
    case NotFound => HasMissing(fs, w[|w| - 1])
    case BadOption => HasBadOption(fs, w[|w| - 1])
    case Parsed => false
  }

  lemma {:induction false} UnparsedHasWalk(fs: Files, active: set<File>, f: File) returns (w: seq<File>)
    requires f in fs && Parse(fs, active, f) != Parsed
    ensures Walk(fs, w) && w[0] == f && Explains(fs, active, w, Parse(fs, active, f))
    decreases fs.Keys - active, 1
  {
    if f in active {
      w := [f];
      assert w[0] in active;
    } else {
      var i := FirstAnswer(fs, active + {f}, fs[f]);
      match fs[f][i]
      case Plain(_) => w := [f];
      case Conf(g) =>
        if g in fs {
          w := WalkThrough(fs, active, f, g);
        } else {
          w := [f];
        }
      case ConfIfAny(g) => w := WalkThrough(fs, active, f, g);
    }
  }

  lemma {:induction false} WalkThrough(fs: Files, active: set<File>, f: File, g: File) returns (w: seq<File>)
    requires f in fs && g in fs && f !in active && Includes(fs, f, g) && Parse(fs, active + {f}, g) != Parsed
    ensures Walk(fs, w) && w[0] == f && Explains(fs, active, w, Parse(fs, active + {f}, g))
    decreases fs.Keys - active, 0
  {
    assert fs.Keys - (active + {f}) < fs.Keys - active;
    var v := UnparsedHasWalk(fs, active + {f}, g);
    w := [f] + v;
    forall k | 0 <= k < |w| - 1 ensures Includes(fs, w[k], w[k + 1]) {
      if k > 0 {
        assert Includes(fs, v[k - 1], v[k]);
      }
    }
    assert w[|w| - 1] == v[|v| - 1];
    CleanRest(f, v, active);
  }

  lemma CleanRest(f: File, v: seq<File>, active: set<File>)
    ensures Clean([f] + v, active) ==> Clean(v, active + {f})
  {
    var w := [f] + v;
    if Clean(w, active) {
      forall k | 0 <= k < |v| ensures v[k] !in active + {f} {
        assert v[k] == w[k + 1] && w[0] != w[k + 1];
      }
      forall j, k | 0 <= j < k < |v| ensures v[j] != v[k] {
        assert v[j] == w[j + 1] && v[k] == w[k + 1];
      }
    }
  }

  /**
    A file is parsed exactly if following includes from it never leads to a file twice,
    nor to one with an option that is rejected or a --conf of a missing file.  Another
    answer says which of these there is.
  */
  lemma ParsedExact(fs: Files, f: File)
    requires f in fs
    ensures Parse(fs, {}, f) == Parsed <==>
            forall w :: Walk(fs, w) && w[0] == f ==>
              !Repeats(w) && !HasBadOption(fs, w[|w| - 1]) && !HasMissing(fs, w[|w| - 1])
    ensures Parse(fs, {}, f) == Loop ==> CycleFrom(fs, f)
    ensures Parse(fs, {}, f) == BadOption ==> exists w :: Walk(fs, w) && w[0] == f && HasBadOption(fs, w[|w| - 1])
    ensures Parse(fs, {}, f) == NotFound ==> exists w :: Walk(fs, w) && w[0] == f && HasMissing(fs, w[|w| - 1])
  {
    if Parse(fs, {}, f) == Parsed {
      forall w | Walk(fs, w) && w[0] == f
        ensures !Repeats(w) && !HasBadOption(fs, w[|w| - 1]) && !HasMissing(fs, w[|w| - 1])
      {
        ParsedIsClean(fs, {}, w);
      }
    } else {
      var w := UnparsedHasWalk(fs, {}, f);
      assert Parse(fs, {}, f) == Loop ==> Repeats(w);
    }
  }

  lemma OnlyIncludesHaveNoFault(fs: Files, f: File)
    requires OnlyIncludes(fs)
    ensures !HasBadOption(fs, f) && !HasMissing(fs, f)
  {
  }

  /** With nothing but includes of existing files, the only failure is a loop. */
  lemma OnlyLoops(fs: Files, active: set<File>, f: File)
    requires OnlyIncludes(fs) && f in fs
    ensures Parse(fs, active, f) == Parsed || Parse(fs, active, f) == Loop
  {
    if Parse(fs, active, f) != Parsed {
      var w := UnparsedHasWalk(fs, active, f);
      OnlyIncludesHaveNoFault(fs, w[|w| - 1]);
    }
  }

  /** "configuration loop" is reported exactly when following includes can lead back. */
  lemma LoopIffCycle(fs: Files, f: File)
    requires OnlyIncludes(fs) && f in fs
    ensures Parse(fs, {}, f) == Loop <==> CycleFrom(fs, f)
    ensures Parse(fs, {}, f) == Parsed <==> !CycleFrom(fs, f)
  {
    OnlyLoops(fs, {}, f);
    ParsedExact(fs, f);
    forall g ensures !HasBadOption(fs, g) && !HasMissing(fs, g) {
      OnlyIncludesHaveNoFault(fs, g);
    }
  }
}
