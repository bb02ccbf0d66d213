/**
  Command-line scanning: what one word means, what a whole argument vector means,
  and what the completer makes of an unfinished one.
*/
module OptionScan {
  import opened Expansion

  datatype HasArg = NoArg | Arg | OptArg

  /** The registered options: name with its dashes, and whether it takes an argument. */
  type Actions = map<string, HasArg>

  /** What the registration of an option checks about its name. */
  predicate LegalName(n: string) {
    |n| >= 2 && n[0] == '-' && !(|n| == 2 && n[1] == '-') && '=' !in n
  }

  predicate Legal(acts: Actions) {
    forall n :: n in acts ==> LegalName(n)
  }

  datatype Item =
    | Option(opt: string)
    | OptionArg(opt: string, arg: string)
    | NeedNextArg(opt: string)
    | PositionalHere
    | PositionalNext
    | UnknownOption(opt: string)
    | UnexpectedArg(opt: string)
  {
    predicate Good() { Option? || OptionArg? }
  }

  // ---- one word ----

  function ScanLong(acts: Actions, w: string): Item {
    var n := Find(w, '=', 0);
    var opt := w[..n];
    if opt !in acts then UnknownOption(opt)
    else if n == |w| then
      if acts[opt].Arg? then NeedNextArg(opt) else Option(opt)
    else if acts[opt].NoArg? then UnexpectedArg(opt)
    else OptionArg(opt, w[n + 1..])
  }

  /** The short options bundled in w from index j on. */
  function ScanShort(acts: Actions, w: string, j: nat): seq<Item>
    requires 1 <= j <= |w|
    decreases |w| - j
  {
    if j == |w| then []
    else
      var opt := ['-', w[j]];
      if opt !in acts then [UnknownOption(opt)]
      else if acts[opt].NoArg? then [Option(opt)] + ScanShort(acts, w, j + 1)
      else if j + 1 < |w| then [OptionArg(opt, w[j + 1..])]
      else if acts[opt].OptArg? then [Option(opt)]
      else [NeedNextArg(opt)]
  }

  predicate IsPositional(w: string) {
    |w| < 2 || w[0] != '-'
  }

  function Scan(acts: Actions, w: string): (r: seq<Item>)
    ensures r != []
  {
    if w == "--" then [PositionalNext]
    else if IsPositional(w) then [PositionalHere]
    else if w[1] == '-' then [ScanLong(acts, w)]
    else ScanShort(acts, w, 1)
  }

  method ScanArg(acts: Actions, w: string) returns (r: seq<Item>)
    ensures r == Scan(acts, w)
  {
    if w == "--" {
      return [PositionalNext];
    }
    if |w| < 2 || w[0] != '-' {
      return [PositionalHere];
    }
    if w[1] == '-' {
      return [ScanLong(acts, w)];
    }
    r := ScanBundle(acts, w);
  }

  /** The loop over the letters of a bundle. */
  method ScanBundle(acts: Actions, w: string) returns (r: seq<Item>)
    requires |w| > 1
    ensures r == ScanShort(acts, w, 1)
  {
    r := [];
    var j := 1;
    while j < |w|
      invariant 1 <= j <= |w|
      invariant r + ScanShort(acts, w, j) == ScanShort(acts, w, 1)
    {
      var opt := ['-', w[j]];
      if opt !in acts {
        return r + [UnknownOption(opt)];
      }
      if acts[opt] == NoArg {
        assert r + ([Option(opt)] + ScanShort(acts, w, j + 1)) ==
               r + [Option(opt)] + ScanShort(acts, w, j + 1);
        r := r + [Option(opt)];
        j := j + 1;
        continue;
      }
      if j + 1 < |w| {
        return r + [OptionArg(opt, w[j + 1..])];
      } else if acts[opt] == OptArg {
        return r + [Option(opt)];
      } else {
        return r + [NeedNextArg(opt)];
      }
    }
  }

  // ---- an argument vector ----

  /** Only the last item of a word can be something other than a finished option. */
  lemma {:induction false} ShortIsGoodButLast(acts: Actions, w: string, j: nat)
    requires 1 <= j < |w|
    ensures var r := ScanShort(acts, w, j);
            r != [] && forall k :: 0 <= k < |r| - 1 ==> r[k].Good()
    ensures var r := ScanShort(acts, w, j);
            !r[|r| - 1].PositionalHere? && !r[|r| - 1].PositionalNext?
    decreases |w| - j
  {
    if j + 1 == |w| {
    } else {
      ShortIsGoodButLast(acts, w, j + 1);
    }
  }

  function Final(items: seq<Item>): Item
    requires items != []
  {
    items[|items| - 1]
  }

  /** items[..] of one scan, and the index of the first positional argument. */
  datatype Scanned = Scanned(items: seq<Item>, positional: nat)

  function Before(items: seq<Item>, used: nat, rest: Scanned): Scanned {
    Scanned(items + rest.items, used + rest.positional)
  }

  /** A word's items, an option still without its argument taking the next word, if any. */
  function Completed(items: seq<Item>, next: seq<string>): seq<Item>
    requires items != []
  {
    match Final(items)
    case NeedNextArg(opt) =>
      if next == [] then items else items[..|items| - 1] + [OptionArg(opt, next[0])]
    case _ => items
  }

  function Used(items: seq<Item>, next: seq<string>): nat
    requires items != []
  {
    if Final(items).NeedNextArg? && next != [] then 2 else 1
  }

  function ScanAll(acts: Actions, args: seq<string>): (r: Scanned)
    ensures r.positional <= |args|
    decreases |args|
  {
    if args == [] then Scanned([], 0)
    else
      var items, next := Scan(acts, args[0]), args[1..];
      var whole, used := Completed(items, next), Used(items, next);
      if Final(items).PositionalHere? then Scanned([], 0)
      else if Final(items).PositionalNext? then Scanned([], 1)
      else if Final(whole).Good() then Before(whole, used, ScanAll(acts, args[used..]))
      else Scanned(whole, |args|)
  }

  /** The scan met no unknown, incomplete or misused option. */
  predicate ScanOk(r: Scanned) {
    forall k :: 0 <= k < |r.items| ==> r.items[k].Good()
  }

  method ScanArgs(acts: Actions, args: seq<string>) returns (r: Scanned)
    ensures r == ScanAll(acts, args)
  {
    var scan: seq<Item>, i, stop := [], 0, false;
    while i < |args|
      invariant 0 <= i <= |args|
      invariant Before(scan, i, ScanAll(acts, args[i..])) == ScanAll(acts, args)
      decreases |args| - i
    {
      r, i, stop := ScanWord(acts, args, i, scan);
      if stop {
        return;
      }
      scan := r.items;
    }
    return Scanned(scan, |args|);
  }

  /** The body of scan_args' outer loop: all the items of args[i0]. */
  method ScanWord(acts: Actions, args: seq<string>, i0: nat, scan0: seq<Item>)
    returns (r: Scanned, i: nat, stop: bool)
    requires i0 < |args|
    ensures stop ==> r == Before(scan0, i0, ScanAll(acts, args[i0..]))
    ensures !stop ==>
              && i0 < i <= |args|
              && Before(r.items, i, ScanAll(acts, args[i..])) == Before(scan0, i0, ScanAll(acts, args[i0..]))
  {
    var items := ScanArg(acts, args[i0]);
    ghost var next := args[i0..][1..];
    ghost var whole, used := Completed(items, next), Used(items, next);
    assert next == args[i0 + 1..] && args[i0..][used..] == args[i0 + used..];
    WordItems(acts, args[i0]);
    r, i, stop := TakeItems(items, args, i0, scan0);
    if !stop {
      Regroup(scan0, i0, whole, used, ScanAll(acts, args[i..]));
    }
  }

  /** The inner loop: the items of one word, an open one taking the next word. */
  method TakeItems(items: seq<Item>, args: seq<string>, i0: nat, scan0: seq<Item>)
    returns (r: Scanned, i: nat, stop: bool)
    requires i0 < |args| && items != []
    requires forall k :: 0 <= k < |items| - 1 ==> items[k].Good()
    requires Final(items).PositionalHere? || Final(items).PositionalNext? ==> |items| == 1
    ensures var next := args[i0 + 1..];
            var whole, used := Completed(items, next), Used(items, next);
            if Final(items).PositionalHere? then stop && r == Scanned(scan0, i0)
            else if Final(items).PositionalNext? then stop && r == Scanned(scan0, i0 + 1)
            else if Final(whole).Good() then !stop && i == i0 + used && r == Scanned(scan0 + whole, i)
            else stop && r == Scanned(scan0 + whole, |args|)
  {
    i := i0;
    ghost var next := args[i0 + 1..];
    ghost var whole, used := Completed(items, next), Used(items, next);
    var scan, k := scan0, 0;
    while k < |items|
      invariant 0 <= k <= |items| && scan == scan0 + whole[..k]
      invariant i == if k < |items| then i0 else i0 + used - 1
      invariant k > 0 ==> whole[k - 1].Good()
    {
      var item := items[k];
      if item.PositionalHere? {
        return Scanned(scan, i), i, true;
      }
      if item.PositionalNext? {
        return Scanned(scan, i + 1), i, true;
      }
      if item.NeedNextArg? && i + 1 < |args| {
        i := i + 1;
        item := OptionArg(item.opt, args[i]);
      }
      scan := scan + [item];
      assert item == whole[k] && whole[..k + 1] == whole[..k] + [whole[k]];
      k := k + 1;
      if !item.Good() {
        assert whole[..k] == whole;
        return Scanned(scan, |args|), i, true;
      }
    }
    assert whole[..k] == whole;
    i := i + 1;
    return Scanned(scan, i), i, false;
  }

  lemma Regroup(a: seq<Item>, i: nat, b: seq<Item>, used: nat, rest: Scanned)
    ensures Before(a, i, Before(b, used, rest)) == Before(a + b, i + used, rest)
  {
    assert a + (b + rest.items) == a + b + rest.items;
  }

  lemma WordItems(acts: Actions, w: string)
    ensures var r := Scan(acts, w);
            && (forall k :: 0 <= k < |r| - 1 ==> r[k].Good())
            && (Final(r).PositionalHere? || Final(r).PositionalNext? ==> |r| == 1)
    ensures Final(Scan(acts, w)).PositionalHere? <==> IsPositional(w)
    ensures Final(Scan(acts, w)).PositionalNext? <==> w == "--"
  {
    if !IsPositional(w) && w[1] != '-' {
      ShortIsGoodButLast(acts, w, 1);
    }
  }

  // ---- unbundling ----

  /** One finished option as words of its own. */
  function Words(acts: Actions, item: Item): seq<string> {
    match item
    case Option(opt) => [opt]
    case OptionArg(opt, arg) =>
      if opt in acts && acts[opt].Arg? then [opt, arg]
      else if |opt| == 2 then [opt + arg]
      else [opt + "=" + arg]
    case _ => []
  }

  function Unbundled(acts: Actions, items: seq<Item>): seq<string> {
    if items == [] then [] else Words(acts, items[0]) + Unbundled(acts, items[1..])
  }

  /** A registered name that some word can spell; "-abc" may be registered but never is met. */
  predicate Scannable(opt: string) {
    |opt| == 2 || (|opt| > 2 && opt[1] == '-')
  }

  /** What a scan without error can find. */
  predicate Found(acts: Actions, item: Item) {
    match item
    case Option(opt) => opt in acts && Scannable(opt) && !acts[opt].Arg?
    case OptionArg(opt, arg) =>
      opt in acts && Scannable(opt) && !acts[opt].NoArg? && (acts[opt].OptArg? && |opt| == 2 ==> arg != "")
    case _ => false
  }

  predicate AllFound(acts: Actions, items: seq<Item>) {
    forall k :: 0 <= k < |items| ==> Found(acts, items[k])
  }

  predicate FoundOrOpen(acts: Actions, item: Item) {
    match item
    case NeedNextArg(opt) => opt in acts && Scannable(opt) && acts[opt].Arg?
    case _ => item.Good() ==> Found(acts, item)
  }

  lemma {:induction false} ShortFinds(acts: Actions, w: string, j: nat)
    requires 1 <= j <= |w|
    ensures forall k :: 0 <= k < |ScanShort(acts, w, j)| ==> FoundOrOpen(acts, ScanShort(acts, w, j)[k])
    decreases |w| - j
  {
    if j == |w| {
    } else {
      ShortFinds(acts, w, j + 1);
    }
  }

  lemma WordFinds(acts: Actions, w: string)
    requires Legal(acts)
    ensures forall k :: 0 <= k < |Scan(acts, w)| ==> FoundOrOpen(acts, Scan(acts, w)[k])
  {
    if w == "--" || IsPositional(w) {
    } else if w[1] == '-' {
      var n := Find(w, '=', 0);
      assert w[..n] in acts ==> LegalName(w[..n]);
      assert n >= 2;
    } else {
      ShortFinds(acts, w, 1);
    }
  }

  lemma {:induction false} ScanFinds(acts: Actions, args: seq<string>)
    requires Legal(acts) && ScanOk(ScanAll(acts, args))
    ensures AllFound(acts, ScanAll(acts, args).items)
    decreases |args|
  {
    if args == [] {
    } else {
      var items := Scan(acts, args[0]);
      var r := ScanAll(acts, args);
      WordFinds(acts, args[0]);
      WordItems(acts, args[0]);
      var whole, used := Completed(items, args[1..]), Used(items, args[1..]);
      if !IsPositional(args[0]) && args[0] != "--" {
        if Final(whole).Good() {
          RestOk(r, whole, used, ScanAll(acts, args[used..]));
          ScanFinds(acts, args[used..]);
        } else {
          assert r.items == whole;
        }
      }
    }
  }

  lemma RestOk(r: Scanned, items: seq<Item>, used: nat, rest: Scanned)
    requires r == Before(items, used, rest) && ScanOk(r)
    ensures ScanOk(rest)
    ensures forall k :: 0 <= k < |items| ==> items[k].Good()
  {
    assert forall k :: 0 <= k < |rest.items| ==> rest.items[k] == r.items[|items| + k];
    assert forall k :: 0 <= k < |items| ==> items[k] == r.items[k];
  }

  /** A word made from one item scans to that item. */
  lemma WordScans(acts: Actions, item: Item)
    requires Legal(acts) && Found(acts, item)
    ensures var ws := Words(acts, item);
            if item.OptionArg? && acts[item.opt].Arg?
            then Scan(acts, ws[0]) == [NeedNextArg(item.opt)] && ws == [item.opt, item.arg]
            else |ws| == 1 && Scan(acts, ws[0]) == [item]
  {
    var opt := item.opt;
    assert LegalName(opt);
    var w := Words(acts, item)[0];
    assert Find(opt, '=', 0) == |opt|;
    if |opt| == 2 {
      assert w[0] == '-' && w[1] == opt[1] && opt == ['-', w[1]];
      assert ScanShort(acts, w, 1) ==
             if acts[opt].NoArg? then [Option(opt)] + ScanShort(acts, w, 2)
             else if |w| > 2 then [OptionArg(opt, w[2..])]
             else if acts[opt].OptArg? then [Option(opt)]
             else [NeedNextArg(opt)];
      assert |w| > 2 ==> w == opt + item.arg && w[2..] == item.arg;
    } else if opt[1] == '-' {
      if |w| > |opt| {
        FindAfter(opt, "=" + item.arg, '=', 0);
        assert w == opt + ("=" + item.arg);
      } else {
        assert w[..|opt|] == opt;
      }
    }
  }

  // The words of one option, whatever follows them, scan to that option.
  lemma WordsScan(acts: Actions, item: Item, more: seq<string>)
    requires Legal(acts) && Found(acts, item)
    ensures ScanAll(acts, Words(acts, item) + more) ==
            Before([item], |Words(acts, item)|, ScanAll(acts, more))
  {
    var ws := Words(acts, item);
    WordScans(acts, item);
    assert (ws + more)[|ws|..] == more;
    assert (ws + more)[0] == ws[0];
    if |ws| == 2 {
      assert (ws + more)[1..][0] == item.arg;
      assert [NeedNextArg(item.opt)][..0] + [item] == [item];
    }
  }

  lemma {:induction false} UnbundledScans(acts: Actions, items: seq<Item>, tail: seq<string>)
    requires Legal(acts) && AllFound(acts, items)
    ensures ScanAll(acts, Unbundled(acts, items) + tail) ==
            Before(items, |Unbundled(acts, items)|, ScanAll(acts, tail))
    decreases |items|
  {
    if items == [] {
      assert Unbundled(acts, items) + tail == tail;
    } else {
      var ws, us := Words(acts, items[0]), Unbundled(acts, items[1..]);
      assert Unbundled(acts, items) + tail == ws + (us + tail);
      WordsScan(acts, items[0], us + tail);
      UnbundledScans(acts, items[1..], tail);
      Regroup([items[0]], |ws|, items[1..], |us|, ScanAll(acts, tail));
      assert [items[0]] + items[1..] == items;
    }
  }

  /**
    Unbundling preserves meaning: any argument vector that scans without error, with
    each option rewritten as words of its own and "--" before the rest, scans to the
    same options with the same arguments, and leaves the same positional arguments.
  */
  lemma UnbundlingPreservesMeaning(acts: Actions, args: seq<string>)
    requires Legal(acts) && ScanOk(ScanAll(acts, args))
    ensures var r := ScanAll(acts, args);
            var plain := Unbundled(acts, r.items) + ["--"] + args[r.positional..];
            && ScanAll(acts, plain).items == r.items
            && plain[ScanAll(acts, plain).positional..] == args[r.positional..]
  {
    var r := ScanAll(acts, args);
    var ws, rest := Unbundled(acts, r.items), args[r.positional..];
    ScanFinds(acts, args);
    UnbundledScans(acts, r.items, ["--"] + rest);
    assert ws + ["--"] + rest == ws + (["--"] + rest);
    assert (["--"] + rest)[0] == "--";
    assert r.items + [] == r.items;
  }

  /** The "--" can stay out when the first positional argument does not look like an option. */
  lemma UnbundlingWithoutDashes(acts: Actions, args: seq<string>)
    requires Legal(acts) && ScanOk(ScanAll(acts, args))
    requires var p := ScanAll(acts, args).positional; p < |args| ==> IsPositional(args[p])
    ensures var r := ScanAll(acts, args);
            var plain := Unbundled(acts, r.items) + args[r.positional..];
            ScanAll(acts, plain) == Scanned(r.items, |Unbundled(acts, r.items)|)
  {
    var r := ScanAll(acts, args);
    ScanFinds(acts, args);
    UnbundledScans(acts, r.items, args[r.positional..]);
    assert r.items + [] == r.items;
  }

  // ---- completion ----

  datatype Completion =
    | Position(index: nat)
    | NoCompletions
    | RawCompletions(vals: set<string>)
    | ArgCompletions(opt: string, arg: string, prepend: string)

  /** An option's name as it is offered: a space ends it unless an optional argument may follow. */
  function Offered(acts: Actions, n: string): string
    requires n in acts
  {
    n + (if !acts[n].OptArg? then " " else if |n| > 2 then "=" else "")
  }

  function OptionsFrom(acts: Actions, prefix: string): Completion {
    RawCompletions(set n | n in acts && prefix <= n :: Offered(acts, n))
  }

  function CompleteShort(acts: Actions, w: string, j: nat): Completion
    requires 1 <= j <= |w|
    decreases |w| - j
  {
    if j == |w| then RawCompletions({w + " "})
    else
      var opt := ['-', w[j]];
      if opt !in acts then NoCompletions
      else if acts[opt].OptArg? || (acts[opt].Arg? && j + 1 < |w|) then
        ArgCompletions(opt, w[j + 1..], w[..j + 1])
      else CompleteShort(acts, w, j + 1)
  }

  function CompleteWord(acts: Actions, w: string, index: nat): Completion {
    if w == "-" || w == "--" then OptionsFrom(acts, w)
    else if IsPositional(w) then Position(index)
    else if w[1] == '-' then
      var n := Find(w, '=', 0);
      if n == |w| then OptionsFrom(acts, w)
      else if w[..n] !in acts || acts[w[..n]].NoArg? then NoCompletions
      else ArgCompletions(w[..n], w[n + 1..], w[..n + 1])
    else CompleteShort(acts, w, 1)
  }

  function Complete(acts: Actions, optind: nat, argv: seq<string>): Completion {
    if optind >= |argv| then Position(|argv|)
    else
      var prefix, w := argv[optind..|argv| - 1], argv[|argv| - 1];
      var r := ScanAll(acts, prefix);
      Answer(acts, optind, |prefix|, r, w)
  }

  /** The completer's answer, in terms of the scan r of the n words before the unfinished one. */
  function Answer(acts: Actions, optind: nat, n: nat, r: Scanned, w: string): Completion {
    if r.positional != n then Position(optind + r.positional)
    else CompleteAfter(acts, r.items, w, optind + n)
  }

  /** The unfinished word w, after a prefix that held no positional argument. */
  function CompleteAfter(acts: Actions, items: seq<Item>, w: string, index: nat): Completion {
    if items != [] && Final(items).NeedNextArg? then ArgCompletions(Final(items).opt, w, "")
    else if items != [] && !Final(items).Good() then NoCompletions
    else CompleteWord(acts, w, index)
  }

  method CompleteArgs(acts: Actions, optind: nat, argv: seq<string>) returns (c: Completion)
    ensures c == Complete(acts, optind, argv)
  {
    if optind >= |argv| {
      return Position(|argv|);
    }
    var prefix := argv[optind..|argv| - 1];
    var scanned := ScanArgs(acts, prefix);
    if scanned.positional != |prefix| {
      return Position(optind + scanned.positional);
    }
    c := CompleteRest(acts, scanned.items, argv[|argv| - 1], |argv| - 1);
  }

  method CompleteRest(acts: Actions, items: seq<Item>, w: string, index: nat) returns (c: Completion)
    ensures c == CompleteAfter(acts, items, w, index)
  {
    if items != [] {
      var last := items[|items| - 1];
      match last
      case NeedNextArg(opt) => return ArgCompletions(opt, w, "");
      case Option(_) =>
      case OptionArg(_, _) =>
      case _ => return NoCompletions;
    }
    c := CompleteLastWord(acts, w, index);
  }

  method CompleteLastWord(acts: Actions, w: string, index: nat) returns (c: Completion)
    ensures c == CompleteWord(acts, w, index)
  {
    if w == "-" || w == "--" {
      return OptionsFrom(acts, w);
    }
    if |w| < 2 || w[0] != '-' {
      return Position(index);
    }
    if w[1] == '-' {
      var n := Find(w, '=', 0);
      if n < |w| {
        var opt := w[..n];
        if opt !in acts || acts[opt] == NoArg {
          return NoCompletions;
        }
        return ArgCompletions(opt, w[n + 1..], w[..n + 1]);
      }
      return OptionsFrom(acts, w);
    }
    c := CompleteBundle(acts, w);
  }

  method CompleteBundle(acts: Actions, w: string) returns (c: Completion)
    requires |w| > 1
    ensures c == CompleteShort(acts, w, 1)
  {
    var j := 1;
    while j < |w|
      invariant 1 <= j <= |w|
      invariant CompleteShort(acts, w, j) == CompleteShort(acts, w, 1)
    {
      var opt := ['-', w[j]];
      if opt !in acts {
        return NoCompletions;
      }
      if acts[opt] == OptArg || (acts[opt] == Arg && j + 1 < |w|) {
        return ArgCompletions(opt, w[j + 1..], w[..j + 1]);
      }
      j := j + 1;
    }
    return RawCompletions({w + " "});
  }

  /** How the scan of an argument vector comes to its end. */
  datatype End = Stopped | AfterDashes | WantsArg | Broken | Through

  function HowEnds(acts: Actions, args: seq<string>): End
    decreases |args|
  {
    if args == [] then Through
    else
      var items := Scan(acts, args[0]);
      if IsPositional(args[0]) then Stopped
      else if args[0] == "--" then (if |args| == 1 then AfterDashes else Stopped)
      else if Final(items).NeedNextArg? then
        if |args| == 1 then WantsArg else HowEnds(acts, args[2..])
      else if Final(items).Good() then HowEnds(acts, args[1..])
      else Broken
  }

  predicate GoesOn(acts: Actions, args: seq<string>) {
    && args != [] && !IsPositional(args[0]) && args[0] != "--"
    && Final(Completed(Scan(acts, args[0]), args[1..])).Good()
  }

  // The scan goes on past the first word (and its argument) ...
  lemma ScanStep(acts: Actions, args: seq<string>)
    requires GoesOn(acts, args)
    ensures var items := Scan(acts, args[0]);
            var whole, used := Completed(items, args[1..]), Used(items, args[1..]);
            used <= |args| && ScanAll(acts, args) == Before(whole, used, ScanAll(acts, args[used..]))
  {
    var items := Scan(acts, args[0]);
    WordItems(acts, args[0]);
    assert !Final(items).PositionalHere? && !Final(items).PositionalNext?;
  }

  lemma WholeIsGood(acts: Actions, args: seq<string>)
    requires GoesOn(acts, args)
    ensures var whole := Completed(Scan(acts, args[0]), args[1..]);
            forall k :: 0 <= k < |whole| ==> whole[k].Good()
  {
    hide Scan;
    WordItems(acts, args[0]);
  }

  lemma EndStep(acts: Actions, args: seq<string>)
    requires GoesOn(acts, args)
    ensures HowEnds(acts, args) == HowEnds(acts, args[Used(Scan(acts, args[0]), args[1..])..])
  {
    WordItems(acts, args[0]);
  }

  // ... whatever comes last.
  lemma OneMoreStep(acts: Actions, args: seq<string>, w: string)
    requires GoesOn(acts, args)
    ensures var items := Scan(acts, args[0]);
            var used := Used(items, args[1..]);
            && (args + [w])[0] == args[0]
            && Completed(items, (args + [w])[1..]) == Completed(items, args[1..])
            && Used(items, (args + [w])[1..]) == used <= |args|
            && (args + [w])[used..] == args[used..] + [w]
            && GoesOn(acts, args + [w])
  {
    var next := args[1..];
    assert (args + [w])[1..] == next + [w];
    if Final(Scan(acts, args[0])).NeedNextArg? {
      assert next != [] && (next + [w])[0] == next[0];
    }
  }

  /** What one more word can change about the first positional argument. */
  ghost predicate EndsAs(r: Scanned, s: Scanned, n: nat, one: nat, e: End) {
    && r.positional <= n
    && (e == Stopped <==> r.positional < n)
    && (e == Stopped || e == AfterDashes ==> s.positional == r.positional)
    && (e == WantsArg ==> r.items != [] && Final(r.items).NeedNextArg?)
    && (e == Broken ==> r.items != [] && !Final(r.items).Good() && !Final(r.items).NeedNextArg?)
    && (e == WantsArg || e == Broken ==> s.positional == n + 1)
    && (e == AfterDashes || e == Through ==> ScanOk(r))
    && (e == Through ==> s.positional == n + one)
  }

  lemma EndsAsBefore(r: Scanned, s: Scanned, n: nat, one: nat, e: End, whole: seq<Item>, used: nat)
    requires EndsAs(r, s, n, one, e) && forall k :: 0 <= k < |whole| ==> whole[k].Good()
    ensures EndsAs(Before(whole, used, r), Before(whole, used, s), used + n, one, e)
  {
  }

  /** The prefix lemma. */
  lemma {:induction false} OneMoreWord(acts: Actions, args: seq<string>, w: string)
    ensures EndsAs(ScanAll(acts, args), ScanAll(acts, args + [w]), |args|,
                   ScanAll(acts, [w]).positional, HowEnds(acts, args))
    decreases |args|
  {
    if args == [] {
      assert args + [w] == [w];
    } else {
      var items, next := Scan(acts, args[0]), args[1..];
      var whole, used := Completed(items, next), Used(items, next);
      if GoesOn(acts, args) {
        OneMoreStep(acts, args, w);
        ScanStep(acts, args);
        EndStep(acts, args);
        WholeIsGood(acts, args);
        ScanStep(acts, args + [w]);
        OneMoreWord(acts, args[used..], w);
        EndsAsBefore(ScanAll(acts, args[used..]), ScanAll(acts, args[used..] + [w]), |args[used..]|,
                     ScanAll(acts, [w]).positional, HowEnds(acts, args[used..]), whole, used);
      } else {
        OneMoreEnd(acts, args, w);
      }
    }
  }

  // The scan ends at the first word.
  lemma OneMoreEnd(acts: Actions, args: seq<string>, w: string)
    requires args != [] && !GoesOn(acts, args)
    ensures EndsAs(ScanAll(acts, args), ScanAll(acts, args + [w]), |args|,
                   ScanAll(acts, [w]).positional, HowEnds(acts, args))
  {
    WordItems(acts, args[0]);
    assert (args + [w])[0] == args[0] && (args + [w])[1..] == args[1..] + [w];
    if !IsPositional(args[0]) && args[0] != "--" && Final(Scan(acts, args[0])).NeedNextArg? {
      assert |args| == 1;
      assert (args + [w])[2..] == [];
    }
  }

  lemma {:induction false} ShortIsNoPosition(acts: Actions, w: string, j: nat)
    requires 1 <= j <= |w|
    ensures !CompleteShort(acts, w, j).Position?
    decreases |w| - j
  {
    if j == |w| {
    } else {
      ShortIsNoPosition(acts, w, j + 1);
    }
  }

  lemma PositionOfWord(acts: Actions, w: string, index: nat)
    ensures CompleteWord(acts, w, index).Position? <==> w == "" || w[0] != '-'
    ensures CompleteWord(acts, w, index).Position? ==> CompleteWord(acts, w, index) == Position(index)
    ensures ScanAll(acts, [w]).positional == 0 <==> IsPositional(w)
  {
    WordItems(acts, w);
    if w != "" && w[0] == '-' && |w| > 1 {
      ShortIsNoPosition(acts, w, 1);
    }
  }

  // s: the scan with the unfinished word w taken as it stands.
  lemma AnswerExact(acts: Actions, optind: nat, n: nat, r: Scanned, s: Scanned, w: string, e: End)
    requires EndsAs(r, s, n, ScanAll(acts, [w]).positional, e)
    ensures s.positional <= n ==>
              (Answer(acts, optind, n, r, w) == Position(optind + s.positional) <==>
               (s.positional < n || w == "" || w[0] != '-'))
    ensures Answer(acts, optind, n, r, w).Position? ==>
              Answer(acts, optind, n, r, w) == Position(optind + s.positional)
  {
    PositionOfWord(acts, w, optind + n);
  }

  lemma CompleteIsAnswer(acts: Actions, optind: nat, argv: seq<string>)
    requires optind < |argv|
    ensures var prefix, w := argv[optind..|argv| - 1], argv[|argv| - 1];
            && argv[optind..] == prefix + [w] && |prefix| == |argv| - 1 - optind
            && Complete(acts, optind, argv) == Answer(acts, optind, |prefix|, ScanAll(acts, prefix), w)
            && EndsAs(ScanAll(acts, prefix), ScanAll(acts, argv[optind..]), |prefix|,
                      ScanAll(acts, [w]).positional, HowEnds(acts, prefix))
  {
    var prefix, w := argv[optind..|argv| - 1], argv[|argv| - 1];
    assert argv[optind..] == prefix + [w];
    OneMoreWord(acts, prefix, w);
  }

  /** A position the completer gives is where the parser finds the first positional argument. */
  lemma CompletionAgrees(acts: Actions, optind: nat, argv: seq<string>, k: nat)
    requires Complete(acts, optind, argv) == Position(k) && k < |argv|
    ensures optind <= k && ScanAll(acts, argv[optind..]).positional == k - optind
  {
    var prefix, w := argv[optind..|argv| - 1], argv[|argv| - 1];
    CompleteIsAnswer(acts, optind, argv);
    AnswerExact(acts, optind, |prefix|, ScanAll(acts, prefix), ScanAll(acts, argv[optind..]), w,
                HowEnds(acts, prefix));
  }

  /**
    Conversely, when the parser finds a first positional argument, the completer names
    it exactly unless it is the unfinished word itself and begins with '-'.  So after a
    final "--" the completer still offers options, which the parser would not take.
  */
  lemma CompletionExact(acts: Actions, optind: nat, argv: seq<string>)
    requires optind < |argv| && ScanAll(acts, argv[optind..]).positional < |argv| - optind
    ensures var p, w := ScanAll(acts, argv[optind..]).positional, argv[|argv| - 1];
            Complete(acts, optind, argv) == Position(optind + p) <==>
            (optind + p + 1 < |argv| || w == "" || w[0] != '-')
  {
    var prefix, w := argv[optind..|argv| - 1], argv[|argv| - 1];
    CompleteIsAnswer(acts, optind, argv);
    AnswerExact(acts, optind, |prefix|, ScanAll(acts, prefix), ScanAll(acts, argv[optind..]), w,
                HowEnds(acts, prefix));
  }

  /** Such as: "--" and an unfinished "-x", which is positional, but is completed as an option. */
  lemma DashesThenOption(acts: Actions)
    ensures ScanAll(acts, ["--", "-x"]).positional == 1
    ensures Complete(acts, 0, ["--", "-x"]) != Position(1)
  {
    var argv := ["--", "-x"];
    assert argv[0..] == argv && argv[0] == "--";
    CompletionExact(acts, 0, argv);
  }
}
