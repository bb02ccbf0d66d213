/**
  Two layers on one disk: the strings the overlay builds, the nesting check it makes
  before mounting, and what that check buys.
*/
module OneDisk {
  import opened RawFs
  import opened OverlayView
  import opened DiskAnswers
  import opened OverlayRuns

  // ---- path strings ----

  /** A component as it can stand in a path string. */
  predicate Component(n: Name) {
    n != "" && '/' !in n
  }

  predicate Components(c: Path) {
    forall n :: n in c ==> Component(n)
  }

  function Flat(c: Path): string {
    if c == [] then "" else "/" + c[0] + Flat(c[1..])
  }

  /** The canonical string of an absolute path, as realpath and FUSE give it. */
  function Canon(c: Path): string {
    if c == [] then "/" else Flat(c)
  }

  function Join(base: string, rel: string): string {
    if rel == "" || rel == "/" then base
    else base + (if rel[0] != '/' then "/" else "") + rel
  }

  /** Proper ancestor, as the mount-time check tests it on strings. */
  predicate Under(inner: string, outer: string) {
    |inner| > |outer| && outer <= inner && inner[|outer|] == '/'
  }

  /** The check in main. */
  predicate Nested(lower: string, upper: string) {
    lower == upper || Under(lower, upper) || Under(upper, lower)
  }

  lemma {:induction false} FlatConcat(a: Path, b: Path)
    ensures Flat(a + b) == Flat(a) + Flat(b)
    decreases |a|
  {
    if a == [] {
      assert a + b == b;
    } else {
      assert (a + b)[1..] == a[1..] + b;
      FlatConcat(a[1..], b);
    }
  }

  lemma FlatStarts(a: Path)
    requires Components(a)
    ensures a != [] ==> |Flat(a)| > 1 && Flat(a)[0] == '/' && Flat(a)[1] != '/'
  {
    if a != [] {
      assert Component(a[0]);
      assert Flat(a)[1] == a[0][0];
    }
  }

  /** join glues component sequences, unless the base is the root itself. */
  lemma JoinIsConcat(a: Path, p: Path)
    requires Components(p) && a != []
    ensures Join(Canon(a), Canon(p)) == Canon(a + p)
  {
    FlatConcat(a, p);
    FlatStarts(p);
    assert Canon(a) + "" + Canon(p) == Canon(a) + Canon(p);
    assert p == [] ==> a + p == a;
  }

  // A string that starts with a component and then ends or goes on with '/'
  // determines that component.
  lemma FirstComponent(a: Name, b: Name, s: string, t: string)
    requires Component(a) && Component(b)
    requires a + s <= b + t
    requires s != "" ==> s[0] == '/'
    requires t != "" ==> t[0] == '/'
    requires |a + s| < |b + t| ==> (b + t)[|a + s|] == '/'
    ensures a == b && s <= t
  {
    var x, y := a + s, b + t;
    assert forall i :: 0 <= i < |x| ==> x[i] == y[i];
    assert forall i :: 0 <= i < |a| ==> x[i] == a[i] && a[i] != '/';
    assert forall i :: 0 <= i < |b| ==> y[i] == b[i] && b[i] != '/';
    assert |b| < |y| ==> y[|b|] == t[0] == '/';
    assert |a| < |x| ==> x[|a|] == s[0] == '/';
    assert |a| == |b|;
    assert a == b;
    assert s == x[|a|..] && t == y[|a|..];
  }

  /** On canonical strings, "equal or below" is the prefix order of the components. */
  lemma FlatOrder(a: Path, b: Path)
    requires Components(a) && Components(b)
    ensures a <= b <==> Flat(a) == Flat(b) || Under(Flat(b), Flat(a))
  {
    if a <= b {
      var rest := b[|a|..];
      assert b == a + rest;
      FlatConcat(a, rest);
      FlatStarts(rest);
    }
    if Flat(a) == Flat(b) || Under(Flat(b), Flat(a)) {
      FlatPrefix(a, b);
    }
  }

  lemma {:induction false} FlatPrefix(a: Path, b: Path)
    requires Components(a) && Components(b)
    requires Flat(a) == Flat(b) || Under(Flat(b), Flat(a))
    ensures a <= b
    decreases |a|
  {
    hide Component, Flat, Under;
    if a == [] {
    } else {
      FlatPrefixStep(a, b);
      FlatPrefix(a[1..], b[1..]);
      assert a == [a[0]] + a[1..] && b == [b[0]] + b[1..];
    }
  }

  // The first components agree, and the rest is a smaller case.
  lemma FlatPrefixStep(a: Path, b: Path)
    requires Components(a) && Components(b) && a != []
    requires Flat(a) == Flat(b) || Under(Flat(b), Flat(a))
    ensures b != [] && a[0] == b[0] && (Flat(a[1..]) == Flat(b[1..]) || Under(Flat(b[1..]), Flat(a[1..])))
  {
    FlatStarts(a);
    FlatStarts(b);
    FlatSplits(a);
    assert b != [];
    FlatSplits(b);
    FlatStarts(a[1..]);
    FlatStarts(b[1..]);
    hide Flat, Component;
    var s, t := Flat(a[1..]), Flat(b[1..]);
    FirstComponent(a[0], b[0], s, t);
    assert |s| < |t| ==> t[|s|] == (b[0] + t)[|a[0]| + |s|];
  }

  lemma FlatSplits(a: Path)
    requires Components(a) && a != []
    ensures Component(a[0]) && Components(a[1..])
    ensures Flat(a)[1..] == a[0] + Flat(a[1..])
  {
    assert Flat(a) == "/" + (a[0] + Flat(a[1..]));
  }

  /**
    The mount-time check is exact for every pair of canonical directories but those
    of which one alone is the root, which it lets through.
  */
  lemma NestingCheckExact(a: Path, b: Path)
    requires Components(a) && Components(b)
    ensures ((a <= b || b <= a) <==> Nested(Canon(a), Canon(b))) <==> ((a == []) == (b == []))
    ensures Nested(Canon(a), Canon(b)) ==> a <= b || b <= a
  {
    FlatOrder(a, b);
    FlatOrder(b, a);
    FlatStarts(a);
    FlatStarts(b);
  }

  // ---- the strings the overlay builds ----

  /** "<dir>/<name>", as the code writes it out for what lies in a directory of upper. */
  lemma ChildString(b: Path, p: Path, n: Name)
    requires Components(p) && b != [] && Component(n)
    ensures Join(Canon(b), Canon(p)) + "/" + n == Canon(b + (p + [n]))
  {
    JoinIsConcat(b, p);
    FlatConcat(b + p, [n]);
    assert b + (p + [n]) == b + p + [n];
    assert Flat([n]) == "/" + n + "" == "/" + n;
    assert Canon(b + p) + "/" + n == Canon(b + p) + ("/" + n);
  }

  lemma ComponentsExtend(p: Path, n: Name)
    requires Components(p) && Component(n)
    ensures Components(p + [n])
  {
  }

  /** The names the overlay makes up are components, if those it is asked about are. */
  lemma MadeNamesAreComponents(p: Path, pid: nat, k: nat)
    requires Components(p)
    ensures Components(Opq(p))
    ensures p != [] ==> Components(Sidecar(p)) && Components(TempPath(p, pid, k)) && Components(Parent(p))
  {
    if p != [] {
      assert Component(Last(p)) && Components(Parent(p));
      ComponentsExtend(Parent(p), WH + Last(p));
      ComponentsExtend(Parent(p), Last(p) + TempSuffix(pid, k));
    }
    ComponentsExtend(p, OPQ);
  }

  /** The strings built for a path and its opaque mark ... */
  lemma PathStrings(b: Path, p: Path)
    requires b != [] && Components(p)
    ensures Join(Canon(b), Canon(p)) == Canon(b + p)
    ensures Join(Canon(b), Canon(p)) + "/" + OPQ == Canon(b + Opq(p))
  {
    JoinIsConcat(b, p);
    ChildString(b, p, OPQ);
  }

  /** ... for a leaf and its sidecar ... */
  lemma LeafStrings(b: Path, p: Path)
    requires b != [] && p != [] && Components(p)
    ensures var dir := Join(Canon(b), Canon(Parent(p)));
            && dir + "/" + Last(p) == Canon(b + p)
            && dir + "/" + (WH + Last(p)) == Canon(b + Sidecar(p))
  {
    hide Join, Canon, Flat;
    MadeNamesAreComponents(p, 0, 0);
    assert Component(Last(p)) && Component(WH + Last(p));
    assert p == Parent(p) + [Last(p)];
    ChildString(b, Parent(p), Last(p));
    ChildString(b, Parent(p), WH + Last(p));
  }

  /** ... and for a temporary file are the strings of these paths. */
  lemma TempString(b: Path, p: Path, pid: nat, k: nat)
    requires b != [] && p != [] && Components(p)
    ensures Join(Canon(b), Canon(p)) + TempSuffix(pid, k) == Canon(b + TempPath(p, pid, k))
  {
    hide Join, Canon, Flat, TempSuffix;
    var d, n, t := Parent(p), Last(p), TempSuffix(pid, k);
    MadeNamesAreComponents(p, pid, k);
    assert Component(n) && Component(n + t);
    ChildString(b, d, n + t);
    LeafStrings(b, p);
    JoinIsConcat(b, p);
    Associates(Join(Canon(b), Canon(d)) + "/", n, t);
  }

  lemma Associates(a: string, b: string, c: string)
    ensures a + b + c == a + (b + c)
  {
  }

  // ---- what an operation writes ----

  /**
    The raw paths of upper that an operation on p may write: p and the directories above
    it, its sidecar, its temporary names, and what lies right in p, marks included.
  */
  ghost predicate Writes(p: Path, x: Path) {
    || x <= p
    || IsChild(p, x)
    || (p != [] && (x == Sidecar(p) || exists pid, k :: x == TempPath(p, pid, k)))
  }

  lemma WritesItself(p: Path)
    ensures forall x {:trigger Writes(p, x)} :: x <= p ==> Writes(p, x)
    ensures Writes(p, Opq(p))
  {
  }

  lemma WritesMarks(p: Path)
    requires p != []
    ensures Writes(p, Sidecar(p))
  {
  }

  /** The string the overlay writes to for path x of the upper layer at b lies at or under a. */
  predicate LandsIn(a: Path, b: Path, x: Path) {
    var target := Join(Canon(b), Canon(x));
    target == Canon(a) || Under(target, Canon(a))
  }

  lemma LandsInExact(a: Path, b: Path, x: Path)
    requires Components(a) && Components(b) && Components(x) && a != [] && b != []
    ensures LandsIn(a, b, x) <==> a <= b + x
  {
    JoinIsConcat(b, x);
    FlatOrder(a, b + x);
  }

  lemma WrittenIsComponents(p: Path, x: Path)
    requires Components(p) && Writes(p, x) && (IsChild(p, x) ==> Component(Last(x)))
    ensures Components(x)
  {
    MadeNamesAreComponents(p, 0, 0);
    if x <= p {
      assert forall n :: n in x ==> n in p;
    } else if IsChild(p, x) {
      assert x == p + [Last(x)];
    } else if x != Sidecar(p) {
      var pid, k :| x == TempPath(p, pid, k);
      MadeNamesAreComponents(p, pid, k);
    }
  }

  /**
    The check refuses exactly the mounts on which some path that some operation writes,
    temporary names and marks included, lies at or under lower.
  */
  lemma WritesStayOut(a: Path, b: Path)
    requires Components(a) && Components(b) && a != [] && b != []
    ensures Nested(Canon(a), Canon(b)) <==>
            exists p, x :: Components(p) && Components(x) && Writes(p, x) && LandsIn(a, b, x)
  {
    NestingCheckExact(a, b);
    if a <= b {
      LandsInExact(a, b, []);
      assert Writes([], []);
    } else if b <= a {
      var r := a[|b|..];
      LandsInExact(a, b, r);
      assert a == b + r && Components(r) && Writes(r, r);
    }
    forall p, x | Components(p) && Components(x) && Writes(p, x) && LandsIn(a, b, x) ensures a <= b || b <= a {
      LandsInExact(a, b, x);
      PrefixesCompare(b, a, x);
    }
  }

  /** A lower layer that is the whole disk passes the check, and every write lands under it. */
  lemma RootSlipsThrough()
    ensures !Nested(Canon([]), Canon(["u"]))
    ensures [] <= ["u"] && Join(Canon(["u"]), Canon(["f"])) == Canon(["u", "f"])
  {
    NestingCheckExact([], ["u"]);
    JoinIsConcat(["u"], ["f"]);
    assert ["u"] + ["f"] == ["u", "f"];
  }

  // ---- both layers on one disk ----

  /** The tree found under base. */
  function Layer(d: Tree, base: Path): Tree {
    var ps := set x | x in d && base <= x :: x[|base|..];
    map p | p in ps && base + p in d :: d[base + p]
  }

  /** The disk after everything under base has been made to be t. */
  function PutLayer(d: Tree, base: Path, t: Tree): Tree {
    var ps := set p | p in t :: base + p;
    (map x | x in d && !(base <= x) :: d[x]) + (map x | x in ps && x[|base|..] in t :: t[x[|base|..]])
  }

  lemma LayerLookup(d: Tree, base: Path, p: Path)
    ensures At(Layer(d, base), p) == At(d, base + p)
  {
    if base + p in d {
      assert (base + p)[|base|..] == p;
      assert base <= base + p;
    }
  }

  lemma PutLayerAt(d: Tree, base: Path, t: Tree, x: Path)
    ensures base <= x ==> At(PutLayer(d, base, t), x) == At(t, x[|base|..])
    ensures !(base <= x) ==> At(PutLayer(d, base, t), x) == At(d, x)
  {
    var ps := set p | p in t :: base + p;
    if base <= x {
      assert x == base + x[|base|..];
    }
    forall p | p in t ensures base <= base + p && (base + p)[|base|..] == p {
    }
  }

  predicate Apart(a: Path, b: Path) {
    !(a <= b) && !(b <= a)
  }

  lemma PrefixesCompare(a: Path, b: Path, p: Path)
    ensures b <= a + p ==> b <= a || a <= b
  {
    if b <= a + p {
      if |b| <= |a| {
        assert b <= a;
      } else {
        assert a <= b;
      }
    }
  }

  /** Rewriting one layer is invisible in the other. */
  lemma LayersAreApart(d: Tree, a: Path, b: Path, t: Tree)
    requires Apart(a, b)
    ensures Layer(PutLayer(d, b, t), a) == Layer(d, a)
    ensures Layer(PutLayer(d, b, t), b) == t
  {
    var e := PutLayer(d, b, t);
    forall p ensures At(Layer(e, a), p) == At(Layer(d, a), p) && At(Layer(e, b), p) == At(t, p) {
      LayerLookup(e, a, p);
      LayerLookup(d, a, p);
      LayerLookup(e, b, p);
      PrefixesCompare(a, b, p);
      PutLayerAt(d, b, t, a + p);
      PutLayerAt(d, b, t, b + p);
      assert (b + p)[|b|..] == p;
    }
    SameAt(Layer(e, a), Layer(d, a));
    SameAt(Layer(e, b), t);
  }

  // ---- raw calls on the disk ----

  lemma PutLayerIs(d: Tree, b: Path, t: Tree, e: Tree)
    requires forall x {:trigger At(e, x)} :: At(e, x) == if b <= x then At(t, x[|b|..]) else At(d, x)
    ensures PutLayer(d, b, t) == e
  {
    forall x ensures At(PutLayer(d, b, t), x) == At(e, x) {
      PutLayerAt(d, b, t, x);
    }
    SameAt(PutLayer(d, b, t), e);
  }

  lemma PutLayerBack(d: Tree, b: Path)
    ensures PutLayer(d, b, Layer(d, b)) == d
  {
    hide PutLayer, Layer;
    forall x ensures At(d, x) == if b <= x then At(Layer(d, b), x[|b|..]) else At(d, x) {
      if b <= x {
        assert b + x[|b|..] == x;
        LayerLookup(d, b, x[|b|..]);
      }
    }
    PutLayerIs(d, b, Layer(d, b), d);
  }

  lemma LayerOfPut(d: Tree, b: Path, t: Tree)
    ensures Layer(PutLayer(d, b, t), b) == t
  {
    hide PutLayer, Layer;
    var e := PutLayer(d, b, t);
    forall x ensures At(Layer(e, b), x) == At(t, x) {
      LayerLookup(e, b, x);
      PutLayerAt(d, b, t, b + x);
      assert (b + x)[|b|..] == x;
    }
    SameAt(Layer(e, b), t);
  }

  lemma PutLayerTwice(d: Tree, b: Path, t: Tree, s: Tree)
    ensures PutLayer(PutLayer(d, b, t), b, s) == PutLayer(d, b, s)
  {
    hide PutLayer;
    forall x ensures At(PutLayer(d, b, s), x) == if b <= x then At(s, x[|b|..]) else At(PutLayer(d, b, t), x) {
      PutLayerAt(d, b, s, x);
      PutLayerAt(d, b, t, x);
    }
    PutLayerIs(PutLayer(d, b, t), b, s, PutLayer(d, b, s));
  }

  /** Changing one entry of a layer changes this entry of the disk. */
  lemma PutLayerEntry(d: Tree, b: Path, p: Path, n: Node)
    ensures PutLayer(d, b, Layer(d, b)[p := n]) == d[b + p := n]
    ensures PutLayer(d, b, Layer(d, b) - {p}) == d - {b + p}
  {
    hide PutLayer, Layer;
    var t := Layer(d, b);
    forall x
      ensures At(d[b + p := n], x) == if b <= x then At(t[p := n], x[|b|..]) else At(d, x)
      ensures At(d - {b + p}, x) == if b <= x then At(t - {p}, x[|b|..]) else At(d, x)
    {
      assert b <= b + p && (b + p)[|b|..] == p;
      if b <= x {
        assert b + x[|b|..] == x;
        LayerLookup(d, b, x[|b|..]);
      }
    }
    PutLayerIs(d, b, t[p := n], d[b + p := n]);
    PutLayerIs(d, b, t - {p}, d - {b + p});
  }

  /** The call on the layer, done on the disk by absolute path. */
  predicate DoneOnDisk(d: Tree, b: Path, onDisk: Done, onLayer: Done) {
    onDisk == Done(PutLayer(d, b, onLayer.tree), onLayer.err)
  }

  lemma EntryLocal(d: Tree, b: Path, p: Path, n: Node)
    requires p != []
    ensures DoneOnDisk(d, b, AddEntry(d, b + p, n), AddEntry(Layer(d, b), p, n))
  {
    hide PutLayer, Layer;
    assert Parent(b + p) == b + Parent(p);
    LayerLookup(d, b, p);
    LayerLookup(d, b, Parent(p));
    PutLayerBack(d, b);
    PutLayerEntry(d, b, p, n);
  }

  lemma NamesLocal(d: Tree, b: Path, p: Path)
    ensures Names(d, b + p) == Names(Layer(d, b), p)
  {
    hide Layer;
    forall n ensures n in Names(d, b + p) <==> n in Names(Layer(d, b), p) {
      assert b + p + [n] == b + (p + [n]);
      LayerLookup(d, b, p + [n]);
    }
  }

  // The calls that look at one entry and change at most that one.
  lemma OneEntryLocal(d: Tree, b: Path, c: RawCall)
    requires c.Sensible() && !c.RenameCall?
    ensures DoneOnDisk(d, b, Apply(d, c.From(b)), Apply(Layer(d, b), c))
  {
    hide PutLayer, Layer;
    var p, t := c.at, Layer(d, b);
    LayerLookup(d, b, p);
    NamesLocal(d, b, p);
    PutLayerBack(d, b);
    PutLayerEntry(d, b, p, Whiteout);
    if !c.AddsEntry() {
      var e := Apply(t, c).tree;
      if p in e {
        PutLayerEntry(d, b, p, e[p]);
      }
    } else if c.OpenCreateCall? && p in t {
      PutLayerEntry(d, b, p, if t[p].Reg? then Reg(t[p].mode, []) else t[p]);
    } else if !c.MknodCall? || !c.denied {
      EntryLocal(d, b, p, NewEntry(c));
    }
  }

  function NewEntry(c: RawCall): Node {
    match c
    case MkdirCall(_, mode) => Dir(mode)
    case SymlinkCall(_, target) => Link(target)
    case MknodCall(_, _) => Whiteout
    case OpenExclCall(_, mode) => Reg(mode, [])
    case OpenCreateCall(_, mode, _) => Reg(mode, [])
    case _ => Whiteout
  }

  lemma RenameFileLocal(d: Tree, b: Path, from: Path, to: Path)
    requires to != [] && !DirAt(d, b + from)
    ensures !DirAt(Layer(d, b), from)
    ensures DoneOnDisk(d, b, RenameFile(d, b + from, b + to), RenameFile(Layer(d, b), from, to))
  {
    hide PutLayer, Layer;
    assert Parent(b + to) == b + Parent(to);
    assert (b + from)[|b|..] == from && (b + to)[|b|..] == to;
    LayerLookup(d, b, from);
    LayerLookup(d, b, to);
    LayerLookup(d, b, Parent(to));
    PutLayerBack(d, b);
    if from in Layer(d, b) {
      var e, n := d - {b + from}, d[b + from];
      PutLayerEntry(d, b, from, n);
      LayerOfPut(d, b, Layer(d, b) - {from});
      PutLayerEntry(e, b, to, n);
      PutLayerTwice(d, b, Layer(d, b) - {from}, Layer(e, b)[to := n]);
    }
  }

  lemma MovedLocal(d: Tree, b: Path, from: Path, to: Path)
    ensures Moved(d, b + from, b + to) == PutLayer(d, b, Moved(Layer(d, b), from, to))
  {
    hide PutLayer, Layer, Moved;
    var t, e := Layer(d, b), Moved(d, b + from, b + to);
    forall x ensures At(e, x) == if b <= x then At(Moved(t, from, to), x[|b|..]) else At(d, x) {
      MovedLocalAt(d, b, from, to, x);
    }
    PutLayerIs(d, b, Moved(t, from, to), e);
  }

  lemma MovedLocalAt(d: Tree, b: Path, from: Path, to: Path, x: Path)
    ensures At(Moved(d, b + from, b + to), x) ==
            if b <= x then At(Moved(Layer(d, b), from, to), x[|b|..]) else At(d, x)
  {
    hide Layer, Moved;
    MovedLookup(d, b + from, b + to, x);
    if b <= x {
      var y := x[|b|..];
      assert x == b + y;
      MovedLookup(Layer(d, b), from, to, y);
      LayerLookup(d, b, y);
      PrefixUnder(b, to, y);
      PrefixUnder(b, from, y);
      if to <= y {
        var s := y[|to|..];
        assert (b + y)[|b + to|..] == s && b + from + s == b + (from + s);
        LayerLookup(d, b, from + s);
      }
    } else {
      NotUnder(b, to, x);
      NotUnder(b, from, x);
    }
  }

  lemma PrefixUnder(b: Path, p: Path, y: Path)
    ensures b + p <= b + y <==> p <= y
  {
    if b + p <= b + y {
      assert p == (b + p)[|b|..] && y == (b + y)[|b|..];
      assert (b + y)[..|b + p|] == b + p;
    }
    if p <= y {
      assert b + y == b + p + y[|p|..];
    }
  }

  lemma NotUnder(b: Path, p: Path, x: Path)
    ensures b + p <= x ==> b <= x
  {
    if b + p <= x {
      assert x[..|b|] == (b + p)[..|b|] == b;
    }
  }

  lemma RenameTreeLocal(d: Tree, b: Path, from: Path, to: Path)
    requires to != []
    ensures DoneOnDisk(d, b, RenameTree(d, b + from, b + to), RenameTree(Layer(d, b), from, to))
  {
    hide PutLayer, Layer, Moved;
    var t := Layer(d, b);
    assert Parent(b + to) == b + Parent(to);
    assert (b + from)[|b|..] == from && (b + to)[|b|..] == to;
    PrefixUnder(b, from, to);
    LayerLookup(d, b, from);
    LayerLookup(d, b, to);
    LayerLookup(d, b, Parent(to));
    NamesLocal(d, b, to);
    PutLayerBack(d, b);
    PutLayerEntry(d, b, to, Whiteout);
    LayerOfPut(d, b, t - {to});
    MovedLocal(d - {b + to}, b, from, to);
    PutLayerTwice(d, b, t - {to}, Moved(t - {to}, from, to));
  }

  /** A raw call by absolute path under b does to the disk what it does to the layer at b, and nothing else. */
  lemma RawCallIsLocal(d: Tree, b: Path, c: RawCall)
    requires c.Sensible()
    ensures c.From(b).Sensible()
    ensures Apply(d, c.From(b)) ==
            Done(PutLayer(d, b, Apply(Layer(d, b), c).tree), Apply(Layer(d, b), c).err)
  {
    hide PutLayer, Layer;
    if c.RenameCall? {
      LayerLookup(d, b, c.at);
      if DirAt(d, b + c.at) {
        RenameTreeLocal(d, b, c.at, c.to);
      } else {
        RenameFileLocal(d, b, c.at, c.to);
      }
    } else {
      OneEntryLocal(d, b, c);
    }
  }

  // ---- whole runs on one disk ----

  datatype DiskMount = DiskMount(disk: Tree, canMknod: bool)

  function MountOf(d: DiskMount, b: Path): Mount {
    Mount(Layer(d.disk, b), d.canMknod)
  }

  ghost predicate DiskRunOk(a: Path, b: Path, d: DiskMount, cs: seq<Call>)
    decreases |cs|
  {
    cs == [] ||
    (CallerOk(View(Layer(d.disk, a), Layer(d.disk, b)), cs[0].op) &&
     DiskRunOk(a, b, DiskStep(a, b, d, cs[0]), cs[1..]))
  }

  /** One operation on the disk: reads what lower holds at that moment, writes under upper. */
  ghost function DiskStep(a: Path, b: Path, d: DiskMount, c: Call): DiskMount
    requires CallerOk(View(Layer(d.disk, a), Layer(d.disk, b)), c.op)
  {
    var m := Step(Layer(d.disk, a), MountOf(d, b), c).mount;
    DiskMount(PutLayer(d.disk, b, m.upper), m.canMknod)
  }

  ghost function DiskRun(a: Path, b: Path, d: DiskMount, cs: seq<Call>): DiskMount
    requires DiskRunOk(a, b, d, cs)
    decreases |cs|
  {
    if cs == [] then d else DiskRun(a, b, DiskStep(a, b, d, cs[0]), cs[1..])
  }

  /**
    A mount that passed the check, with neither layer the root: every run leaves the
    whole lower tree as it was, touches nothing outside upper, and what it leaves in
    upper is what the run on two separate trees leaves there.
  */
  lemma {:induction false} LowerIsUntouched(a: Path, b: Path, d: DiskMount, cs: seq<Call>)
    requires Components(a) && Components(b) && a != [] && b != []
    requires !Nested(Canon(a), Canon(b))
    requires DiskRunOk(a, b, d, cs)
    ensures var e := DiskRun(a, b, d, cs);
            && Layer(e.disk, a) == Layer(d.disk, a)
            && (forall x :: !(b <= x) ==> At(e.disk, x) == At(d.disk, x))
            && RunOk(Layer(d.disk, a), MountOf(d, b), cs)
            && MountOf(e, b) == Run(Layer(d.disk, a), MountOf(d, b), cs).mount
    decreases |cs|
  {
    if cs == [] {
    } else {
      NestingCheckExact(a, b);
      var e := DiskStep(a, b, d, cs[0]);
      var m := Step(Layer(d.disk, a), MountOf(d, b), cs[0]).mount;
      LayersAreApart(d.disk, a, b, m.upper);
      forall x | !(b <= x) ensures At(e.disk, x) == At(d.disk, x) {
        PutLayerAt(d.disk, b, m.upper, x);
      }
      LowerIsUntouched(a, b, e, cs[1..]);
    }
  }
}
