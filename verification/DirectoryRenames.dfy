/**
  Renaming a directory.  The code copies the directory itself up and moves what is in
  the upper layer; it never marks the moved directory opaque, nor brings along what is
  still in the lower layer.  Here is exactly when that is a rename.
*/
module DirectoryRenames {
  import opened RawFs
  import opened OverlayView
  import opened OverlayEdits
  import opened OverlayRuns

  /** What op_rename makes of the upper layer for a directory p, once p and g's parents are there. */
  function MoveDir(l: Tree, v: Tree, p: Path, g: Path, dev: bool): Tree
    requires p != [] && g != []
  {
    var w := Moved(Bared(v, g), p, g);
    if p in l then WhitedOut(w, p, dev) else w
  }

  /** u with p copied up and g's parents made. */
  function MadeReady(l: Tree, u: Tree, p: Path, g: Path): Tree
    requires g != []
  {
    WithDirs(l, CopyUpStep(l, u, p, OK).tree, Parent(g))
  }

  function RenameDir(l: Tree, u: Tree, p: Path, g: Path, dev: bool): Tree
    requires p != [] && g != []
  {
    MoveDir(l, MadeReady(l, u, p, g), p, g, dev)
  }

  /** A directory, and a name for it that is not taken and not its own descendant's. */
  predicate DirRename(l: Tree, u: Tree, p: Path, g: Path) {
    && UserPath(p) && UserPath(g) && ServedDir(l, u, p) && ServedDir(l, u, Parent(g))
    && !Live(Serve(l, u, g)) && !(p <= g)
  }

  lemma MovedAt(t: Tree, p: Path, g: Path, y: Path)
    requires !(p <= g) && !(g <= p)
    requires forall x :: x in t ==> !(g <= x)
    ensures g <= y ==> At(Moved(t, p, g), y) == At(t, p + y[|g|..])
    ensures !(g <= y) ==> At(Moved(t, p, g), y) == At(Cut(t, p), y)
  {
    MovedLookup(t, p, g, y);
    if g <= y && p <= y {
      Crossing(p, g, y);
    }
  }

  lemma Crossing(p: Path, g: Path, y: Path)
    requires p <= y && g <= y
    ensures p <= g || g <= p
  {
    if |p| <= |g| {
      assert p == y[..|p|] == g[..|p|];
    } else {
      assert g == y[..|g|] == p[..|g|];
    }
  }

  // ---- what is served after the move ----

  // The state MoveDir starts from.
  ghost predicate Started(l: Tree, v: Tree, p: Path, g: Path) {
    && Inv(l, v) && DirRename(l, v, p, g) && DirAt(v, p) && DirAt(v, Parent(g))
  }

  lemma ReadyIsApart(l: Tree, v: Tree, p: Path, g: Path)
    requires Started(l, v, p, g)
    ensures !(g <= p) && p != g
    ensures forall x :: x in v ==> !(g < x)
    ensures forall x :: x in Bared(v, g) ==> !(g <= x)
    ensures !DirAt(v, Sidecar(g)) && !DirAt(v, Sidecar(p)) && Sidecar(p) !in v
  {
    ServeStep(l, v, g);
    assert g in v ==> EntryOk(v, g);
    assert Sidecar(g) in v ==> EntryOk(v, Sidecar(g));
    assert EntryOk(v, p);
    if g in v && v[g] != Whiteout {
      UpperWins(l, v, g);
    }
    forall x | x in v ensures !(g < x) {
      if g < x {
        NoOrphans(v, g, x);
      }
    }
    if g <= p {
      NoOrphans(v, g, p);
    }
    forall x | x in Bared(v, g) ensures !(g <= x) {
      assert x in v && x != g;
    }
  }

  lemma MoveDirUnder(l: Tree, v: Tree, p: Path, g: Path, dev: bool, y: Path)
    requires Started(l, v, p, g) && g <= y
    ensures At(MoveDir(l, v, p, g, dev), y) == At(v, p + y[|g|..])
  {
    ReadyIsApart(l, v, p, g);
    MovedAt(Bared(v, g), p, g, y);
    PrefixParent(g, Sidecar(p));
    PrefixParent(p, Sidecar(g));
    PrefixParent(p, g);
    PrefixParent(g, p);
    assert y != p && y != Sidecar(p);
    var x := p + y[|g|..];
    assert p <= x;
    assert x != Sidecar(g) && x != g;
  }

  lemma MoveDirAway(l: Tree, v: Tree, p: Path, g: Path, dev: bool, y: Path)
    requires Started(l, v, p, g) && !Near(g, y)
    ensures At(MoveDir(l, v, p, g, dev), y) == At(DropNode(l, v, p, dev), y)
  {
    ReadyIsApart(l, v, p, g);
    MovedAt(Bared(v, g), p, g, y);
  }

  lemma MoveDirSidecar(l: Tree, v: Tree, p: Path, g: Path, dev: bool)
    requires Started(l, v, p, g)
    ensures At(MoveDir(l, v, p, g, dev), Sidecar(g)) == None
  {
    ReadyIsApart(l, v, p, g);
    PrefixParent(g, g);
    assert !(g <= Sidecar(g));
    MovedAt(Bared(v, g), p, g, Sidecar(g));
    assert HiddenBy(Sidecar(g)) != HiddenBy(Sidecar(p));
  }

  /** Away from both places the move changes nothing; under g stands what stood under p. */
  lemma MoveDirAt(l: Tree, v: Tree, p: Path, g: Path, dev: bool, y: Path)
    requires Started(l, v, p, g)
    ensures var w := MoveDir(l, v, p, g, dev);
            && (!Near(g, y) ==> At(w, y) == At(DropNode(l, v, p, dev), y))
            && (g <= y ==> At(w, y) == At(v, p + y[|g|..]))
            && At(w, Sidecar(g)) == None
  {
    if !Near(g, y) {
      MoveDirAway(l, v, p, g, dev, y);
    }
    if g <= y {
      MoveDirUnder(l, v, p, g, dev, y);
    }
    MoveDirSidecar(l, v, p, g, dev);
  }

  // The two steps of the move: what happens at p, and what happens at g.
  lemma MoveFrames(l: Tree, v: Tree, p: Path, g: Path, dev: bool)
    requires Started(l, v, p, g)
    ensures var c, w := DropNode(l, v, p, dev), MoveDir(l, v, p, g, dev);
            SameAway(v, c, p) && SameAway(c, w, g) && [] in c && [] in w
  {
    var c, w := DropNode(l, v, p, dev), MoveDir(l, v, p, g, dev);
    ReadyIsApart(l, v, p, g);
    DropNodeParent(l, v, p);
    DropNodeKeepsInv(l, v, p, dev);
    forall x {:trigger At(c, x)} {:trigger At(w, x)} | !Near(g, x) ensures At(c, x) == At(w, x) {
      MoveDirAt(l, v, p, g, dev, x);
    }
    MoveDirAt(l, v, p, g, dev, Sidecar(g));
    MoveDirAt(l, v, p, g, dev, []);
    assert At(c, Sidecar(g)).None? || !DirAt(c, Sidecar(g)) by {
      assert Sidecar(g) in c ==> EntryOk(c, Sidecar(g));
    }
    assert [] in c && At(c, []) == At(w, []);
  }

  lemma ServedElsewhere(l: Tree, v: Tree, p: Path, g: Path, dev: bool, y: Path)
    requires Started(l, v, p, g) && !(p <= y) && !(g <= y)
    ensures Serve(l, MoveDir(l, v, p, g, dev), y) == Serve(l, v, y)
    ensures [] in MoveDir(l, v, p, g, dev)
  {
    var c, w := DropNode(l, v, p, dev), MoveDir(l, v, p, g, dev);
    MoveFrames(l, v, p, g, dev);
    ServeFrame(l, v, c, p, y);
    ServeFrame(l, c, w, g, y);
  }

  lemma DropNodeParent(l: Tree, v: Tree, p: Path)
    requires Inv(l, v) && p != [] && p in v
    ensures DirAt(v, Parent(p))
  {
    assert ParentOk(v, p);
  }

  lemma DroppedIsDead(l: Tree, v: Tree, w: Tree, p: Path, dev: bool)
    requires UserPath(p) && Sidecar(p) !in v
    requires At(w, p) == At(DropNode(l, v, p, dev), p)
    requires At(w, Sidecar(p)) == At(DropNode(l, v, p, dev), Sidecar(p))
    ensures !Live(Local(l, w, p))
  {
    assert Sidecar(p) != p;
  }

  lemma SourceIsDead(l: Tree, v: Tree, p: Path, g: Path, dev: bool)
    requires Started(l, v, p, g)
    ensures !Live(Serve(l, MoveDir(l, v, p, g, dev), p))
  {
    hide Serve, Inv, MoveDir, DropNode;
    var w := MoveDir(l, v, p, g, dev);
    ReadyIsApart(l, v, p, g);
    PrefixParent(g, Sidecar(p));
    PrefixParent(g, p);
    assert HiddenBy(Sidecar(g)) != HiddenBy(Sidecar(p));
    assert p != Sidecar(g);
    MoveDirAway(l, v, p, g, dev, p);
    MoveDirAway(l, v, p, g, dev, Sidecar(p));
    DroppedIsDead(l, v, w, p, dev);
    ServedElsewhere(l, v, p, g, dev, []);
    ServeStep(l, w, p);
  }

  lemma NothingAtSource(l: Tree, v: Tree, p: Path, g: Path, dev: bool, y: Path)
    requires Started(l, v, p, g) && p <= y
    ensures !Live(Serve(l, MoveDir(l, v, p, g, dev), y))
  {
    hide MoveDir, Serve, Inv;
    var w := MoveDir(l, v, p, g, dev);
    ReadyIsApart(l, v, p, g);
    SourceIsDead(l, v, p, g, dev);
    ServedElsewhere(l, v, p, g, dev, []);
    if p < y {
      NoDirIsBare(l, w, p);
      NothingBelow(l, w, p, y);
    } else {
      assert y == p;
    }
  }

  // ---- below the new name ----

  /** A directory above s is opaque, for a directory with its upper part at p and its lower part at q. */
  predicate OpaqueOver(u: Tree, p: Path, q: Path, s: Path)
    decreases |s|
  {
    if s == [] then OpaqueAbove(u, q)
    else OpaqueOver(u, p, q, Parent(s)) || IsOpaqueDir(u, p + Parent(s))
  }

  /** What the lower tree under q contributes at s to a directory with its upper part at p. */
  function Shown(l: Tree, u: Tree, p: Path, q: Path, s: Path): Option<Node>
    decreases |s|
  {
    if s == [] then None
    else
      var d := Parent(s);
      var above := d == [] || DirAt(u, p + d) || HasDir(Shown(l, u, p, q, d));
      if above && UserPath(s) && q + s in l && p + s !in u && !HasSidecar(u, p + s) && !OpaqueOver(u, p, q, s)
      then Some(l[q + s]) else None
  }

  predicate HasDir(n: Option<Node>) {
    n.Some? && n.value.Dir?
  }

  lemma Extended(p: Path, s: Path)
    requires s != []
    ensures Parent(p + s) == p + Parent(s) && Last(p + s) == Last(s) && p < p + s
    ensures UserPath(p + s) == UserPath(s)
  {
  }

  lemma {:induction false} OpaqueUnder(l: Tree, v: Tree, p: Path, g: Path, dev: bool, s: Path)
    requires Started(l, v, p, g)
    ensures OpaqueAbove(MoveDir(l, v, p, g, dev), g + s) == OpaqueOver(v, p, g, s)
    decreases |s|
  {
    hide MoveDir, DropNode, Inv;
    if s == [] {
      var c := DropNode(l, v, p, dev);
      assert g + s == g;
      MoveFrames(l, v, p, g, dev);
      OpaqueFrame(v, c, p, g);
      OpaqueFrame(c, MoveDir(l, v, p, g, dev), g, g);
    } else {
      Extended(g, s);
      OpaqueUnder(l, v, p, g, dev, Parent(s));
      OpaqueMarkMoves(l, v, p, g, dev, Parent(s));
    }
  }

  lemma OpaqueMarkMoves(l: Tree, v: Tree, p: Path, g: Path, dev: bool, d: Path)
    requires Started(l, v, p, g)
    ensures IsOpaqueDir(MoveDir(l, v, p, g, dev), g + d) == IsOpaqueDir(v, p + d)
  {
    hide MoveDir;
    MovedTo(l, v, p, g, dev, d);
    MovedTo(l, v, p, g, dev, d + [OPQ]);
    assert Opq(g + d) == g + (d + [OPQ]) && Opq(p + d) == p + (d + [OPQ]);
  }

  // Below g the upper layer is asked as below p, the lower one as below g.
  lemma LocalUnderTarget(l: Tree, v: Tree, p: Path, g: Path, dev: bool, s: Path)
    requires Started(l, v, p, g) && s != []
    ensures Local(l, MoveDir(l, v, p, g, dev), g + s) ==
            if p + s in v || HasSidecar(v, p + s) then Local(l, v, p + s)
            else if g + s in l && !OpaqueOver(v, p, g, s) then Lower(l[g + s])
            else Absent
  {
    MovedTo(l, v, p, g, dev, s);
    MovedSidecar(l, v, p, g, dev, s);
    OpaqueUnder(l, v, p, g, dev, s);
  }

  // What the upper layer has below p, if it is served.
  lemma UpperBelow(l: Tree, v: Tree, p: Path, s: Path)
    requires Inv(l, v) && s != []
    ensures Seen(l, v, p + s).Upper? ==> p + s in v && Seen(l, v, p + s) == Upper(v[p + s])
    ensures DirAt(v, p + s) ==> Seen(l, v, p + s) == Upper(v[p + s])
    ensures p + s in v || HasSidecar(v, p + s) ==> DirAt(v, p + Parent(s))
  {
    var x := p + s;
    Extended(p, s);
    SeenStep(l, v, x);
    assert x in v ==> ParentOk(v, x) && EntryOk(v, x);
    assert Sidecar(x) in v ==> ParentOk(v, Sidecar(x));
    if DirAt(v, x) {
      UpperWins(l, v, x);
    }
  }

  /** What is served under g: what was served under p from upper, and what lower shows through. */
  lemma {:induction false} ServedUnderTarget(l: Tree, v: Tree, p: Path, g: Path, dev: bool, s: Path)
    requires Started(l, v, p, g)
    ensures Seen(l, MoveDir(l, v, p, g, dev), g + s) ==
            if Seen(l, v, p + s).Upper? then Seen(l, v, p + s)
            else match Shown(l, v, p, g, s) case Some(n) => Lower(n) case None => Absent
    decreases |s|
  {
    if s == [] {
      TargetIsServed(l, v, p, g, dev);
      assert g + s == g && p + s == p;
    } else {
      var w, d := MoveDir(l, v, p, g, dev), Parent(s);
      Extended(p, s);
      Extended(g, s);
      ServedUnderTarget(l, v, p, g, dev, d);
      LocalUnderTarget(l, v, p, g, dev, s);
      MoveFrames(l, v, p, g, dev);
      UpperBelow(l, v, p, s);
      ParentBelow(l, v, p, d);
      if Seen(l, v, p + d).Upper? {
        StepUnderUpper(l, v, w, p, g, s);
      } else {
        SeenStep(l, v, p + s);
        if Seen(l, v, p + d).Lower? {
          UnderLowerNothingUpper(l, v, p + s);
        }
        StepUnderShown(l, v, w, p, g, s);
      }
    }
  }

  lemma UnderLowerNothingUpper(l: Tree, v: Tree, x: Path)
    requires Inv(l, v) && x != [] && Seen(l, v, Parent(x)).Lower?
    ensures !Seen(l, v, x).Upper?
  {
    LowerIsBare(l, v, Parent(x));
    assert x in v ==> ParentOk(v, x);
    SeenStep(l, v, x);
  }

  lemma ParentBelow(l: Tree, v: Tree, p: Path, d: Path)
    requires Inv(l, v) && DirAt(v, p) && UserPath(p)
    ensures DirAt(v, p + d) <==> Seen(l, v, p + d).Upper? && Seen(l, v, p + d).node.Dir?
    ensures Seen(l, v, p + d).Upper? ==> p + d in v
    ensures d == [] ==> DirAt(v, p + d)
  {
    if d == [] {
      assert p + d == p;
      UpperWins(l, v, p);
    } else {
      UpperBelow(l, v, p, d);
    }
  }

  /** Below g, s is asked about upper's entry below p and about lower's below g. */
  predicate AskedBelow(l: Tree, v: Tree, w: Tree, p: Path, g: Path, s: Path)
    requires s != []
  {
    && g + s != [] && p + s != []
    && Parent(p + s) == p + Parent(s) && Parent(g + s) == g + Parent(s)
    && UserPath(p + s) == UserPath(s) == UserPath(g + s)
    && Local(l, w, g + s) ==
       if p + s in v || HasSidecar(v, p + s) then Local(l, v, p + s)
       else if g + s in l && !OpaqueOver(v, p, g, s) then Lower(l[g + s])
       else Absent
  }

  // The directory of s is in upper: so is what upper has at s, and lower shows between it.
  lemma StepUnderUpper(l: Tree, v: Tree, w: Tree, p: Path, g: Path, s: Path)
    requires [] in v && [] in w && s != [] && AskedBelow(l, v, w, p, g, s)
    requires var d := Parent(s);
             && Seen(l, v, p + d).Upper? && Seen(l, w, g + d) == Seen(l, v, p + d) && p + d in v
             && (DirAt(v, p + d) <==> Seen(l, v, p + d).node.Dir?)
             && (d == [] ==> DirAt(v, p + d))
    requires p + s in v || HasSidecar(v, p + s) ==> DirAt(v, p + Parent(s))
    ensures Seen(l, w, g + s) ==
            if Seen(l, v, p + s).Upper? then Seen(l, v, p + s)
            else match Shown(l, v, p, g, s) case Some(n) => Lower(n) case None => Absent
  {
    hide Seen, OpaqueOver, HasSidecar;
    SeenStep(l, w, g + s);
    SeenStep(l, v, p + s);
    SeenStep(l, w, g + Parent(s));
    SeenStep(l, v, p + Parent(s));
    ShownStep(l, v, p, g, s);
    UpperHasNoShown(l, v, p, g, Parent(s));
    LocalUpper(l, v, p + s);
  }

  // It is not: then upper has nothing at s, and what is served comes from lower.
  lemma StepUnderShown(l: Tree, v: Tree, w: Tree, p: Path, g: Path, s: Path)
    requires [] in v && [] in w && s != [] && AskedBelow(l, v, w, p, g, s)
    requires var d := Parent(s);
             && !DirAt(v, p + d) && d != [] && !Seen(l, v, p + s).Upper?
             && Seen(l, w, g + d) == match Shown(l, v, p, g, d) case Some(n) => Lower(n) case None => Absent
    requires p + s !in v && !HasSidecar(v, p + s)
    ensures Seen(l, w, g + s) == match Shown(l, v, p, g, s) case Some(n) => Lower(n) case None => Absent
  {
    hide Seen, OpaqueOver, HasSidecar;
    SeenStep(l, w, g + s);
    SeenStep(l, w, g + Parent(s));
    ShownStep(l, v, p, g, s);
  }

  lemma ShownStep(l: Tree, u: Tree, p: Path, q: Path, s: Path)
    requires s != []
    ensures var d := Parent(s);
            Shown(l, u, p, q, s) ==
            if && (d == [] || DirAt(u, p + d) || HasDir(Shown(l, u, p, q, d)))
               && UserPath(s) && q + s in l && p + s !in u && !HasSidecar(u, p + s) && !OpaqueOver(u, p, q, s)
            then Some(l[q + s]) else None
  {
  }

  lemma UpperHasNoShown(l: Tree, u: Tree, p: Path, q: Path, d: Path)
    requires p + d in u
    ensures Shown(l, u, p, q, d) == None
  {
  }

  lemma LocalUpper(l: Tree, u: Tree, x: Path)
    requires x != []
    ensures Local(l, u, x).Upper? <==> At(u, x).Some? && u[x] != Whiteout && !HasSidecar(u, x)
  {
  }

  lemma SidecarUnder(g: Path, s: Path)
    requires s != []
    ensures Sidecar(g + s) == g + (Parent(s) + [WH + Last(s)])
  {
    assert Parent(g + s) == g + Parent(s) && Last(g + s) == Last(s);
  }

  lemma MovedSidecar(l: Tree, v: Tree, p: Path, g: Path, dev: bool, s: Path)
    requires Started(l, v, p, g) && s != []
    ensures At(MoveDir(l, v, p, g, dev), Sidecar(g + s)) == At(v, Sidecar(p + s))
  {
    var t := Parent(s) + [WH + Last(s)];
    SidecarUnder(g, s);
    SidecarUnder(p, s);
    MovedTo(l, v, p, g, dev, t);
  }

  lemma MovedTo(l: Tree, v: Tree, p: Path, g: Path, dev: bool, t: Path)
    requires Started(l, v, p, g)
    ensures At(MoveDir(l, v, p, g, dev), g + t) == At(v, p + t)
  {
    assert g <= g + t && (g + t)[|g|..] == t;
    MoveDirAt(l, v, p, g, dev, g + t);
  }

  lemma LowerHasNothingBelow(l: Tree, g: Path, y: Path)
    requires TreeOk(l) && !DirAt(l, g) && g < y
    ensures y !in l
  {
    if y in l {
      NoOrphans(l, g, y);
    }
  }

  lemma TargetIsServed(l: Tree, v: Tree, p: Path, g: Path, dev: bool)
    requires Started(l, v, p, g)
    ensures Serve(l, MoveDir(l, v, p, g, dev), g) == Serve(l, v, p) == Upper(v[p])
  {
    var w := MoveDir(l, v, p, g, dev);
    UpperWins(l, v, p);
    MoveDirAt(l, v, p, g, dev, g);
    assert g[|g|..] == [] && p + [] == p;
    PrefixParent(p, g);
    PrefixParent(g, g);
    ReadyIsApart(l, v, p, g);
    MoveDirAt(l, v, p, g, dev, Sidecar(g));
    ServedElsewhere(l, v, p, g, dev, []);
    ServedElsewhere(l, v, p, g, dev, Parent(g));
    ServeStep(l, w, g);
  }

  // ---- when it is a rename ----

  lemma NothingInViewAt(l: Tree, v: Tree, g: Path)
    requires Inv(l, v) && !Live(Serve(l, v, g))
    ensures forall x :: x in View(l, v) ==> !(g <= x)
  {
    ViewIsTree(l, v);
    InView(l, v, g);
    forall x | x in View(l, v) ensures !(g <= x) {
      if g <= x {
        NoOrphans(View(l, v), g, x);
      }
    }
  }

  lemma MovedViewAt(l: Tree, v: Tree, p: Path, g: Path, y: Path)
    requires Started(l, v, p, g)
    ensures var m := Moved(View(l, v), p, g);
            At(m, y) == if g <= y then At(View(l, v), p + y[|g|..])
                        else if p <= y then None else At(View(l, v), y)
  {
    ReadyIsApart(l, v, p, g);
    NothingInViewAt(l, v, g);
    MovedAt(View(l, v), p, g, y);
  }

  // Away from g the move is a rename.
  lemma MoveDirViewAway(l: Tree, v: Tree, p: Path, g: Path, dev: bool, y: Path)
    requires Started(l, v, p, g) && !(g <= y)
    ensures At(View(l, MoveDir(l, v, p, g, dev)), y) == At(Moved(View(l, v), p, g), y)
  {
    MovedViewAt(l, v, p, g, y);
    InView(l, MoveDir(l, v, p, g, dev), y);
    InView(l, v, y);
    if p <= y {
      NothingAtSource(l, v, p, g, dev, y);
    } else {
      ServedElsewhere(l, v, p, g, dev, y);
    }
  }

  lemma MoveDirViewUnder(l: Tree, v: Tree, p: Path, g: Path, dev: bool, s: Path)
    requires Started(l, v, p, g)
    ensures At(Moved(View(l, v), p, g), g + s) == At(View(l, v), p + s)
    ensures At(View(l, MoveDir(l, v, p, g, dev)), g + s) ==
            if Seen(l, v, p + s).Upper? then At(View(l, v), p + s) else Shown(l, v, p, g, s)
  {
    assert g <= g + s && (g + s)[|g|..] == s;
    MovedViewAt(l, v, p, g, g + s);
    InView(l, MoveDir(l, v, p, g, dev), g + s);
    InView(l, v, p + s);
    ServedUnderTarget(l, v, p, g, dev, s);
  }

  lemma {:induction false} OpaqueOverItself(u: Tree, p: Path, s: Path)
    requires p != []
    ensures OpaqueOver(u, p, p, s) == OpaqueAbove(u, p + s)
    decreases |s|
  {
    if s == [] {
      assert p + s == p;
    } else {
      Extended(p, s);
      OpaqueOverItself(u, p, Parent(s));
    }
  }

  /** What lower contributes to a directory at its own place is what is served from lower below it. */
  lemma {:induction false} ShownIsServed(l: Tree, u: Tree, p: Path, s: Path)
    requires Inv(l, u) && UserPath(p) && ServedDir(l, u, p) && s != []
    ensures Shown(l, u, p, p, s) == if Serve(l, u, p + s).Lower? then Some(l[p + s]) else None
    decreases |s|
  {
    var d := Parent(s);
    Extended(p, s);
    OpaqueOverItself(u, p, s);
    ServeStep(l, u, p + s);
    assert Sidecar(p + s) in u ==> EntryOk(u, Sidecar(p + s));
    if d == [] {
      assert p + d == p;
    } else {
      ShownIsServed(l, u, p, d);
      UpperBelow(l, u, p, d);
    }
  }

  /** Lower has the same to contribute under both names. */
  ghost predicate SameBelow(l: Tree, u: Tree, p: Path, g: Path) {
    forall s :: Shown(l, u, p, g, s) == Shown(l, u, p, p, s)
  }

  lemma MoveDirAgrees(l: Tree, v: Tree, p: Path, g: Path, dev: bool, s: Path)
    requires Started(l, v, p, g)
    ensures At(View(l, MoveDir(l, v, p, g, dev)), g + s) == At(Moved(View(l, v), p, g), g + s) <==>
            Shown(l, v, p, g, s) == Shown(l, v, p, p, s)
  {
    MoveDirViewUnder(l, v, p, g, dev, s);
    InView(l, v, p + s);
    if s == [] {
      ParentBelow(l, v, p, s);
    } else {
      ShownIsServed(l, v, p, s);
      UpperBelow(l, v, p, s);
      if Serve(l, v, p + s).Lower? {
        LowerIsBare(l, v, p + s);
      }
    }
  }

  lemma MoveDirExact(l: Tree, v: Tree, p: Path, g: Path, dev: bool)
    requires Started(l, v, p, g)
    ensures View(l, MoveDir(l, v, p, g, dev)) == Moved(View(l, v), p, g) <==> SameBelow(l, v, p, g)
  {
    var z, m := View(l, MoveDir(l, v, p, g, dev)), Moved(View(l, v), p, g);
    forall s ensures At(z, g + s) == At(m, g + s) <==> Shown(l, v, p, g, s) == Shown(l, v, p, p, s) {
      MoveDirAgrees(l, v, p, g, dev, s);
    }
    if SameBelow(l, v, p, g) {
      forall y ensures At(z, y) == At(m, y) {
        if g <= y {
          assert y == g + y[|g|..];
        } else {
          MoveDirViewAway(l, v, p, g, dev, y);
        }
      }
      SameAt(z, m);
    }
  }

  // ---- from the state before the call ----

  lemma CopyUpOfDir(l: Tree, u: Tree, p: Path)
    requires Inv(l, u) && ServedDir(l, u, p)
    ensures CopyUpStep(l, u, p, OK) == Done(WithDirs(l, u, p), OK)
  {
    ServeStep(l, u, p);
    if Serve(l, u, p).Lower? {
      LowerIsBare(l, u, p);
    }
  }

  lemma MadeReadyLayers(l: Tree, u: Tree, p: Path, g: Path)
    requires Inv(l, u) && DirRename(l, u, p, g)
    ensures var c, v := WithDirs(l, u, p), MadeReady(l, u, p, g);
            && v == WithDirs(l, c, Parent(g)) && Inv(l, c) && Inv(l, v)
            && ServedDir(l, c, Parent(g)) && DirAt(c, p) && DirAt(v, Parent(g))
            && Layered(l, v) == Raised(Raised(Layered(l, u), p), Parent(g))
  {
    var c := WithDirs(l, u, p);
    CopyUpOfDir(l, u, p);
    WithDirsLayers(l, u, p);
    SeenIsLayer(l, u, Parent(g));
    SeenIsLayer(l, c, Parent(g));
    WithDirsLayers(l, c, Parent(g));
  }

  lemma StartedAfterCopyUp(l: Tree, u: Tree, p: Path, g: Path)
    requires Inv(l, u) && DirRename(l, u, p, g)
    ensures Started(l, MadeReady(l, u, p, g), p, g)
    ensures View(l, MadeReady(l, u, p, g)) == View(l, u)
  {
    var c, v := WithDirs(l, u, p), MadeReady(l, u, p, g);
    MadeReadyLayers(l, u, p, g);
    RaisedIsInvisible(Layered(l, u), p);
    RaisedIsInvisible(Raised(Layered(l, u), p), Parent(g));
    WithDirsKeys(l, c, Parent(g), p);
    InView(l, u, p);
    InView(l, v, p);
    InView(l, u, Parent(g));
    InView(l, v, Parent(g));
    InView(l, u, g);
    InView(l, v, g);
  }

  // Below p nothing is touched.
  lemma BelowStays(l: Tree, u: Tree, p: Path, g: Path, x: Path)
    requires Inv(l, u) && DirRename(l, u, p, g) && p < x
    ensures At(MadeReady(l, u, p, g), x) == At(u, x)
    ensures Seen(l, MadeReady(l, u, p, g), x) == Seen(l, u, x)
  {
    var c, v := WithDirs(l, u, p), MadeReady(l, u, p, g);
    MadeReadyLayers(l, u, p, g);
    PrefixParent(p, g);
    assert !(x <= Parent(g)) && !(x <= p);
    WithDirsKeys(l, u, p, x);
    WithDirsKeys(l, c, Parent(g), x);
    SeenIsLayer(l, u, x);
    SeenIsLayer(l, v, x);
    RaisedAt(Layered(l, u), p, x);
    RaisedAt(Raised(Layered(l, u), p), Parent(g), x);
  }

  lemma {:induction false} OpaqueOverStays(l: Tree, u: Tree, p: Path, g: Path, q: Path, s: Path)
    requires Inv(l, u) && DirRename(l, u, p, g)
    ensures OpaqueOver(MadeReady(l, u, p, g), p, q, s) == OpaqueOver(u, p, q, s)
    decreases |s|
  {
    var v := MadeReady(l, u, p, g);
    MadeReadyLayers(l, u, p, g);
    if s == [] {
      WithDirsOpaque(l, u, p, q);
      WithDirsOpaque(l, WithDirs(l, u, p), Parent(g), q);
    } else {
      var r := p + Parent(s);
      OpaqueOverStays(l, u, p, g, q, Parent(s));
      BelowStays(l, u, p, g, Opq(r));
      assert Opq(r) in u ==> ParentOk(u, Opq(r));
      assert Opq(r) in v ==> ParentOk(v, Opq(r));
    }
  }

  lemma {:induction false} ShownStays(l: Tree, u: Tree, p: Path, g: Path, q: Path, s: Path)
    requires Inv(l, u) && DirRename(l, u, p, g)
    ensures Shown(l, MadeReady(l, u, p, g), p, q, s) == Shown(l, u, p, q, s)
    decreases |s|
  {
    if s == [] {
    } else {
      Extended(p, s);
      BelowStays(l, u, p, g, p + s);
      PrefixParent(p, Sidecar(p + s));
      BelowStays(l, u, p, g, Sidecar(p + s));
      OpaqueOverStays(l, u, p, g, q, s);
      ShownStays(l, u, p, g, q, Parent(s));
      if Parent(s) != [] {
        BelowStays(l, u, p, g, p + Parent(s));
      }
    }
  }

  /**
    Renaming a directory is a rename of the merged tree exactly when the lower layer
    contributes the same below the new name as it does below the old one.
  */
  lemma RenameDirExact(l: Tree, u: Tree, p: Path, g: Path, dev: bool)
    requires Inv(l, u) && DirRename(l, u, p, g)
    ensures View(l, RenameDir(l, u, p, g, dev)) == Moved(View(l, u), p, g) <==> SameBelow(l, u, p, g)
  {
    var v := MadeReady(l, u, p, g);
    StartedAfterCopyUp(l, u, p, g);
    MoveDirExact(l, v, p, g, dev);
    forall s ensures Shown(l, v, p, g, s) == Shown(l, u, p, g, s) && Shown(l, v, p, p, s) == Shown(l, u, p, p, s) {
      ShownStays(l, u, p, g, g, s);
      ShownStays(l, u, p, g, p, s);
    }
  }

  /** Entry by entry: what arrives at g + s instead of what was at p + s. */
  lemma RenameDirAt(l: Tree, u: Tree, p: Path, g: Path, dev: bool, s: Path)
    requires Inv(l, u) && DirRename(l, u, p, g) && s != []
    ensures At(Moved(View(l, u), p, g), g + s) == At(View(l, u), p + s)
    ensures At(View(l, RenameDir(l, u, p, g, dev)), g + s) ==
            if Serve(l, u, p + s).Upper? then At(View(l, u), p + s) else Shown(l, u, p, g, s)
  {
    Extended(p, s);
    StartedAfterCopyUp(l, u, p, g);
    MoveDirViewUnder(l, MadeReady(l, u, p, g), p, g, dev, s);
    ShownStays(l, u, p, g, g, s);
    BelowStays(l, u, p, g, p + s);
  }

  lemma NothingShown(l: Tree, u: Tree, p: Path, g: Path, s: Path)
    requires TreeOk(l) && !DirAt(l, g)
    ensures Shown(l, u, p, g, s) == None
  {
    if s != [] {
      LowerHasNothingBelow(l, g, g + s);
    }
  }

  /** Nothing strictly below p is still served from the lower layer. */
  ghost predicate AllUpperBelow(l: Tree, u: Tree, p: Path) {
    forall x {:trigger Serve(l, u, x)} :: p < x ==> !Serve(l, u, x).Lower?
  }

  lemma SameBelowFreshName(l: Tree, u: Tree, p: Path, g: Path)
    requires Inv(l, u) && UserPath(p) && ServedDir(l, u, p) && TreeOk(l) && !DirAt(l, g)
    ensures SameBelow(l, u, p, g) <==> AllUpperBelow(l, u, p)
  {
    hide Shown, Serve;
    forall s ensures Shown(l, u, p, g, s) == None {
      NothingShown(l, u, p, g, s);
    }
    if SameBelow(l, u, p, g) {
      forall x | p < x ensures !Serve(l, u, x).Lower? {
        var s := x[|p|..];
        assert x == p + s;
        ShownIsServed(l, u, p, s);
      }
    } else {
      var s :| Shown(l, u, p, g, s) != Shown(l, u, p, p, s);
      ShownSomewhere(l, u, p, s);
      ShownIsServed(l, u, p, s);
      assert p < p + s;
    }
  }

  lemma ShownSomewhere(l: Tree, u: Tree, p: Path, s: Path)
    requires Shown(l, u, p, p, s) != None
    ensures s != []
  {
  }

  /**
    So a name under which lower has no directory is good exactly when nothing below the
    directory is still served from lower.
  */
  lemma RenameDirToFreshName(l: Tree, u: Tree, p: Path, g: Path, dev: bool)
    requires Inv(l, u) && DirRename(l, u, p, g) && !DirAt(l, g)
    ensures View(l, RenameDir(l, u, p, g, dev)) == Moved(View(l, u), p, g) <==> AllUpperBelow(l, u, p)
  {
    RenameDirExact(l, u, p, g, dev);
    SameBelowFreshName(l, u, p, g);
  }

  /** The raw rename has what it needs. */
  lemma RawMoveSucceeds(l: Tree, v: Tree, p: Path, g: Path)
    requires Started(l, v, p, g)
    ensures RenameTree(Bared(v, g), p, g) == Done(Moved(Bared(v, g), p, g), OK)
  {
    var b := Bared(v, g);
    ReadyIsApart(l, v, p, g);
    assert EntryOk(v, Parent(g));
    assert g !in b && b - {g} == b;
    forall n ensures n !in Names(b, g) {
      assert g <= g + [n];
    }
    assert p in b && DirAt(b, Parent(g));
  }

  lemma RawMoveOfDir(l: Tree, v: Tree, p: Path, g: Path)
    requires Started(l, v, p, g)
    ensures Rename(Bared(v, g), p, g) == RenameTree(Bared(v, g), p, g)
  {
    BaredKeepsDirs(l, v, g, p);
  }

  /** It leaves what is needed to hide the old name. */
  lemma RawMoveLeaves(l: Tree, v: Tree, p: Path, g: Path)
    requires Started(l, v, p, g)
    ensures var w := Moved(Bared(v, g), p, g);
            TreeOk(w) && DirAt(w, Parent(p)) && p !in w && Sidecar(p) !in w
  {
    var b := Bared(v, g);
    var w := Moved(b, p, g);
    ReadyIsApart(l, v, p, g);
    DropNodeParent(l, v, p);
    assert EntryOk(v, Parent(p));
    PrefixParent(g, p);
    PrefixParent(g, Sidecar(p));
    MovedAt(b, p, g, p);
    MovedAt(b, p, g, Parent(p));
    MovedAt(b, p, g, Sidecar(p));
    MovedAt(b, p, g, []);
    forall y {:trigger ParentOk(w, y)} | y in w ensures ParentOk(w, y) {
      MovedParent(l, v, p, g, y);
    }
  }

  lemma MovedParent(l: Tree, v: Tree, p: Path, g: Path, y: Path)
    requires Started(l, v, p, g) && y in Moved(Bared(v, g), p, g)
    ensures ParentOk(Moved(Bared(v, g), p, g), y)
  {
    if g < y {
      ParentUnderTarget(l, v, p, g, y);
    } else if y != [] {
      ParentElsewhere(l, v, p, g, y);
    }
  }

  lemma ParentUnderTarget(l: Tree, v: Tree, p: Path, g: Path, y: Path)
    requires Started(l, v, p, g) && y in Moved(Bared(v, g), p, g) && g < y
    ensures ParentOk(Moved(Bared(v, g), p, g), y)
  {
    hide Moved, Serve;
    var b, s := Bared(v, g), y[|g|..];
    ReadyIsApart(l, v, p, g);
    PrefixParent(g, y);
    MovedAt(b, p, g, y);
    MovedAt(b, p, g, Parent(y));
    assert s != [] && g <= Parent(y);
    assert Parent(y)[|g|..] == Parent(s);
    assert Parent(p + s) == p + Parent(s);
    assert p + s in v && ParentOk(v, p + s);
    BaredKeepsDirs(l, v, g, p + Parent(s));
  }

  lemma BaredKeepsDirs(l: Tree, v: Tree, g: Path, x: Path)
    requires Inv(l, v) && UserPath(g) && DirAt(v, x)
    ensures DirAt(Bared(v, g), x)
  {
    assert Sidecar(g) in v ==> EntryOk(v, Sidecar(g));
  }

  lemma ParentElsewhere(l: Tree, v: Tree, p: Path, g: Path, y: Path)
    requires Started(l, v, p, g) && y in Moved(Bared(v, g), p, g) && !(g < y) && y != []
    ensures ParentOk(Moved(Bared(v, g), p, g), y)
  {
    var b := Bared(v, g);
    ReadyIsApart(l, v, p, g);
    PrefixParent(g, y);
    PrefixParent(p, y);
    PrefixParent(p, g);
    MovedAt(b, p, g, y);
    MovedAt(b, p, g, Parent(y));
    assert y != g ==> y in v && ParentOk(v, y);
    BaredKeepsDirs(l, v, g, Parent(y));
  }

  // ---- directories that are not renamed ----

  /** Entries still served from lower vanish where lower has nothing below the new name, ... */
  lemma RenameDirLoses(l: Tree, u: Tree, p: Path, g: Path, dev: bool, s: Path)
    requires Inv(l, u) && DirRename(l, u, p, g) && s != []
    requires Serve(l, u, p + s).Lower? && Shown(l, u, p, g, s) == None
    ensures g + s in Moved(View(l, u), p, g)
    ensures g + s !in View(l, RenameDir(l, u, p, g, dev))
  {
    hide Shown, RenameDir, Moved;
    RenameDirAt(l, u, p, g, dev, s);
    InView(l, u, p + s);
  }

  /** ... and what lower has there appears where the directory had nothing. */
  lemma RenameDirLeaks(l: Tree, u: Tree, p: Path, g: Path, dev: bool, s: Path)
    requires Inv(l, u) && DirRename(l, u, p, g) && s != []
    requires !Live(Serve(l, u, p + s)) && Shown(l, u, p, g, s) != None
    ensures g + s !in Moved(View(l, u), p, g)
    ensures g + s in View(l, RenameDir(l, u, p, g, dev))
  {
    hide Shown, RenameDir, Moved;
    RenameDirAt(l, u, p, g, dev, s);
    InView(l, u, p + s);
  }

  lemma ShownChild(l: Tree, u: Tree, p: Path, q: Path, n: Name)
    requires UserPath([n])
    ensures Shown(l, u, p, q, [n]) ==
            if q + [n] in l && p + [n] !in u && !HasSidecar(u, p + [n])
               && !OpaqueAbove(u, q) && !IsOpaqueDir(u, p)
            then Some(l[q + [n]]) else None
  {
    assert Parent([n]) == [] && p + [] == p;
    assert OpaqueOver(u, p, q, [n]) <==> OpaqueOver(u, p, q, []) || IsOpaqueDir(u, p);
  }

  const FRESH_LOWER: Tree := map[[] := DIR755, ["d"] := DIR755, ["d", "x"] := FILE644]
  const FRESH_UPPER: Tree := map[[] := DIR755]

  lemma SmallLower(l: Tree, d: Path)
    requires |d| == 1 && UserPath(d)
    requires l == map[[] := DIR755, d := DIR755, d + ["x"] := FILE644]
    ensures LowerOk(l)
  {
    var x := d + ["x"];
    assert Parent(d) == [] && Parent(x) == d && Last(x) == "x" && UserPath(x);
    forall y {:trigger ParentOk(l, y)} | y in l ensures ParentOk(l, y) {
      assert y == [] || y == d || y == x;
    }
    forall y {:trigger PlainName(y)} | y in l ensures PlainName(y) {
      assert y == [] || y == d || y == x;
    }
  }

  // A mount whose upper layer has nothing but whiteouts and directories right under its root.
  lemma ShallowInv(l: Tree, u: Tree)
    requires LowerOk(l) && DirAt(u, [])
    requires forall x :: x in u ==> x == [] || (|x| == 1 && UserPath(x) && (u[x] == Whiteout || u[x] == DIR755))
    ensures Inv(l, u)
  {
    assert !UserPath(Opq([]));
    forall x {:trigger ParentOk(u, x)} | x in u ensures ParentOk(u, x) {
      assert x != [] ==> Parent(x) == [];
    }
    forall x {:trigger EntryOk(u, x)} | x in u ensures EntryOk(u, x) {
      assert x != [] ==> !UserPath(Sidecar(x));
    }
    forall x {:trigger OpaqueOk(l, u, x)} ensures OpaqueOk(l, u, x) {
      assert DirAt(u, x) ==> !OpaqueAbove(u, x);
    }
  }

  lemma FreshInv()
    ensures Inv(FRESH_LOWER, FRESH_UPPER)
  {
    assert ["d"] + ["x"] == ["d", "x"];
    SmallLower(FRESH_LOWER, ["d"]);
    ShallowInv(FRESH_LOWER, FRESH_UPPER);
  }

  lemma {:induction false} NothingOpaque(u: Tree, p: Path)
    requires forall x :: x in u ==> x == []
    ensures !OpaqueAbove(u, p)
    decreases |p|
  {
    if |p| <= 1 {
    } else {
      NothingOpaque(u, Parent(p));
    }
  }

  // Over an upper layer with nothing but its root, what lower has is what is served.
  lemma ServedFromLower(l: Tree, u: Tree, p: Path)
    requires [] in u && (forall x :: x in u ==> x == [])
    requires UserPath(p) && ServedDir(l, u, Parent(p))
    ensures Serve(l, u, p) == if p in l then Lower(l[p]) else Absent
  {
    NothingOpaque(u, p);
    ServeStep(l, u, p);
    assert Sidecar(p) !in u;
  }

  lemma FreshServes()
    ensures ServedDir(FRESH_LOWER, FRESH_UPPER, []) && ServedDir(FRESH_LOWER, FRESH_UPPER, ["d"])
    ensures Serve(FRESH_LOWER, FRESH_UPPER, ["d", "x"]).Lower?
    ensures !Live(Serve(FRESH_LOWER, FRESH_UPPER, ["e"]))
  {
    assert Parent(["d"]) == [] && Parent(["e"]) == [] && Parent(["d", "x"]) == ["d"];
    ServeStep(FRESH_LOWER, FRESH_UPPER, []);
    ServedFromLower(FRESH_LOWER, FRESH_UPPER, ["d"]);
    ServedFromLower(FRESH_LOWER, FRESH_UPPER, ["e"]);
    ServedFromLower(FRESH_LOWER, FRESH_UPPER, ["d", "x"]);
  }

  lemma FreshMount()
    ensures Inv(FRESH_LOWER, FRESH_UPPER) && DirRename(FRESH_LOWER, FRESH_UPPER, ["d"], ["e"])
    ensures Serve(FRESH_LOWER, FRESH_UPPER, ["d", "x"]).Lower?
    ensures TreeOk(FRESH_LOWER) && !DirAt(FRESH_LOWER, ["e"])
  {
    hide Serve, ServedDir;
    FreshInv();
    FreshServes();
    assert Parent(["e"]) == [] && ["d"][0] != ["e"][0];
  }

  /** Such as: a directory nobody has touched yet arrives empty under its new name. */
  lemma UntouchedDirIsLost()
    ensures Inv(FRESH_LOWER, FRESH_UPPER) && DirRename(FRESH_LOWER, FRESH_UPPER, ["d"], ["e"])
    ensures ["e", "x"] in Moved(View(FRESH_LOWER, FRESH_UPPER), ["d"], ["e"])
    ensures ["e", "x"] !in View(FRESH_LOWER, RenameDir(FRESH_LOWER, FRESH_UPPER, ["d"], ["e"], true))
  {
    hide *;
    FreshMount();
    assert ["d"] + ["x"] == ["d", "x"] && ["e"] + ["x"] == ["e", "x"];
    NothingShown(FRESH_LOWER, FRESH_UPPER, ["d"], ["e"], ["x"]);
    RenameDirLoses(FRESH_LOWER, FRESH_UPPER, ["d"], ["e"], true, ["x"]);
  }

  const COVERED_LOWER: Tree := map[[] := DIR755, ["t"] := DIR755, ["t", "x"] := FILE644]
  const COVERED_UPPER: Tree := map[[] := DIR755, ["t"] := Whiteout, ["d"] := DIR755]

  lemma CoveredInv()
    ensures Inv(COVERED_LOWER, COVERED_UPPER)
  {
    assert ["t"] + ["x"] == ["t", "x"];
    SmallLower(COVERED_LOWER, ["t"]);
    ShallowInv(COVERED_LOWER, COVERED_UPPER);
  }

  lemma CoveredMount()
    ensures Inv(COVERED_LOWER, COVERED_UPPER) && DirRename(COVERED_LOWER, COVERED_UPPER, ["d"], ["t"])
    ensures Resolve(COVERED_LOWER, COVERED_UPPER, ["d"]) == Upper(DIR755)
    ensures !Live(Serve(COVERED_LOWER, COVERED_UPPER, ["t", "x"]))
  {
    var l, u := COVERED_LOWER, COVERED_UPPER;
    CoveredInv();
    assert Parent(["t"]) == [] && Parent(["t", "x"]) == ["t"];
    UpperWins(l, u, []);
    UpperWins(l, u, ["d"]);
    WhiteoutHides(l, u, ["t"]);
    ServeStep(l, u, ["t", "x"]);
    assert ["d"][0] != ["t"][0];
  }

  lemma WhiteoutHides(l: Tree, u: Tree, p: Path)
    requires [] in u && p != [] && At(u, p) == Some(Whiteout)
    ensures !Live(Serve(l, u, p))
  {
    ServeStep(l, u, p);
  }

  lemma CoveredKeys()
    ensures At(COVERED_LOWER, ["t", "x"]).Some? && ["d", "x"] !in COVERED_LOWER
    ensures forall x :: x in COVERED_UPPER ==> |x| <= 1
  {
    assert ["d", "x"][0] != ["t", "x"][0];
  }

  lemma CoveredShows()
    ensures Shown(COVERED_LOWER, COVERED_UPPER, ["d"], ["t"], ["x"]) != None
    ensures !Live(Serve(COVERED_LOWER, COVERED_UPPER, ["d", "x"]))
  {
    hide COVERED_LOWER, COVERED_UPPER;
    CoveredKeys();
    ShownShallow(COVERED_LOWER, COVERED_UPPER);
  }

  lemma ShownShallow(l: Tree, u: Tree)
    requires At(l, ["t", "x"]).Some? && ["d", "x"] !in l && forall x :: x in u ==> |x| <= 1
    ensures Shown(l, u, ["d"], ["t"], ["x"]) != None
    ensures !Live(Serve(l, u, ["d", "x"]))
  {
    hide Shown;
    assert ["t"] + ["x"] == ["t", "x"] && ["d"] + ["x"] == ["d", "x"] && |Opq(["d"])| == 2;
    ShownChild(l, u, ["d"], ["t"], "x");
  }

  /**
    And when lower has a directory under the new name, its old contents come back: the
    moved directory carries no opaque mark.
  */
  lemma RenameDirResurrects()
    ensures Inv(COVERED_LOWER, COVERED_UPPER) && DirRename(COVERED_LOWER, COVERED_UPPER, ["d"], ["t"])
    ensures ["t", "x"] !in View(COVERED_LOWER, COVERED_UPPER)
    ensures ["t", "x"] in
            View(COVERED_LOWER, RenameDir(COVERED_LOWER, COVERED_UPPER, ["d"], ["t"], true))
  {
    hide *;
    CoveredMount();
    CoveredShows();
    assert ["t"] + ["x"] == ["t", "x"] && ["d"] + ["x"] == ["d", "x"];
    RenameDirLeaks(COVERED_LOWER, COVERED_UPPER, ["d"], ["t"], true, ["x"]);
    InView(COVERED_LOWER, COVERED_UPPER, ["t", "x"]);
  }
}
