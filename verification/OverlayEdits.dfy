/**
  The edits the overlay's operations make to the upper layer, in closed form,
  and what each one does to the merged tree.

  There are only three: give served lower nodes an upper copy (CopyNode, WithDirs,
  CopiedUp), put a new live node somewhere (Put), and drop a node for good (Drop).
  Besides, SetNode changes a node already in the upper layer.
*/
module OverlayEdits {
  import opened RawFs
  import opened OverlayView

  // ---- closed forms ----

  const MARKER := Reg(0x180, [])   // mode 0600, empty
  const FILE644 := Reg(0x1A4, [])  // mode 0644, empty
  const DIR755 := Dir(0x1ED)       // mode 0755

  /** The directory ensure_upper_parents creates for q. */
  function DirFor(l: Tree, q: Path): Node {
    if DirAt(l, q) then l[q] else DIR755
  }

  /** u with q and every directory above it present. */
  function WithDirs(l: Tree, u: Tree, q: Path): Tree
    decreases |q|
  {
    if q in u || q == [] then u else WithDirs(l, u, Parent(q))[q := DirFor(l, q)]
  }

  /** u with p copied up from the lower layer. */
  function CopiedUp(l: Tree, u: Tree, p: Path): Tree
    requires p != [] && p in l
  {
    WithDirs(l, u, Parent(p))[p := l[p]]
  }

  /** u with no whiteout of either form at p. */
  function Bared(u: Tree, p: Path): Tree
    requires p != []
  {
    (if At(u, p) == Some(Whiteout) then u - {p} else u) - {Sidecar(p)}
  }

  // The raw steps of Put once the parents exist.
  function PutNode(l: Tree, u: Tree, p: Path, n: Node): Tree
    requires p != []
  {
    var v := Bared(u, p)[p := n];
    if n.Dir? && DirAt(l, p) then v[Opq(p) := MARKER] else v
  }

  /** u with a new node at p, opaque if it is a directory over a raw lower one. */
  function Put(l: Tree, u: Tree, p: Path, n: Node): Tree
    requires p != []
  {
    PutNode(l, WithDirs(l, u, Parent(p)), p, n)
  }

  function WhitedOut(u: Tree, p: Path, dev: bool): Tree
    requires p != []
  {
    if dev then u[p := Whiteout] else u[Sidecar(p) := MARKER]
  }

  /** u with p and everything under it gone, and hidden if lower has a p. */
  function Drop(l: Tree, u: Tree, p: Path, dev: bool): Tree
    requires p != []
  {
    var v := Cut(u, p);
    if p in l then WhitedOut(WithDirs(l, v, Parent(p)), p, dev) else v
  }

  // ---- frames ----

  predicate Near(q: Path, x: Path)
    requires q != []
  {
    q <= x || x == Sidecar(q)
  }

  ghost predicate SameAway(u: Tree, v: Tree, q: Path)
    requires q != []
  {
    && !DirAt(u, Sidecar(q)) && !DirAt(v, Sidecar(q))
    && forall x {:trigger At(u, x)} {:trigger At(v, x)} :: !Near(q, x) ==> At(u, x) == At(v, x)
  }

  lemma {:induction false} OpaqueFrame(u: Tree, v: Tree, q: Path, p: Path)
    requires UserPath(q) && SameAway(u, v, q) && !(q < p)
    ensures OpaqueAbove(u, p) == OpaqueAbove(v, p)
    decreases |p|
  {
    if |p| <= 1 {
    } else {
      var r := Parent(p);
      PrefixParent(q, p);
      PrefixParent(q, Opq(r));
      OpaqueFrame(u, v, q, r);
      SidecarIsNotOpq(q, r);
      assert At(u, Opq(r)) == At(v, Opq(r));
      assert r != Sidecar(q) ==> At(u, r) == At(v, r);
    }
  }

  lemma {:induction false} ServeFrame(l: Tree, u: Tree, v: Tree, q: Path, p: Path)
    requires UserPath(q) && SameAway(u, v, q) && !(q <= p) && [] in u && [] in v
    ensures Serve(l, u, p) == Serve(l, v, p)
    decreases |p|
  {
    ServeStep(l, u, p);
    ServeStep(l, v, p);
    if p == [] {
      assert At(u, []) == At(v, []);
    } else if UserPath(p) {
      PrefixParent(q, p);
      PrefixParent(q, Sidecar(p));
      ServeFrame(l, u, v, q, Parent(p));
      OpaqueFrame(u, v, q, p);
      assert At(u, p) == At(v, p);
      assert HiddenBy(Sidecar(p)) != HiddenBy(Sidecar(q));
      assert At(u, Sidecar(p)) == At(v, Sidecar(p));
    }
  }

  // ---- layered edits ----

  /** The same merged tree with p and everything above it in the upper layer. */
  function Raised(a: Layers, p: Path): Layers {
    map x | x in a :: if x <= p && Live(a[x]) then Upper(a[x].node) else a[x]
  }

  function LayerAt(a: Layers, p: Path): Where {
    if p in a then a[p] else Absent
  }

  lemma LayersFromSeen(l: Tree, u: Tree, b: Layers)
    requires forall p {:trigger p in b} :: p in b ==> Live(b[p])
    requires forall p {:trigger LayerAt(b, p)} :: Seen(l, u, p) == LayerAt(b, p)
    ensures Layered(l, u) == b
  {
    var a := Layered(l, u);
    forall p ensures p in a <==> p in b {
      assert Seen(l, u, p) == LayerAt(b, p);
    }
    forall p | p in a ensures a[p] == b[p] {
      assert Seen(l, u, p) == LayerAt(b, p);
    }
  }

  // ---- copying up ----

  predicate Copyable(l: Tree, u: Tree, q: Path) {
    q != [] && q !in u && Parent(q) in u && Serve(l, u, q).Lower? && At(l, q) != Some(Whiteout)
  }

  lemma CopyOpaque(l: Tree, u: Tree, q: Path, p: Path)
    requires Inv(l, u) && Copyable(l, u, q)
    ensures OpaqueAbove(u[q := l[q]], p) == OpaqueAbove(u, p)
    decreases |p|
  {
    LowerIsBare(l, u, q);
    if |p| > 1 {
      var r := Parent(p);
      CopyOpaque(l, u, q, r);
      if r == q && Opq(q) in u {
        NoOrphans(u, q, Opq(q));
      }
    }
  }

  lemma RootStays(l: Tree, u: Tree, q: Path)
    requires Inv(l, u) && Copyable(l, u, q)
    ensures [] in u && q != []
  {
  }

  lemma {:induction false} CopyServe(l: Tree, u: Tree, q: Path, p: Path)
    requires Inv(l, u) && Copyable(l, u, q)
    ensures q in l
    ensures Serve(l, u[q := l[q]], p) == if p == q then Upper(l[q]) else Serve(l, u, p)
    decreases |p|
  {
    hide Inv, Serve, OpaqueAbove;
    LowerIsBare(l, u, q);
    var v := u[q := l[q]];
    RootStays(l, u, q);
    ServeStep(l, u, p);
    ServeStep(l, v, p);
    if UserPath(p) {
      CopyServe(l, u, q, Parent(p));
      CopyOpaque(l, u, q, p);
      assert Sidecar(p) != q;
    }
  }

  /** Giving a served lower node its upper copy changes its layer and nothing else. */
  lemma CopyNode(l: Tree, u: Tree, q: Path)
    requires Inv(l, u) && Copyable(l, u, q)
    ensures q in l && Inv(l, u[q := l[q]])
    ensures Layered(l, u[q := l[q]]) == Layered(l, u)[q := Upper(l[q])]
  {
    var v := u[q := l[q]];
    LowerIsBare(l, u, q);
    CopyKeepsInv(l, u, q);
    var b := Layered(l, u)[q := Upper(l[q])];
    forall p ensures Seen(l, v, p) == LayerAt(b, p) {
      CopyServe(l, u, q, p);
      assert Live(Seen(l, u, p)) <==> p in Layered(l, u);
    }
    LayersFromSeen(l, v, b);
  }

  lemma CopyKeepsInv(l: Tree, u: Tree, q: Path)
    requires Inv(l, u) && Copyable(l, u, q)
    ensures q in l && Inv(l, u[q := l[q]])
  {
    var v := u[q := l[q]];
    LowerIsBare(l, u, q);
    ServeStep(l, u, q);
    assert EntryOk(u, Parent(q));
    UpperWins(l, u, Parent(q));
    forall p {:trigger ParentOk(v, p)} | p in v ensures ParentOk(v, p) {
      assert p != q ==> ParentOk(u, p);
    }
    forall p {:trigger EntryOk(v, p)} | p in v ensures EntryOk(v, p) {
      assert p != q ==> EntryOk(u, p);
    }
    forall p {:trigger OpaqueOk(l, v, p)} ensures OpaqueOk(l, v, p) {
      assert OpaqueOk(l, u, p);
      CopyOpaque(l, u, q, p);
    }
  }

  lemma RaisedInUpper(l: Tree, u: Tree, q: Path)
    requires Inv(l, u) && q in u
    ensures Raised(Layered(l, u), q) == Layered(l, u)
  {
    forall x | x <= q && x in Layered(l, u) ensures Layered(l, u)[x].Upper? {
      NoOrphans(u, x, q);
      ServeStep(l, u, x);
    }
  }

  lemma SeenIsLayer(l: Tree, u: Tree, p: Path)
    ensures Seen(l, u, p) == LayerAt(Layered(l, u), p)
  {
    assert Live(Seen(l, u, p)) <==> p in Layered(l, u);
  }

  lemma RaisedStep(a: Layers, p: Path)
    requires p != [] && p in a && Live(a[p])
    ensures Raised(a, Parent(p))[p := Upper(a[p].node)] == Raised(a, p)
  {
    forall x | x in a ensures x <= p <==> x <= Parent(p) || x == p {
      PrefixParent(x, p);
    }
  }

  /** ensure_upper_parents changes nothing but layers. */
  lemma {:induction false} WithDirsLayers(l: Tree, u: Tree, q: Path)
    requires Inv(l, u) && ServedDir(l, u, q)
    ensures Inv(l, WithDirs(l, u, q)) && DirAt(WithDirs(l, u, q), q)
    ensures Layered(l, WithDirs(l, u, q)) == Raised(Layered(l, u), q)
    ensures Serve(l, WithDirs(l, u, q), q) == Upper(Serve(l, u, q).node)
    decreases |q|, 1
  {
    ServeStep(l, u, q);
    if q in u {
      RaisedInUpper(l, u, q);
    } else {
      LowerIsBare(l, u, q);
      CopiedUpLayers(l, u, q);
    }
  }

  /** copy_up changes nothing but layers. */
  lemma {:induction false} CopiedUpLayers(l: Tree, u: Tree, p: Path)
    requires Inv(l, u) && Serve(l, u, p).Lower?
    requires At(l, p) != Some(Whiteout)
    ensures p != [] && p in l && Inv(l, CopiedUp(l, u, p))
    ensures At(CopiedUp(l, u, p), p) == Some(l[p])
    ensures Layered(l, CopiedUp(l, u, p)) == Raised(Layered(l, u), p)
    ensures Serve(l, CopiedUp(l, u, p), p) == Upper(l[p])
    decreases |p|, 0
  {
    LowerIsBare(l, u, p);
    ServeStep(l, u, p);
    var v := WithDirs(l, u, Parent(p));
    WithDirsLayers(l, u, Parent(p));
    LowerStaysAbove(l, u, v, p);
    CopyNode(l, v, p);
    SeenIsLayer(l, v[p := l[p]], p);
    SeenIsLayer(l, u, p);
    RaisedStep(Layered(l, u), p);
  }

  lemma {:induction false} WithDirsKeys(l: Tree, u: Tree, q: Path, x: Path)
    ensures x in u ==> x in WithDirs(l, u, q) && WithDirs(l, u, q)[x] == u[x]
    ensures x in WithDirs(l, u, q) && x !in u ==> x <= q
    decreases |q|
  {
    if q == [] || q in u {
    } else {
      WithDirsKeys(l, u, Parent(q), x);
      PrefixParent(x, q);
    }
  }

  lemma {:induction false} WithDirsOpaque(l: Tree, u: Tree, q: Path, x: Path)
    requires Inv(l, u) && ServedDir(l, u, q)
    ensures OpaqueAbove(WithDirs(l, u, q), x) == OpaqueAbove(u, x)
    decreases |q|
  {
    ServeStep(l, u, q);
    if q in u {
    } else {
      var v := WithDirs(l, u, Parent(q));
      LowerIsBare(l, u, q);
      WithDirsLayers(l, u, Parent(q));
      WithDirsOpaque(l, u, Parent(q), x);
      LowerStaysAbove(l, u, v, q);
      CopyOpaque(l, v, q, x);
    }
  }

  lemma LowerStaysAbove(l: Tree, u: Tree, v: Tree, p: Path)
    requires p != [] && Serve(l, u, p).Lower? && Inv(l, v)
    requires Layered(l, v) == Raised(Layered(l, u), Parent(p))
    ensures Serve(l, v, p) == Serve(l, u, p) && p !in v
  {
    SeenIsLayer(l, u, p);
    SeenIsLayer(l, v, p);
    LowerIsBare(l, v, p);
  }

  // ---- replacing what is served at one path ----

  /** No ordinary name is served directly under p. */
  ghost predicate BareBelow(l: Tree, u: Tree, p: Path) {
    forall n: Name {:trigger p + [n]} :: !Live(Serve(l, u, p + [n]))
  }

  lemma {:induction false} NothingBelow(l: Tree, u: Tree, p: Path, x: Path)
    requires [] in u && BareBelow(l, u, p) && p < x
    ensures !Live(Serve(l, u, x))
    decreases |x|
  {
    PrefixParent(p, x);
    ServeStep(l, u, x);
    if Parent(x) == p {
      assert x == p + [Last(x)];
    } else {
      NothingBelow(l, u, p, Parent(x));
    }
  }

  lemma NoDirIsBare(l: Tree, u: Tree, p: Path)
    requires [] in u && !ServedDir(l, u, p)
    ensures BareBelow(l, u, p)
  {
    forall n: Name {:trigger p + [n]} ensures !Live(Serve(l, u, p + [n])) {
      ServeStep(l, u, p + [n]);
      assert Parent(p + [n]) == p;
    }
  }

  function Replaced(a: Layers, p: Path, w: Where): Layers {
    if Live(w) then a[p := w] else a - {p}
  }

  /** An edit near p between trees that serve nothing below p replaces p alone. */
  lemma ReplaceLayers(l: Tree, u: Tree, v: Tree, p: Path)
    requires UserPath(p) && [] in u && [] in v && SameAway(u, v, p)
    requires BareBelow(l, u, p) && BareBelow(l, v, p)
    ensures Layered(l, v) == Replaced(Layered(l, u), p, Serve(l, v, p))
  {
    var b := Replaced(Layered(l, u), p, Serve(l, v, p));
    forall x ensures Seen(l, v, x) == LayerAt(b, x) {
      SeenIsLayer(l, u, x);
      if p < x {
        NothingBelow(l, u, p, x);
        NothingBelow(l, v, p, x);
      } else if !(p <= x) {
        ServeFrame(l, u, v, p, x);
      } else {
        assert x == p;
      }
    }
    LayersFromSeen(l, v, b);
  }

  // ---- putting a node ----

  // p can be given a new node: no directory is served there.
  predicate Puttable(l: Tree, u: Tree, p: Path) {
    UserPath(p) && ServedDir(l, u, Parent(p)) && !ServedDir(l, u, p)
  }

  lemma UnservedIsNoDir(l: Tree, u: Tree, p: Path)
    requires Inv(l, u) && Puttable(l, u, p)
    ensures !DirAt(u, p)
    ensures forall x | p < x :: x !in u
  {
    ServeStep(l, u, p);
    assert p in u ==> EntryOk(u, p);
    if DirAt(u, p) {
      UpperWins(l, u, p);
    }
    forall x | p < x ensures x !in u {
      if x in u {
        NoOrphans(u, p, x);
      }
    }
  }

  lemma PutNodeAt(l: Tree, u: Tree, p: Path, n: Node, x: Path)
    requires UserPath(p)
    ensures At(PutNode(l, u, p, n), x) ==
            if x == p then Some(n)
            else if x == Sidecar(p) then None
            else if x == Opq(p) && n.Dir? && DirAt(l, p) then Some(MARKER)
            else At(u, x)
  {
    SidecarIsNotOpq(p, p);
    assert Sidecar(p) != p;
  }

  lemma PutNodeSame(l: Tree, u: Tree, p: Path, n: Node)
    requires Inv(l, u) && Puttable(l, u, p)
    ensures SameAway(u, PutNode(l, u, p, n), p)
    ensures [] in PutNode(l, u, p, n)
    ensures At(PutNode(l, u, p, n), p) == Some(n)
    ensures At(PutNode(l, u, p, n), Sidecar(p)) == None
    ensures forall x | p < x && x in PutNode(l, u, p, n) :: x == Opq(p) && n.Dir? && DirAt(l, p)
  {
    var v := PutNode(l, u, p, n);
    UnservedIsNoDir(l, u, p);
    assert Sidecar(p) in u ==> EntryOk(u, Sidecar(p));
    PutNodeAt(l, u, p, n, p);
    PutNodeAt(l, u, p, n, Sidecar(p));
    PutNodeAt(l, u, p, n, []);
    assert [] != Sidecar(p) && [] != Opq(p);
    forall x {:trigger At(u, x)} {:trigger At(v, x)} | !Near(p, x) ensures At(u, x) == At(v, x) {
      PutNodeAt(l, u, p, n, x);
      assert p <= Opq(p);
    }
    forall x | p < x && x in v ensures x == Opq(p) && n.Dir? && DirAt(l, p) {
      PutNodeAt(l, u, p, n, x);
    }
  }

  // Inv for a tree v that differs from u only near p, given what is new near p.
  lemma NearKeepsInv(l: Tree, u: Tree, v: Tree, p: Path)
    requires Inv(l, u) && UserPath(p) && SameAway(u, v, p) && DirAt(u, Parent(p))
    requires forall x {:trigger ParentOk(v, x)} :: x in v && Near(p, x) ==> ParentOk(v, x)
    requires forall x {:trigger EntryOk(v, x)} :: x in v && Near(p, x) ==> EntryOk(v, x)
    requires At(v, Sidecar(p)).Some? ==> p !in v || v[p] == Whiteout
    requires forall x {:trigger OpaqueOk(l, v, x)} :: p <= x ==> OpaqueOk(l, v, x)
    ensures Inv(l, v)
  {
    forall x {:trigger ParentOk(v, x)} | x in v ensures ParentOk(v, x) {
      if !Near(p, x) {
        FarParent(u, v, p, x);
      }
    }
    forall x {:trigger EntryOk(v, x)} | x in v ensures EntryOk(v, x) {
      if !Near(p, x) {
        FarEntry(u, v, p, x);
      }
    }
    forall x {:trigger OpaqueOk(l, v, x)} ensures OpaqueOk(l, v, x) {
      if !(p <= x) {
        assert OpaqueOk(l, u, x);
        OpaqueFrame(u, v, p, x);
        FarDir(u, v, p, x);
      }
    }
    SidecarIsNotOpq(p, []);
    PrefixParent(p, Opq([]));
    assert At(u, Opq([])) == At(v, Opq([]));
    assert At(u, []) == At(v, []);
  }

  lemma FarParent(u: Tree, v: Tree, p: Path, x: Path)
    requires TreeOk(u) && UserPath(p) && SameAway(u, v, p) && x in v && !Near(p, x)
    requires !DirAt(u, Sidecar(p))
    ensures ParentOk(v, x)
  {
    assert At(u, x) == At(v, x);
    assert ParentOk(u, x);
    if x != [] {
      PrefixParent(p, x);
      assert At(u, Parent(x)) == At(v, Parent(x));
    }
  }

  lemma FarEntry(u: Tree, v: Tree, p: Path, x: Path)
    requires UserPath(p) && SameAway(u, v, p) && x in v && !Near(p, x)
    requires x in u ==> EntryOk(u, x)
    ensures EntryOk(v, x)
  {
    assert At(u, x) == At(v, x);
    if x != [] && !IsMarker(Last(x)) {
      assert HiddenBy(Sidecar(x)) != HiddenBy(Sidecar(p));
      PrefixParent(p, Sidecar(x));
      PrefixParent(p, x);
      assert At(u, Sidecar(x)) == At(v, Sidecar(x));
    }
  }

  lemma FarDir(u: Tree, v: Tree, p: Path, x: Path)
    requires UserPath(p) && SameAway(u, v, p) && !(p <= x)
    ensures DirAt(u, x) == DirAt(v, x) && IsOpaqueDir(u, x) == IsOpaqueDir(v, x)
  {
    PrefixParent(p, Opq(x));
    SidecarIsNotOpq(p, x);
    assert At(u, Opq(x)) == At(v, Opq(x));
    assert x != Sidecar(p) ==> At(u, x) == At(v, x);
  }

  lemma PutNodeKeepsInv(l: Tree, u: Tree, p: Path, n: Node)
    requires Inv(l, u) && Puttable(l, u, p) && DirAt(u, Parent(p)) && n != Whiteout
    ensures Inv(l, PutNode(l, u, p, n))
  {
    var v := PutNode(l, u, p, n);
    PutNodeSame(l, u, p, n);
    assert At(u, Parent(p)) == At(v, Parent(p));
    forall x {:trigger ParentOk(v, x)} | x in v && Near(p, x) ensures ParentOk(v, x) {
      assert x == p || x == Opq(p);
    }
    forall x {:trigger EntryOk(v, x)} | x in v && Near(p, x) ensures EntryOk(v, x) {
      assert x == p || x == Opq(p);
    }
    forall x {:trigger OpaqueOk(l, v, x)} | p <= x ensures OpaqueOk(l, v, x) {
      assert x in v ==> x == p || x == Opq(p);
    }
    NearKeepsInv(l, u, v, p);
  }

  lemma PutNodeServes(l: Tree, u: Tree, p: Path, n: Node)
    requires Inv(l, u) && Puttable(l, u, p) && n != Whiteout
    ensures Serve(l, PutNode(l, u, p, n), p) == Upper(n)
    ensures BareBelow(l, PutNode(l, u, p, n), p)
  {
    var v := PutNode(l, u, p, n);
    PutNodeSame(l, u, p, n);
    PrefixParent(p, p);
    ServeFrame(l, u, v, p, Parent(p));
    ServeStep(l, v, p);
    if n.Dir? {
      forall m: Name {:trigger p + [m]} ensures !Live(Serve(l, v, p + [m])) {
        NewDirIsBare(l, u, p, n, m);
      }
    } else {
      NoDirIsBare(l, v, p);
    }
  }

  // The opaque marker is what makes a new directory empty.
  lemma NewDirIsBare(l: Tree, u: Tree, p: Path, n: Node, m: Name)
    requires Inv(l, u) && Puttable(l, u, p) && n.Dir?
    ensures !Live(Serve(l, PutNode(l, u, p, n), p + [m]))
  {
    var v := PutNode(l, u, p, n);
    var y := p + [m];
    assert Parent(y) == p && Last(y) == m;
    PutNodeSame(l, u, p, n);
    ServeStep(l, v, y);
    if UserPath(y) {
      SidecarIsNotOpq(y, p);
      assert p < Sidecar(y) by { PrefixParent(p, Sidecar(y)); }
      assert y in l ==> ParentOk(l, y);
    }
  }

  lemma PutNodeLayers(l: Tree, u: Tree, p: Path, n: Node)
    requires Inv(l, u) && Puttable(l, u, p) && n != Whiteout
    ensures Layered(l, PutNode(l, u, p, n)) == Layered(l, u)[p := Upper(n)]
  {
    PutNodeSame(l, u, p, n);
    PutNodeServes(l, u, p, n);
    NoDirIsBare(l, u, p);
    ReplaceLayers(l, u, PutNode(l, u, p, n), p);
  }

  /** A new entry where no directory is served: that entry, its parents raised, nothing else. */
  lemma PutLayers(l: Tree, u: Tree, p: Path, n: Node)
    requires Inv(l, u) && Puttable(l, u, p) && n != Whiteout
    ensures Inv(l, Put(l, u, p, n))
    ensures Layered(l, Put(l, u, p, n)) ==
            Raised(Layered(l, u), Parent(p))[p := Upper(n)]
  {
    var v := WithDirs(l, u, Parent(p));
    WithDirsLayers(l, u, Parent(p));
    SeenIsLayer(l, u, p);
    SeenIsLayer(l, v, p);
    PutNodeKeepsInv(l, v, p, n);
    PutNodeLayers(l, v, p, n);
  }

  // ---- dropping a node ----

  // p can be removed: it is served and nothing is served below it.
  ghost predicate Droppable(l: Tree, u: Tree, p: Path) {
    UserPath(p) && Live(Serve(l, u, p)) && BareBelow(l, u, p)
  }

  lemma CutKeepsTree(l: Tree, u: Tree, p: Path)
    requires Inv(l, u) && UserPath(p)
    ensures TreeOk(Cut(u, p))
  {
    var v := Cut(u, p);
    forall x {:trigger ParentOk(v, x)} | x in v ensures ParentOk(v, x) {
      assert ParentOk(u, x);
      if x != [] {
        PrefixParent(p, x);
      }
    }
  }

  // The raw steps of Drop once the parents exist.
  function DropNode(l: Tree, u: Tree, p: Path, dev: bool): Tree
    requires p != []
  {
    if p in l then WhitedOut(Cut(u, p), p, dev) else Cut(u, p)
  }

  lemma DropNodeSame(l: Tree, u: Tree, p: Path, dev: bool)
    requires Inv(l, u) && UserPath(p)
    ensures SameAway(u, DropNode(l, u, p, dev), p)
  {
    assert Sidecar(p) in u ==> EntryOk(u, Sidecar(p));
  }

  // All that is left near p: its whiteout, or the sidecar.
  lemma DropNodeNear(l: Tree, u: Tree, p: Path, dev: bool, x: Path)
    requires Inv(l, u) && UserPath(p) && DirAt(u, Parent(p)) && Near(p, x)
    ensures var v := DropNode(l, u, p, dev);
            && !DirAt(v, x) && (x in v ==> ParentOk(v, x) && EntryOk(v, x))
            && (p in v ==> v[p] == Whiteout)
  {
    assert Sidecar(p) in u ==> EntryOk(u, Sidecar(p));
    assert !(p <= Parent(p));
  }

  lemma DropNodeKeepsInv(l: Tree, u: Tree, p: Path, dev: bool)
    requires Inv(l, u) && UserPath(p) && DirAt(u, Parent(p))
    ensures Inv(l, DropNode(l, u, p, dev))
    ensures SameAway(u, DropNode(l, u, p, dev), p)
  {
    var v := DropNode(l, u, p, dev);
    DropNodeSame(l, u, p, dev);
    forall x {:trigger ParentOk(v, x)} | x in v && Near(p, x) ensures ParentOk(v, x) {
      DropNodeNear(l, u, p, dev, x);
    }
    forall x {:trigger EntryOk(v, x)} | x in v && Near(p, x) ensures EntryOk(v, x) {
      DropNodeNear(l, u, p, dev, x);
    }
    forall x {:trigger OpaqueOk(l, v, x)} | p <= x ensures OpaqueOk(l, v, x) {
      DropNodeNear(l, u, p, dev, x);
    }
    DropNodeNear(l, u, p, dev, p);
    NearKeepsInv(l, u, v, p);
  }

  lemma DropNodeLayers(l: Tree, u: Tree, p: Path, dev: bool)
    requires Inv(l, u) && Droppable(l, u, p) && DirAt(u, Parent(p))
    ensures Layered(l, DropNode(l, u, p, dev)) == Layered(l, u) - {p}
  {
    var v := DropNode(l, u, p, dev);
    DropNodeKeepsInv(l, u, p, dev);
    ServeStep(l, u, p);
    ServeStep(l, v, p);
    assert p in u ==> EntryOk(u, p);
    NoDirIsBare(l, v, p);
    ReplaceLayers(l, u, v, p);
  }

  lemma {:induction false} DirsCommuteWithCut(l: Tree, u: Tree, p: Path, q: Path)
    requires p != [] && !(p <= q)
    ensures WithDirs(l, Cut(u, p), q) == Cut(WithDirs(l, u, q), p)
    decreases |q|
  {
    if q in u || q == [] {
    } else {
      PrefixParent(p, q);
      DirsCommuteWithCut(l, u, p, Parent(q));
    }
  }

  // Making the parents first or cutting p first comes to the same.
  lemma DropOpens(l: Tree, u: Tree, p: Path, dev: bool)
    requires Inv(l, u) && UserPath(p) && Live(Serve(l, u, p))
    ensures Drop(l, u, p, dev) == DropNode(l, WithDirs(l, u, Parent(p)), p, dev)
  {
    if p in l {
      DirsCommuteWithCut(l, u, p, Parent(p));
    } else {
      ServeStep(l, u, p);
      assert p in u && ParentOk(u, p);
    }
  }

  /** Removing a served entry with nothing below it removes it and nothing else. */
  lemma DropLayers(l: Tree, u: Tree, p: Path, dev: bool)
    requires Inv(l, u) && Droppable(l, u, p)
    ensures Inv(l, Drop(l, u, p, dev))
    ensures Layered(l, Drop(l, u, p, dev)) == Raised(Layered(l, u), Parent(p)) - {p}
  {
    var v := WithDirs(l, u, Parent(p));
    ServeStep(l, u, p);
    WithDirsLayers(l, u, Parent(p));
    StaysDroppable(l, u, v, p);
    DropNodeKeepsInv(l, v, p, dev);
    DropNodeLayers(l, v, p, dev);
    DropOpens(l, u, p, dev);
  }

  lemma StaysDroppable(l: Tree, u: Tree, v: Tree, p: Path)
    requires Droppable(l, u, p) && Layered(l, v) == Raised(Layered(l, u), Parent(p))
    ensures Droppable(l, v, p)
  {
    SeenIsLayer(l, u, p);
    SeenIsLayer(l, v, p);
    forall n: Name {:trigger p + [n]} ensures !Live(Serve(l, v, p + [n])) {
      SeenIsLayer(l, u, p + [n]);
      SeenIsLayer(l, v, p + [n]);
    }
  }

  // ---- changing a node in place ----

  // p is an upper entry that can be changed to n without becoming another kind.
  predicate Settable(u: Tree, p: Path, n: Node) {
    && PlainName(p) && p in u && u[p] != Whiteout && n != Whiteout
    && n.Dir? == u[p].Dir?
  }

  lemma {:induction false} SetOpaque(u: Tree, p: Path, n: Node, x: Path)
    requires Settable(u, p, n)
    ensures OpaqueAbove(u[p := n], x) == OpaqueAbove(u, x)
    decreases |x|
  {
    if |x| <= 1 {
    } else {
      SetOpaque(u, p, n, Parent(x));
    }
  }

  lemma SetLocal(l: Tree, u: Tree, p: Path, n: Node, x: Path)
    requires Settable(u, p, n) && UserPath(x)
    requires p == x ==> Live(Local(l, u, p))
    ensures Local(l, u[p := n], x) == if x == p then Upper(n) else Local(l, u, x)
  {
    var v, s := u[p := n], Sidecar(x);
    SetOpaque(u, p, n, x);
    assert s != p;
    assert At(v, s) == At(u, s);
    assert At(v, x) == if x == p then Some(n) else At(u, x);
  }

  lemma {:induction false} SetServe(l: Tree, u: Tree, p: Path, n: Node, x: Path)
    requires Inv(l, u) && Settable(u, p, n) && Live(Serve(l, u, p))
    ensures Serve(l, u[p := n], x) == if x == p then Upper(n) else Serve(l, u, x)
    decreases |x|
  {
    ServeStep(l, u, x);
    ServeStep(l, u[p := n], x);
    if UserPath(x) {
      SetServe(l, u, p, n, Parent(x));
      SetDirs(l, u, p, n, Parent(x));
      SetLocal(l, u, p, n, x);
    }
  }

  lemma SetDirs(l: Tree, u: Tree, p: Path, n: Node, x: Path)
    requires Inv(l, u) && Settable(u, p, n) && Live(Serve(l, u, p))
    requires Serve(l, u[p := n], x) == if x == p then Upper(n) else Serve(l, u, x)
    ensures ServedDir(l, u[p := n], x) == ServedDir(l, u, x)
  {
    ServeStep(l, u, p);
  }

  lemma SetLayers(l: Tree, u: Tree, p: Path, n: Node)
    requires Inv(l, u) && Settable(u, p, n) && Live(Serve(l, u, p))
    ensures Inv(l, u[p := n])
    ensures Layered(l, u[p := n]) == Layered(l, u)[p := Upper(n)]
  {
    var v := u[p := n];
    forall x {:trigger ParentOk(v, x)} | x in v ensures ParentOk(v, x) {
      assert ParentOk(u, x);
    }
    forall x {:trigger EntryOk(v, x)} | x in v ensures EntryOk(v, x) {
      assert EntryOk(u, x);
    }
    forall x {:trigger OpaqueOk(l, v, x)} ensures OpaqueOk(l, v, x) {
      assert OpaqueOk(l, u, x);
      SetOpaque(u, p, n, x);
    }
    var b := Layered(l, u)[p := Upper(n)];
    forall x ensures Seen(l, v, x) == LayerAt(b, x) {
      SetServe(l, u, p, n, x);
      SeenIsLayer(l, u, x);
    }
    LayersFromSeen(l, v, b);
  }
}
