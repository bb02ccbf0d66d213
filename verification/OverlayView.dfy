/**
  What the two layers mean together.

  Resolve gives one path's winner, component by component.  Serve is what the
  kernel sees of it: a lookup reaches a path only through a directory and never
  asks for a reserved name, so a path is served when its parent is a served
  directory, its name is an ordinary one and Resolve finds an entry.
  Layered is the whole merged tree with the layer each entry comes from, and
  View is that tree with the layers forgotten.
*/
module OverlayView {
  import opened RawFs

  const WH: Name := ".wh."
  const OPQ: Name := ".wh..wh..opq"

  /** Names the overlay keeps for itself. */
  predicate IsMarker(n: Name) {
    WH <= n
  }

  predicate UserPath(p: Path) {
    p != [] && Last(p) != "" && !IsMarker(Last(p))
  }

  /** The path of the ".wh.<name>" file that whites out p. */
  function Sidecar(p: Path): (s: Path)
    requires p != []
    ensures |s| == |p| && Parent(s) == Parent(p)
    ensures IsMarker(Last(s)) && HiddenBy(s) == p
  {
    Parent(p) + [WH + Last(p)]
  }

  /** The path whose sidecar s is. */
  function HiddenBy(s: Path): Path
    requires s != [] && IsMarker(Last(s))
  {
    Parent(s) + [Last(s)[4..]]
  }

  /** The path of the marker that makes directory p opaque. */
  function Opq(p: Path): (m: Path)
    ensures m != [] && Parent(m) == p && Last(m) == OPQ && IsMarker(Last(m))
  {
    p + [OPQ]
  }

  lemma SidecarIsNotOpq(p: Path, q: Path)
    requires UserPath(p)
    ensures Sidecar(p) != Opq(q)
  {
    assert IsMarker(OPQ[4..]);
    assert Last(Sidecar(p))[4..] == Last(p);
  }

  predicate HasSidecar(u: Tree, p: Path)
    requires p != []
  {
    At(u, Sidecar(p)).Some? && u[Sidecar(p)].Reg?
  }

  predicate IsOpaqueDir(u: Tree, p: Path) {
    DirAt(u, p) && At(u, Opq(p)).Some?
  }

  /** Some directory strictly between the root and p is opaque. */
  predicate OpaqueAbove(u: Tree, p: Path)
    decreases |p|
  {
    |p| > 1 && (OpaqueAbove(u, Parent(p)) || IsOpaqueDir(u, Parent(p)))
  }

  datatype Where = Absent | Whited | Upper(node: Node) | Lower(node: Node)

  predicate Live(w: Where) {
    w.Upper? || w.Lower?
  }

  predicate LiveDir(w: Where) {
    Live(w) && w.node.Dir?
  }

  /** The verdict on p's last component, once its parent is known to be live. */
  function Local(l: Tree, u: Tree, p: Path): Where
    requires p != []
  {
    if HasSidecar(u, p) || At(u, p) == Some(Whiteout) then Whited
    else match At(u, p)
      case Some(n) => Upper(n)
      case None => if p in l && !OpaqueAbove(u, p) then Lower(l[p]) else Absent
  }

  function Resolve(l: Tree, u: Tree, p: Path): Where
    decreases |p|
  {
    if p == [] then
      if p in u then Upper(u[p]) else if p in l then Lower(l[p]) else Absent
    else
      match Resolve(l, u, Parent(p))
      case Whited => Whited
      case Absent => Absent
      case _ => Local(l, u, p)
  }

  function Serve(l: Tree, u: Tree, p: Path): Where
    decreases |p|
  {
    if p == [] || (UserPath(p) && LiveDir(Serve(l, u, Parent(p)))) then Resolve(l, u, p)
    else Absent
  }

  predicate ServedDir(l: Tree, u: Tree, p: Path) {
    LiveDir(Serve(l, u, p))
  }

  /** The paths a lookup by the kernel can ask about. */
  predicate Reachable(l: Tree, u: Tree, p: Path) {
    p == [] || (UserPath(p) && ServedDir(l, u, Parent(p)))
  }

  lemma {:induction false} ServeStep(l: Tree, u: Tree, p: Path)
    requires [] in u
    ensures p == [] ==> Serve(l, u, p) == Upper(u[[]])
    ensures p != [] ==>
              Serve(l, u, p) ==
              if UserPath(p) && ServedDir(l, u, Parent(p)) then Local(l, u, p) else Absent
    ensures Live(Serve(l, u, p)) ==> Resolve(l, u, p) == Serve(l, u, p)
    decreases |p|
  {
    if p == [] {
    } else {
      ServeStep(l, u, Parent(p));
    }
  }

  /** Serve with "whited out" and "absent" told apart no longer. */
  function Seen(l: Tree, u: Tree, p: Path): Where {
    var w := Serve(l, u, p);
    if Live(w) then w else Absent
  }

  type Layers = map<Path, Where>

  function Layered(l: Tree, u: Tree): (a: Layers)
    ensures forall p {:trigger p in a} :: p in a ==> a[p] == Serve(l, u, p) && Live(a[p])
    ensures forall p {:trigger p in a} {:trigger Seen(l, u, p)} :: p in a <==> Live(Seen(l, u, p))
  {
    forall p | Live(Serve(l, u, p)) ensures p in l.Keys + u.Keys {
      LiveIsStored(l, u, p);
    }
    map p | p in l.Keys + u.Keys && Live(Serve(l, u, p)) :: Serve(l, u, p)
  }

  lemma LiveIsStored(l: Tree, u: Tree, p: Path)
    requires Live(Serve(l, u, p))
    ensures p in l || p in u
  {
  }

  function Erase(a: Layers): Tree {
    map p | p in a && Live(a[p]) :: a[p].node
  }

  /** The merged tree the sandbox sees. */
  function View(l: Tree, u: Tree): Tree {
    Erase(Layered(l, u))
  }

  // ---- the invariant of a mounted overlay ----

  predicate PlainName(p: Path) {
    p == [] || UserPath(p)
  }

  /** The source tree: a real tree that does not use the reserved names. */
  ghost predicate LowerOk(l: Tree) {
    && TreeOk(l)
    && forall p {:trigger PlainName(p)} :: p in l ==> PlainName(p)
  }

  // A reserved name is a ".wh.<name>" regular file, and an ordinary name that
  // is live has no sidecar.
  predicate EntryOk(u: Tree, p: Path) {
    p == [] ||
    if IsMarker(Last(p)) then |Last(p)| > 4 && At(u, p).Some? && u[p].Reg?
    else Last(p) != "" && (At(u, p) != Some(Whiteout) ==> At(u, Sidecar(p)) == None)
  }

  // A directory under an opaque one hides the raw directory at its place too.
  predicate OpaqueOk(l: Tree, u: Tree, p: Path) {
    DirAt(u, p) && DirAt(l, p) && OpaqueAbove(u, p) ==> IsOpaqueDir(u, p)
  }

  ghost predicate Inv(l: Tree, u: Tree) {
    && LowerOk(l)
    && TreeOk(u)
    && Opq([]) !in u
    && (forall p {:trigger EntryOk(u, p)} :: p in u ==> EntryOk(u, p))
    && (forall p {:trigger OpaqueOk(l, u, p)} :: OpaqueOk(l, u, p))
  }

  /** Every live entry of the upper layer is what its path resolves to. */
  lemma {:induction false} UpperWins(l: Tree, u: Tree, p: Path)
    requires Inv(l, u) && p in u && (p == [] || !IsMarker(Last(p))) && u[p] != Whiteout
    ensures Serve(l, u, p) == Resolve(l, u, p) == Upper(u[p])
    decreases |p|
  {
    ServeStep(l, u, p);
    if p == [] {
    } else {
      assert ParentOk(u, p);
      assert EntryOk(u, p);
      var q := Parent(p);
      assert EntryOk(u, q);
      UpperWins(l, u, q);
    }
  }

  /** Nothing served hides behind an opaque directory in the lower layer. */
  lemma LowerIsBare(l: Tree, u: Tree, p: Path)
    requires Inv(l, u) && Serve(l, u, p).Lower?
    ensures p != [] && p in l && Serve(l, u, p) == Lower(l[p])
    ensures p !in u && Sidecar(p) !in u && !OpaqueAbove(u, p) && UserPath(p)
  {
    ServeStep(l, u, p);
    assert PlainName(p);
    assert Sidecar(p) in u ==> EntryOk(u, Sidecar(p));
  }

  lemma SeenStep(l: Tree, u: Tree, p: Path)
    requires [] in u
    ensures p == [] ==> Seen(l, u, p) == Upper(u[[]])
    ensures p != [] ==>
              Seen(l, u, p) ==
              if Reachable(l, u, p) && Live(Local(l, u, p)) then Local(l, u, p) else Absent
    ensures LiveDir(Seen(l, u, p)) == ServedDir(l, u, p)
  {
    ServeStep(l, u, p);
  }

  /** The merged view is itself a well-formed tree of ordinary names. */
  lemma ViewIsTree(l: Tree, u: Tree)
    requires Inv(l, u)
    ensures LowerOk(View(l, u))
  {
    var v := View(l, u);
    forall p {:trigger ParentOk(v, p)} | p in v ensures ParentOk(v, p) {
      ServeStep(l, u, p);
      if p != [] {
        assert Parent(p) in Layered(l, u) by { assert Live(Seen(l, u, Parent(p))); }
      }
    }
    forall p {:trigger PlainName(p)} | p in v ensures PlainName(p) {
      ServeStep(l, u, p);
    }
    SeenStep(l, u, []);
  }
}
