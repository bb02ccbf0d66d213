/**
  Whole runs of the overlay.

  Step says, for each operation, what its upper layer becomes and what it answers.
  PlainStep is the same operation as one system call on one ordinary tree.
  LayeredStep sits between them: the plain step, with the layer of every entry.
*/
module OverlayRuns {
  import opened RawFs
  import opened OverlayView
  import opened OverlayEdits
  import opened DiskAnswers

  datatype Op =
    | MkdirOp(path: Path, mode: nat)
    | CreateOp(path: Path, mode: nat)
    | SymlinkOp(path: Path, target: string)
    | UnlinkOp(path: Path)
    | RmdirOp(path: Path)
    | RenameOp(path: Path, to: Path)
    | ChmodOp(path: Path, mode: nat)
    | TruncateOp(path: Path, size: nat)
    | WriteOp(path: Path, trunc: bool, offset: nat, buf: Bytes)
  {
    predicate Creates() { MkdirOp? || CreateOp? || SymlinkOp? }

    predicate CopiesUp() { RenameOp? || ChmodOp? || TruncateOp? || WriteOp? }

    /** The operation may move the layer of x: x is at or above a path it names. */
    predicate Touches(x: Path) {
      x <= path || (RenameOp? && x <= to)
    }
  }

  // ---- the plain tree ----

  function PlainStep(t: Tree, op: Op): Done
    requires op.Creates() ==> op.path != []
    requires op.RenameOp? ==> op.to != [] && !DirAt(t, op.path)
  {
    match op
    case MkdirOp(p, mode) => Mkdir(t, p, mode % PERMS)
    case CreateOp(p, mode) => OpenCreate(t, p, mode % PERMS, false)
    case SymlinkOp(p, target) => Symlink(t, p, target)
    case UnlinkOp(p) => Unlink(t, p)
    case RmdirOp(p) => Rmdir(t, p)
    case RenameOp(p, to) => RenameFile(t, p, to)
    case ChmodOp(p, mode) => Chmod(t, p, mode % PERMS)
    case TruncateOp(p, size) => Truncate(t, p, size)
    case WriteOp(p, trunc, offset, buf) => OpenAndWrite(t, p, trunc, offset, buf)
  }

  predicate LookedUp(t: Tree, p: Path) {
    UserPath(p) && DirAt(t, Parent(p))
  }

  /** What the kernel's own lookup guarantees before it calls the overlay. */
  predicate CallerOk(t: Tree, op: Op) {
    match op
    case MkdirOp(p, _) => LookedUp(t, p) && p !in t
    case CreateOp(p, _) => LookedUp(t, p) && p !in t
    case SymlinkOp(p, _) => LookedUp(t, p) && p !in t
    case UnlinkOp(p) => LookedUp(t, p)
    case RmdirOp(p) => LookedUp(t, p)
    case RenameOp(p, to) =>
      LookedUp(t, p) && LookedUp(t, to) && !DirAt(t, p) && !DirAt(t, to) && p != to
    case ChmodOp(p, _) => (p == [] || LookedUp(t, p)) && !LinkAt(t, p)
    case TruncateOp(p, _) => (p == [] || LookedUp(t, p)) && !LinkAt(t, p)
    case WriteOp(p, _, _, _) => (p == [] || LookedUp(t, p)) && !LinkAt(t, p)
  }

  predicate LinkAt(t: Tree, p: Path) {
    p in t && t[p].Link?
  }

  // ---- the overlay ----

  /** The mutable part of a mounted overlay. */
  datatype Mount = Mount(upper: Tree, canMknod: bool)

  /** deny: the system refuses mknod now.  disk: its answers if a regular file is copied up now. */
  datatype Call = Call(op: Op, deny: bool, disk: Disk)

  /** What copying the call's path up answers, if it is a regular file of lower. */
  function CopyOf(l: Tree, u: Tree, c: Call): Errno {
    CopyOfPath(l, u, c.op.path, c.disk)
  }

  function CopyOfPath(l: Tree, u: Tree, p: Path, disk: Disk): Errno {
    if p != [] && p in l && l[p].Reg? then CopyAnswer(u, p, |l[p].data|, disk) else OK
  }

  datatype Outcome = Outcome(mount: Mount, err: Errno)

  /** copy_up, given what copy_regular answers if it comes to that. */
  function CopyUpStep(l: Tree, u: Tree, p: Path, copy: Errno): Done {
    match Resolve(l, u, p)
    case Upper(_) => Done(u, OK)
    case Lower(n) =>
      if p == [] || p !in l then Done(u, OK)
      else if n.Special? || n.Whiteout? then Done(WithDirs(l, u, Parent(p)), EPERM)
      else if n.Reg? && copy != OK then Done(WithDirs(l, u, Parent(p)), copy)
      else Done(CopiedUp(l, u, p), OK)
    case _ => Done(u, ENOENT)
  }

  function Dropped(l: Tree, m: Mount, u: Tree, p: Path, deny: bool): Outcome
    requires p != []
  {
    var dev := m.canMknod && !deny;
    Outcome(Mount(Drop(l, u, p, dev), if p in l then dev else m.canMknod), OK)
  }

  /** What op_rename does when both names are the same. */
  function SelfRename(l: Tree, m: Mount, p: Path, deny: bool, copy: Errno): Outcome
    requires p != []
  {
    var d := CopyUpStep(l, m.upper, p, copy);
    if d.err == OK && p in l then Dropped(l, m, d.tree, p, deny)
    else Outcome(m.(upper := d.tree), d.err)
  }

  ghost function Step(l: Tree, m: Mount, c: Call): Outcome
    requires CallerOk(View(l, m.upper), c.op)
  {
    var u := m.upper;
    match c.op
    case MkdirOp(p, mode) => Outcome(m.(upper := Put(l, u, p, Dir(mode % PERMS))), OK)
    case CreateOp(p, mode) => Outcome(m.(upper := Put(l, u, p, Reg(mode % PERMS, []))), OK)
    case SymlinkOp(p, target) => Outcome(m.(upper := Put(l, u, p, Link(target))), OK)
    case UnlinkOp(p) =>
      var w := Resolve(l, u, p);
      if !Live(w) then Outcome(m, ENOENT)
      else if w.node.Dir? then Outcome(m, EISDIR)
      else Dropped(l, m, u, p, c.deny)
    case RmdirOp(p) =>
      var w := Resolve(l, u, p);
      if !Live(w) then Outcome(m, ENOENT)
      else if !w.node.Dir? then Outcome(m, ENOTDIR)
      else if Names(View(l, u), p) != {} then Outcome(m, ENOTEMPTY)
      else Dropped(l, m, u, p, c.deny)
    case RenameOp(p, to) =>
      var d := CopyUpStep(l, u, p, CopyOf(l, u, c));
      if d.err != OK || p !in d.tree then Outcome(m.(upper := d.tree), d.err)
      else Dropped(l, m, Put(l, d.tree, to, d.tree[p]), p, c.deny)
    case _ =>
      var d := CopyUpStep(l, u, c.op.path, CopyOf(l, u, c));
      if d.err != OK then Outcome(m.(upper := d.tree), d.err)
      else
        var e := PlainStep(d.tree, c.op);
        Outcome(m.(upper := e.tree), e.err)
  }

  // ---- the layered tree ----

  datatype Layering = Layering(layers: Layers, err: Errno)

  /** What makes copy_up give up although the entry exists. */
  function RefusalOf(w: Where, copy: Errno): Errno {
    match w
    case Lower(Special(_)) => EPERM
    case Lower(Whiteout) => EPERM
    case Lower(Reg(_, _)) => copy
    case _ => OK
  }

  function Refusal(a: Layers, op: Op, copy: Errno): Errno {
    if op.CopiesUp() && op.path in a then RefusalOf(a[op.path], copy) else OK
  }

  /** Tree t, in the layers of a except that whatever op touched is now in the upper one. */
  function Relayered(a: Layers, t: Tree, op: Op): Layers {
    map x | x in t ::
      if x in a && a[x].Lower? && !op.Touches(x) then Lower(t[x]) else Upper(t[x])
  }

  function Above(p: Path): Path {
    if p == [] then [] else Parent(p)
  }

  /** One operation on the layered tree: the plain step, and which layers it moves. */
  function LayeredStep(a: Layers, op: Op, copy: Errno): Layering
    requires CallerOk(Erase(a), op)
  {
    var r := Refusal(a, op, copy);
    var d := PlainStep(Erase(a), op);
    if r != OK then Layering(Raised(a, Above(op.path)), r)
    else if d.err == OK || (op.CopiesUp() && op.path in Erase(a)) then
      Layering(Relayered(a, d.tree, op), d.err)
    else Layering(a, d.err)
  }

  // ---- each operation ----

  lemma InView(l: Tree, u: Tree, p: Path)
    ensures p in View(l, u) <==> Live(Serve(l, u, p))
    ensures p in View(l, u) ==> View(l, u)[p] == Serve(l, u, p).node
    ensures DirAt(View(l, u), p) <==> ServedDir(l, u, p)
  {
    SeenIsLayer(l, u, p);
  }

  lemma LookedUpResolves(l: Tree, u: Tree, p: Path)
    requires p == [] || LookedUp(View(l, u), p)
    ensures Serve(l, u, p) == Resolve(l, u, p)
  {
    if p != [] {
      InView(l, u, Parent(p));
    }
  }

  /** The step does to the layered tree exactly what LayeredStep says. */
  ghost predicate Refines(l: Tree, m: Mount, c: Call)
    requires CallerOk(View(l, m.upper), c.op)
  {
    var o := Step(l, m, c);
    var d := LayeredStep(Layered(l, m.upper), c.op, CopyOf(l, m.upper, c));
    && Inv(l, o.mount.upper)
    && Layered(l, o.mount.upper) == d.layers
    && o.err == d.err
  }

  ghost predicate AllLive(a: Layers) {
    forall p {:trigger p in a} :: p in a ==> Live(a[p])
  }

  lemma RelayeredPut(a: Layers, op: Op, n: Node)
    requires AllLive(a) && op.path != [] && op.path !in a && !op.RenameOp?
    ensures Relayered(a, Erase(a)[op.path := n], op) ==
            Raised(a, Parent(op.path))[op.path := Upper(n)]
  {
    forall x | x in a ensures op.Touches(x) <==> x <= Parent(op.path) {
      PrefixParent(x, op.path);
    }
  }

  lemma RelayeredDrop(a: Layers, op: Op)
    requires AllLive(a) && op.path != [] && !op.RenameOp?
    ensures Relayered(a, Erase(a) - {op.path}, op) == Raised(a, Parent(op.path)) - {op.path}
  {
    forall x | x in a && x != op.path ensures op.Touches(x) <==> x <= Parent(op.path) {
      PrefixParent(x, op.path);
    }
  }

  lemma PutStep(l: Tree, m: Mount, c: Call, n: Node)
    requires Inv(l, m.upper) && CallerOk(View(l, m.upper), c.op) && c.op.Creates()
    requires n == match c.op
                  case MkdirOp(_, mode) => Dir(mode % PERMS)
                  case CreateOp(_, mode) => Reg(mode % PERMS, [])
                  case SymlinkOp(_, target) => Link(target)
                  case _ => n
    ensures Refines(l, m, c)
  {
    var u, p := m.upper, c.op.path;
    InView(l, u, Parent(p));
    InView(l, u, p);
    PutLayers(l, u, p, n);
    RelayeredPut(Layered(l, u), c.op, n);
    assert PlainStep(View(l, u), c.op) == Done(View(l, u)[p := n], OK);
  }

  lemma DropOutcome(l: Tree, m: Mount, c: Call)
    requires CallerOk(View(l, m.upper), c.op) && (c.op.UnlinkOp? || c.op.RmdirOp?)
    ensures var d := PlainStep(View(l, m.upper), c.op);
            Step(l, m, c) ==
            if d.err == OK then Dropped(l, m, m.upper, c.op.path, c.deny) else Outcome(m, d.err)
  {
    LookedUpResolves(l, m.upper, c.op.path);
    InView(l, m.upper, c.op.path);
  }

  lemma DropStep(l: Tree, m: Mount, c: Call)
    requires Inv(l, m.upper) && CallerOk(View(l, m.upper), c.op)
    requires c.op.UnlinkOp? || c.op.RmdirOp?
    ensures Refines(l, m, c)
  {
    hide PlainStep, Serve, Raised, Relayered, LayeredStep, Step;
    var u, p := m.upper, c.op.path;
    DropOutcome(l, m, c);
    InView(l, u, p);
    if PlainStep(View(l, u), c.op).err == OK {
      DropReady(l, u, c.op);
      DropLayers(l, u, p, m.canMknod && !c.deny);
    }
    DropLayering(Layered(l, u), c.op, CopyOf(l, u, c));
  }

  lemma DropLayering(a: Layers, op: Op, copy: Errno)
    requires AllLive(a) && CallerOk(Erase(a), op) && (op.UnlinkOp? || op.RmdirOp?)
    ensures var d, p := PlainStep(Erase(a), op), op.path;
            LayeredStep(a, op, copy) ==
            if d.err == OK then Layering(Raised(a, Parent(p)) - {p}, OK) else Layering(a, d.err)
  {
    if PlainStep(Erase(a), op).err == OK {
      RelayeredDrop(a, op);
    }
  }

  lemma DropReady(l: Tree, u: Tree, op: Op)
    requires Inv(l, u) && LookedUp(View(l, u), op.path)
    requires (op.UnlinkOp? || op.RmdirOp?) && PlainStep(View(l, u), op).err == OK
    ensures Droppable(l, u, op.path)
    ensures PlainStep(View(l, u), op).tree == View(l, u) - {op.path}
  {
    InView(l, u, op.path);
    if op.RmdirOp? {
      EmptyIsBare(l, u, op.path);
    } else {
      NoDirIsBare(l, u, op.path);
    }
  }

  lemma EmptyIsBare(l: Tree, u: Tree, p: Path)
    requires Names(View(l, u), p) == {}
    ensures BareBelow(l, u, p)
  {
    forall n: Name {:trigger p + [n]} ensures !Live(Serve(l, u, p + [n])) {
      InView(l, u, p + [n]);
      assert n !in Names(View(l, u), p);
    }
  }

  /** copy_up never shows: it moves layers, and afterwards p is in the upper one. */
  ghost predicate CopiesInvisibly(l: Tree, u: Tree, p: Path, d: Done, copy: Errno) {
    var w, a := Serve(l, u, p), Layered(l, u);
    && Inv(l, d.tree)
    && d.err == (if Live(w) then RefusalOf(w, copy) else ENOENT)
    && (!Live(w) ==> d.tree == u)
    && (Live(w) && d.err != OK ==> Layered(l, d.tree) == Raised(a, Above(p)))
    && (Live(w) && d.err == OK ==>
          && Layered(l, d.tree) == Raised(a, p)
          && At(d.tree, p) == Some(w.node) && w.node != Whiteout
          && Serve(l, d.tree, p) == Upper(w.node))
  }

  lemma CopyUpLower(l: Tree, u: Tree, p: Path, copy: Errno)
    requires Inv(l, u) && Serve(l, u, p).Lower?
    ensures CopiesInvisibly(l, u, p, CopyUpStep(l, u, p, copy), copy)
  {
    LowerIsBare(l, u, p);
    ServeStep(l, u, p);
    if RefusalOf(Serve(l, u, p), copy) == OK {
      CopiedUpLayers(l, u, p);
    } else {
      WithDirsLayers(l, u, Parent(p));
    }
  }

  lemma CopyUpLayers(l: Tree, u: Tree, p: Path, copy: Errno)
    requires Inv(l, u) && (p == [] || LookedUp(View(l, u), p))
    ensures CopiesInvisibly(l, u, p, CopyUpStep(l, u, p, copy), copy)
  {
    LookedUpResolves(l, u, p);
    ServeStep(l, u, p);
    if Serve(l, u, p).Lower? {
      CopyUpLower(l, u, p, copy);
    } else if Serve(l, u, p).Upper? {
      RaisedInUpper(l, u, p);
    }
  }

  lemma CopyUpIsInvisible(l: Tree, u: Tree, p: Path, copy: Errno)
    requires Inv(l, u) && (p == [] || LookedUp(View(l, u), p))
    ensures var d := CopyUpStep(l, u, p, copy);
            && Inv(l, d.tree) && View(l, d.tree) == View(l, u)
            && (d.err == OK ==> Serve(l, d.tree, p) == Upper(Serve(l, u, p).node))
            && (d.err == OK ==> p in View(l, u))
  {
    CopyUpLayers(l, u, p, copy);
    InView(l, u, p);
    RaisedIsInvisible(Layered(l, u), p);
    RaisedIsInvisible(Layered(l, u), Above(p));
  }

  /** Copying up a second time does nothing. */
  lemma CopyUpTwice(l: Tree, u: Tree, p: Path, copy: Errno, again: Errno)
    requires Inv(l, u) && (p == [] || LookedUp(View(l, u), p))
    requires CopyUpStep(l, u, p, copy).err == OK
    ensures var v := CopyUpStep(l, u, p, copy).tree;
            View(l, v) == View(l, u) && CopyUpStep(l, v, p, again) == Done(v, OK)
  {
    var v := CopyUpStep(l, u, p, copy).tree;
    CopyUpLayers(l, u, p, copy);
    RaisedIsInvisible(Layered(l, u), p);
    LookedUpResolves(l, u, p);
    LookedUpResolves(l, v, p);
    InView(l, u, p);
  }

  lemma RaisedIsInvisible(a: Layers, p: Path)
    ensures Erase(Raised(a, p)) == Erase(a)
  {
  }

  lemma RelayeredSet(a: Layers, op: Op, n: Node)
    requires AllLive(a) && op.path in a && !op.RenameOp?
    ensures Relayered(a, Erase(a)[op.path := n], op) == Raised(a, op.path)[op.path := Upper(n)]
  {
  }

  // The node-level effect of the three operations that change a node in place.
  function Changed(n: Node, op: Op): Node {
    match op
    case ChmodOp(_, mode) => WithMode(n, mode % PERMS)
    case TruncateOp(_, size) => if n.Reg? then Reg(n.mode, Resize(n.data, size)) else n
    case WriteOp(_, trunc, offset, buf) =>
      if n.Reg? then Reg(n.mode, Overwrite(if trunc then [] else n.data, offset, buf)) else n
    case _ => n
  }

  lemma PlainSet(t: Tree, op: Op)
    requires (op.ChmodOp? || op.TruncateOp? || op.WriteOp?) && op.path in t
    ensures PlainStep(t, op).tree == t[op.path := Changed(t[op.path], op)]
    ensures forall v: Tree | At(v, op.path) == At(t, op.path) ::
              PlainStep(v, op).err == PlainStep(t, op).err
  {
    assert t[op.path := t[op.path]] == t;
  }

  predicate Changes(op: Op) {
    op.ChmodOp? || op.TruncateOp? || op.WriteOp?
  }

  lemma SetOutcome(l: Tree, m: Mount, c: Call)
    requires CallerOk(View(l, m.upper), c.op) && Changes(c.op)
    ensures var d, p := CopyUpStep(l, m.upper, c.op.path, CopyOf(l, m.upper, c)), c.op.path;
            && (d.err != OK ==> Step(l, m, c) == Outcome(m.(upper := d.tree), d.err))
            && (d.err == OK && p in d.tree ==>
                  Step(l, m, c) == Outcome(m.(upper := d.tree[p := Changed(d.tree[p], c.op)]),
                                           PlainStep(d.tree, c.op).err))
  {
    var d := CopyUpStep(l, m.upper, c.op.path, CopyOf(l, m.upper, c));
    if d.err == OK && c.op.path in d.tree {
      PlainSet(d.tree, c.op);
    }
  }

  lemma SetLayering(a: Layers, op: Op, copy: Errno)
    requires AllLive(a) && CallerOk(Erase(a), op) && Changes(op)
    ensures var p, r := op.path, Refusal(a, op, copy);
            LayeredStep(a, op, copy) ==
            if p !in a then Layering(a, ENOENT)
            else if r != OK then Layering(Raised(a, Above(p)), r)
            else Layering(Raised(a, p)[p := Upper(Changed(a[p].node, op))],
                          PlainStep(Erase(a), op).err)
  {
    if op.path in a && Refusal(a, op, copy) == OK {
      PlainSet(Erase(a), op);
      RelayeredSet(a, op, Changed(a[op.path].node, op));
    }
  }

  lemma SetStep(l: Tree, m: Mount, c: Call)
    requires Inv(l, m.upper) && CallerOk(View(l, m.upper), c.op) && Changes(c.op)
    ensures Refines(l, m, c)
  {
    var u, p, copy := m.upper, c.op.path, CopyOf(l, m.upper, c);
    var d := CopyUpStep(l, u, p, copy);
    CopyUpLayers(l, u, p, copy);
    InView(l, u, p);
    SetOutcome(l, m, c);
    SetLayering(Layered(l, u), c.op, copy);
    if d.err == OK {
      SameAnswer(d.tree, View(l, u), c.op);
      SetReady(l, u, d.tree, p, c.op);
      SetLayers(l, d.tree, p, Changed(d.tree[p], c.op));
    }
  }

  lemma SameAnswer(s: Tree, t: Tree, op: Op)
    requires Changes(op) && At(s, op.path) == At(t, op.path) != None
    ensures PlainStep(s, op).err == PlainStep(t, op).err
  {
  }

  lemma SetReady(l: Tree, u: Tree, v: Tree, p: Path, op: Op)
    requires Inv(l, u) && Live(Serve(l, u, p)) && At(v, p) == Some(Serve(l, u, p).node)
    requires v[p] != Whiteout
    ensures Settable(v, p, Changed(v[p], op))
  {
    ServeStep(l, u, p);
  }

  lemma RaisedAt(a: Layers, p: Path, x: Path)
    ensures LayerAt(Raised(a, p), x) ==
            if x in a && x <= p && Live(a[x]) then Upper(a[x].node) else LayerAt(a, x)
    ensures x in Raised(a, p) <==> x in a
  {
  }

  lemma RelayeredRenameAt(a: Layers, op: Op, n: Node, x: Path)
    requires AllLive(a) && op.RenameOp? && op.path in a && op.path != [] && op.to != []
    requires op.path != op.to
    ensures var b := Relayered(a, (Erase(a) - {op.path})[op.to := n], op);
            var d := Raised(Raised(Raised(a, op.path), Parent(op.to))[op.to := Upper(n)], Parent(op.path))
                     - {op.path};
            && (x in b <==> x in d)
            && (x in b && x in a ==> b[x] == d[x]) && (x in b && x !in a ==> b[x] == d[x])
  {
    var a1 := Raised(a, op.path);
    var a2 := Raised(a1, Parent(op.to));
    var a3 := a2[op.to := Upper(n)];
    PrefixParent(x, op.to);
    PrefixParent(x, op.path);
    RaisedAt(a, op.path, x);
    RaisedAt(a1, Parent(op.to), x);
    RaisedAt(a3, Parent(op.path), x);
  }

  lemma RelayeredRename(a: Layers, op: Op, n: Node)
    requires AllLive(a) && op.RenameOp? && op.path in a && op.path != [] && op.to != []
    requires op.path != op.to
    ensures Relayered(a, (Erase(a) - {op.path})[op.to := n], op) ==
            Raised(Raised(Raised(a, op.path), Parent(op.to))[op.to := Upper(n)], Parent(op.path))
            - {op.path}
  {
    forall x {
      RelayeredRenameAt(a, op, n, x);
    }
  }

  // The part of a rename that follows the copy-up: a new node at to, none left at p.
  lemma MoveLayers(l: Tree, u: Tree, p: Path, to: Path, n: Node, dev: bool)
    requires Inv(l, u) && UserPath(p) && p != to && Puttable(l, u, to)
    requires Serve(l, u, p) == Upper(n) && !n.Dir? && n != Whiteout
    ensures Inv(l, Drop(l, Put(l, u, to, n), p, dev))
    ensures Layered(l, Drop(l, Put(l, u, to, n), p, dev)) ==
            Raised(Raised(Layered(l, u), Parent(to))[to := Upper(n)], Parent(p)) - {p}
  {
    var v := Put(l, u, to, n);
    PutLayers(l, u, to, n);
    SeenIsLayer(l, u, p);
    SeenIsLayer(l, v, p);
    NoDirIsBare(l, v, p);
    DropLayers(l, v, p, dev);
  }

  lemma StaysPuttable(l: Tree, u: Tree, v: Tree, p: Path, to: Path)
    requires Puttable(l, u, to) && Layered(l, v) == Raised(Layered(l, u), p)
    ensures Puttable(l, v, to)
  {
    SeenIsLayer(l, u, to);
    SeenIsLayer(l, v, to);
    SeenIsLayer(l, u, Parent(to));
    SeenIsLayer(l, v, Parent(to));
  }

  lemma RenameStep(l: Tree, m: Mount, c: Call)
    requires Inv(l, m.upper) && CallerOk(View(l, m.upper), c.op) && c.op.RenameOp?
    ensures Refines(l, m, c)
  {
    hide Relayered, Raised, Serve, Put, Drop, CopyAnswer, EntryOk, OpaqueOk;
    var u, p, to, copy := m.upper, c.op.path, c.op.to, CopyOf(l, m.upper, c);
    var d := CopyUpStep(l, u, p, copy);
    CopyUpLayers(l, u, p, copy);
    InView(l, u, p);
    InView(l, u, to);
    InView(l, u, Parent(to));
    if d.err == OK {
      StaysPuttable(l, u, d.tree, p, to);
      MoveLayers(l, d.tree, p, to, d.tree[p], m.canMknod && !c.deny);
      RelayeredRename(Layered(l, u), c.op, d.tree[p]);
    }
  }

  /**
    Renaming a file to itself must change nothing, and does so exactly when the
    lower layer has no entry of that name: otherwise the closing whiteout lands on
    the file itself.
  */
  lemma SelfRenameExact(l: Tree, m: Mount, p: Path, deny: bool, copy: Errno)
    requires Inv(l, m.upper) && LookedUp(View(l, m.upper), p)
    requires p in View(l, m.upper) && !View(l, m.upper)[p].Dir?
    requires CopyUpStep(l, m.upper, p, copy).err == OK
    ensures var o := SelfRename(l, m, p, deny, copy);
            && Done(View(l, m.upper), OK) == RenameFile(View(l, m.upper), p, p)
            && o.err == OK
            && (View(l, o.mount.upper) == View(l, m.upper) <==> p !in l)
            && (p in l ==> View(l, o.mount.upper) == View(l, m.upper) - {p})
  {
    var u := m.upper;
    var d := CopyUpStep(l, u, p, copy);
    CopyUpLayers(l, u, p, copy);
    RaisedIsInvisible(Layered(l, u), p);
    InView(l, u, p);
    if p in l {
      var dev := m.canMknod && !deny;
      NoDirIsBare(l, d.tree, p);
      DropLayers(l, d.tree, p, dev);
      RaisedIsInvisible(Layered(l, d.tree), Parent(p));
      ErasedWithout(Raised(Layered(l, d.tree), Parent(p)), p);
    }
  }

  // Two trees of depth one.
  lemma FlatInv(l: Tree, u: Tree)
    requires DirAt(l, []) && forall x :: x in l && x != [] ==> |x| == 1 && UserPath(x)
    requires DirAt(u, []) && Opq([]) !in u
    requires forall x {:trigger EntryOk(u, x)} :: x in u && x != [] ==> |x| == 1 && EntryOk(u, x)
    ensures Inv(l, u)
  {
    forall x {:trigger ParentOk(l, x)} | x in l ensures ParentOk(l, x) {
      assert x != [] ==> Parent(x) == [];
    }
    forall x {:trigger ParentOk(u, x)} | x in u ensures ParentOk(u, x) {
      assert EntryOk(u, x) || x == [];
      assert x != [] ==> Parent(x) == [];
    }
    forall x {:trigger OpaqueOk(l, u, x)} ensures OpaqueOk(l, u, x) {
      assert x in u ==> EntryOk(u, x) || x == [];
    }
  }

  const ONE_FILE: Tree := map[[] := DIR755, ["f"] := FILE644]
  const EMPTY_UPPER: Tree := map[[] := DIR755]

  lemma OneFileInv()
    ensures Inv(ONE_FILE, EMPTY_UPPER) && UserPath(["f"])
  {
    hide Inv;
    assert ["f"][0] == "f" && "f"[0] == 'f';
    FlatInv(ONE_FILE, EMPTY_UPPER);
  }

  lemma OneFileServed()
    ensures Inv(ONE_FILE, EMPTY_UPPER)
    ensures LookedUp(View(ONE_FILE, EMPTY_UPPER), ["f"])
    ensures Serve(ONE_FILE, EMPTY_UPPER, ["f"]) == Resolve(ONE_FILE, EMPTY_UPPER, ["f"]) == Lower(FILE644)
  {
    hide Inv, UserPath, Serve, View;
    OneFileInv();
    assert Parent(["f"]) == [];
    ServeStep(ONE_FILE, EMPTY_UPPER, []);
    ServeStep(ONE_FILE, EMPTY_UPPER, ["f"]);
    InView(ONE_FILE, EMPTY_UPPER, []);
  }

  /** Such as: a file of lower nobody has touched yet, renamed to itself, is gone. */
  lemma SelfRenameDeletes(deny: bool)
    ensures var l, m := ONE_FILE, Mount(EMPTY_UPPER, true);
            var o := SelfRename(l, m, ["f"], deny, OK);
            && Inv(l, m.upper) && o.err == OK
            && ["f"] in View(l, m.upper) && ["f"] !in View(l, o.mount.upper)
  {
    hide ONE_FILE, EMPTY_UPPER, Inv, View, Layered, SelfRename;
    var l, m := ONE_FILE, Mount(EMPTY_UPPER, true);
    OneFileServed();
    InView(l, m.upper, ["f"]);
    LowerIsBare(l, m.upper, ["f"]);
    SelfRenameExact(l, m, ["f"], deny, OK);
  }

  lemma ErasedWithout(a: Layers, p: Path)
    ensures Erase(a - {p}) == Erase(a) - {p}
  {
  }

  /** Every operation refines the layered step, and keeps the invariant. */
  lemma StepRefines(l: Tree, m: Mount, c: Call)
    requires Inv(l, m.upper) && CallerOk(View(l, m.upper), c.op)
    ensures Refines(l, m, c)
  {
    match c.op
    case MkdirOp(_, mode) => PutStep(l, m, c, Dir(mode % PERMS));
    case CreateOp(_, mode) => PutStep(l, m, c, Reg(mode % PERMS, []));
    case SymlinkOp(_, target) => PutStep(l, m, c, Link(target));
    case UnlinkOp(_) => DropStep(l, m, c);
    case RmdirOp(_) => DropStep(l, m, c);
    case RenameOp(_, _) => RenameStep(l, m, c);
    case ChmodOp(_, _) => SetStep(l, m, c);
    case TruncateOp(_, _) => SetStep(l, m, c);
    case WriteOp(_, _, _, _) => SetStep(l, m, c);
  }

  // ---- one step, seen from the plain tree ----

  lemma RelayeredErases(a: Layers, t: Tree, op: Op)
    ensures AllLive(Relayered(a, t, op)) && Erase(Relayered(a, t, op)) == t
    ensures OnlyShrinks(a, Relayered(a, t, op))
  {
  }

  /** What b serves from the lower layer, a does too. */
  ghost predicate OnlyShrinks(a: Layers, b: Layers) {
    forall p {:trigger p in b} :: p in b && b[p].Lower? ==> p in a && a[p].Lower?
  }

  lemma LayeredErases(a: Layers, op: Op, copy: Errno)
    requires AllLive(a) && CallerOk(Erase(a), op)
    ensures AllLive(LayeredStep(a, op, copy).layers) && OnlyShrinks(a, LayeredStep(a, op, copy).layers)
    ensures Done(Erase(LayeredStep(a, op, copy).layers), LayeredStep(a, op, copy).err) ==
            RefusedOrDone(Erase(a), op, Refusal(a, op, copy))
  {
    hide Relayered, Raised, PlainStep;
    RaisedIsInvisible(a, Above(op.path));
    RaisedShrinks(a, Above(op.path));
    RelayeredErases(a, PlainStep(Erase(a), op).tree, op);
    if PlainStep(Erase(a), op).err != OK {
      FailureChangesNothing(Erase(a), op);
    }
  }

  lemma RaisedShrinks(a: Layers, p: Path)
    requires AllLive(a)
    ensures AllLive(Raised(a, p)) && OnlyShrinks(a, Raised(a, p))
  {
  }

  lemma FailureChangesNothing(t: Tree, op: Op)
    requires WellTyped(t, op) && PlainStep(t, op).err != OK
    ensures PlainStep(t, op).tree == t
  {
  }

  /** A plain call, unless it is refused beforehand. */
  function RefusedOrDone(t: Tree, op: Op, refusal: Errno): Done
    requires WellTyped(t, op)
  {
    if refusal != OK then Done(t, refusal) else PlainStep(t, op)
  }

  /** Why a call of the overlay is refused, if it is. */
  function RefusalAt(l: Tree, u: Tree, c: Call): Errno {
    Refusal(Layered(l, u), c.op, CopyOf(l, u, c))
  }

  /**
    The refinement: unless copying up is refused, an operation changes the merged
    view exactly as the system call of that name changes one plain tree, and answers
    the same; a refused one leaves the view alone.
  */
  lemma OverlayIsAPlainTree(l: Tree, m: Mount, c: Call)
    requires Inv(l, m.upper) && CallerOk(View(l, m.upper), c.op)
    ensures Inv(l, Step(l, m, c).mount.upper)
    ensures Done(View(l, Step(l, m, c).mount.upper), Step(l, m, c).err) ==
            RefusedOrDone(View(l, m.upper), c.op, RefusalAt(l, m.upper, c))
  {
    StepRefines(l, m, c);
    LayeredErases(Layered(l, m.upper), c.op, CopyOf(l, m.upper, c));
  }

  /** The entry is of a kind the overlay does not copy. */
  predicate NeverCopied(t: Tree, p: Path) {
    p in t && (t[p].Special? || t[p].Whiteout?)
  }

  /**
    A call is refused only if its path is still served from lower, and there either is
    of a kind that is never copied, or is a regular file whose copying the disk failed
    or for which no temporary name was left.
  */
  lemma RefusalMeans(l: Tree, u: Tree, c: Call)
    requires Inv(l, u) && RefusalAt(l, u, c) != OK
    ensures var p, r := c.op.path, RefusalAt(l, u, c);
            && c.op.CopiesUp() && p != [] && Serve(l, u, p) == Lower(l[p])
            && if NeverCopied(View(l, u), p) then r == EPERM
               else l[p].Reg? && r == CopyOf(l, u, c) && !CopiesWell(u, p, c.disk)
  {
    LowerIsBare(l, u, c.op.path);
    InView(l, u, c.op.path);
    if l[c.op.path].Reg? {
      CopyAnswerMeans(u, c.op.path, |l[c.op.path].data|, c.disk);
    }
  }

  /** unlink and rmdir are never refused: they answer, and do, what the plain call does. */
  lemma DropAnswer(l: Tree, m: Mount, c: Call)
    requires Inv(l, m.upper) && CallerOk(View(l, m.upper), c.op)
    requires c.op.UnlinkOp? || c.op.RmdirOp?
    ensures var d, o := PlainStep(View(l, m.upper), c.op), Step(l, m, c);
            && o == (if d.err == OK then Dropped(l, m, m.upper, c.op.path, c.deny) else Outcome(m, d.err))
            && Inv(l, o.mount.upper) && Done(View(l, o.mount.upper), o.err) == d
  {
    OverlayIsAPlainTree(l, m, c);
    DropOutcome(l, m, c);
  }

  // ---- runs ----

  datatype Trace = Trace(mount: Mount, errs: seq<Errno>)

  ghost predicate RunOk(l: Tree, m: Mount, cs: seq<Call>)
    decreases |cs|
  {
    cs == [] ||
    (CallerOk(View(l, m.upper), cs[0].op) && RunOk(l, Step(l, m, cs[0]).mount, cs[1..]))
  }

  ghost function Run(l: Tree, m: Mount, cs: seq<Call>): Trace
    requires RunOk(l, m, cs)
    decreases |cs|
  {
    if cs == [] then Trace(m, [])
    else
      var o := Step(l, m, cs[0]);
      var t := Run(l, o.mount, cs[1..]);
      Trace(t.mount, [o.err] + t.errs)
  }

  /** Which calls of a run are refused, and with what answer. */
  ghost function Refusals(l: Tree, m: Mount, cs: seq<Call>): (rs: seq<Errno>)
    requires RunOk(l, m, cs)
    ensures |rs| == |cs|
    decreases |cs|
  {
    if cs == [] then []
    else [RefusalAt(l, m.upper, cs[0])] + Refusals(l, Step(l, m, cs[0]).mount, cs[1..])
  }

  predicate WellTyped(t: Tree, op: Op) {
    && (op.Creates() ==> op.path != [])
    && (op.RenameOp? ==> op.to != [] && !DirAt(t, op.path))
  }

  /** The same run on one plain tree, leaving out the refused calls. */
  function PlainRun(t: Tree, cs: seq<Call>, rs: seq<Errno>): (Tree, seq<Errno>)
    requires |rs| == |cs|
    decreases |cs|
  {
    if cs == [] then (t, [])
    else if rs[0] != OK || !WellTyped(t, cs[0].op) then
      var (t', es) := PlainRun(t, cs[1..], rs[1..]);
      (t', [rs[0]] + es)
    else
      var d := PlainStep(t, cs[0].op);
      var (t', es) := PlainRun(d.tree, cs[1..], rs[1..]);
      (t', [d.err] + es)
  }

  /** Over any run, the merged view and every answer are those of one plain tree. */
  lemma {:induction false} RunIsAPlainRun(l: Tree, m: Mount, cs: seq<Call>)
    requires Inv(l, m.upper) && RunOk(l, m, cs)
    ensures Inv(l, Run(l, m, cs).mount.upper)
    ensures (View(l, Run(l, m, cs).mount.upper), Run(l, m, cs).errs) ==
            PlainRun(View(l, m.upper), cs, Refusals(l, m, cs))
    decreases |cs|
  {
    if cs == [] {
    } else {
      var o := Step(l, m, cs[0]);
      OverlayIsAPlainTree(l, m, cs[0]);
      RunIsAPlainRun(l, o.mount, cs[1..]);
      assert Refusals(l, m, cs)[1..] == Refusals(l, o.mount, cs[1..]);
    }
  }

  /** Every call that may copy a file up finds a disk that does so. */
  ghost predicate CopiesWellThroughout(l: Tree, m: Mount, cs: seq<Call>)
    requires RunOk(l, m, cs)
    decreases |cs|
  {
    cs == [] ||
    (&& (cs[0].op.CopiesUp() ==> CopiesWell(m.upper, cs[0].op.path, cs[0].disk))
     && CopiesWellThroughout(l, Step(l, m, cs[0]).mount, cs[1..]))
  }

  lemma NotRefused(l: Tree, u: Tree, c: Call)
    requires Inv(l, u) && (c.op.CopiesUp() ==> CopiesWell(u, c.op.path, c.disk))
    requires forall p :: p in l ==> !l[p].Special? && !l[p].Whiteout?
    ensures RefusalAt(l, u, c) == OK
  {
    hide Inv, View, RefusalAt, CopiesWell, Serve;
    if RefusalAt(l, u, c) != OK {
      RefusalMeans(l, u, c);
      LowerIsBare(l, u, c.op.path);
      InView(l, u, c.op.path);
    }
  }

  /** With a disk that copies and nothing but files, directories and links, nothing is refused. */
  lemma {:induction false} NothingRefused(l: Tree, m: Mount, cs: seq<Call>)
    requires Inv(l, m.upper) && RunOk(l, m, cs) && CopiesWellThroughout(l, m, cs)
    requires forall p :: p in l ==> !l[p].Special? && !l[p].Whiteout?
    ensures forall i :: 0 <= i < |cs| ==> Refusals(l, m, cs)[i] == OK
    decreases |cs|
  {
    hide Inv, View, Step, CallerOk, RefusalAt, CopiesWell;
    if cs == [] {
    } else {
      NotRefused(l, m.upper, cs[0]);
      StepKeepsInv(l, m, cs[0]);
      NothingRefused(l, Step(l, m, cs[0]).mount, cs[1..]);
    }
  }

  lemma StepKeepsInv(l: Tree, m: Mount, c: Call)
    requires Inv(l, m.upper) && CallerOk(View(l, m.upper), c.op)
    ensures Inv(l, Step(l, m, c).mount.upper)
  {
    hide Inv, View, Step, CallerOk;
    StepRefines(l, m, c);
  }

  /** No resurrection: what is served from the lower layer only ever shrinks. */
  lemma {:induction false} NoResurrection(l: Tree, m: Mount, cs: seq<Call>, p: Path)
    requires Inv(l, m.upper) && RunOk(l, m, cs)
    requires !Serve(l, m.upper, p).Lower?
    ensures !Serve(l, Run(l, m, cs).mount.upper, p).Lower?
    decreases |cs|
  {
    if cs == [] {
    } else {
      var o := Step(l, m, cs[0]);
      StepRefines(l, m, cs[0]);
      LayeredErases(Layered(l, m.upper), cs[0].op, CopyOf(l, m.upper, cs[0]));
      SeenIsLayer(l, m.upper, p);
      SeenIsLayer(l, o.mount.upper, p);
      NoResurrection(l, o.mount, cs[1..], p);
    }
  }

  //WHITEOUTS
}
