/**
  The mounted overlay: an upper tree edited in place by sequences of raw system
  calls.  Each method is proved against the closed forms of OverlayEdits and the
  Step of OverlayRuns.
*/
module OverlayMount {
  import opened RawFs
  import opened OverlayView
  import opened OverlayEdits
  import opened OverlayRuns
  import opened DirectoryRenames
  import opened DiskAnswers
  import opened OneDisk

  // ---- two facts about the closed forms ----

  lemma {:induction false} DeadStaysDead(l: Tree, u: Tree, p: Path, i: nat)
    requires i <= |p| && !Live(Resolve(l, u, p[..i]))
    ensures Resolve(l, u, p) == Resolve(l, u, p[..i])
    decreases |p|
  {
    if i < |p| {
      assert Parent(p)[..i] == p[..i];
      DeadStaysDead(l, u, Parent(p), i);
    } else {
      assert p[..i] == p;
    }
  }

  // One turn of the resolver's loop.
  lemma ResolveTurn(l: Tree, u: Tree, p: Path, i: nat)
    requires i < |p| && Live(Resolve(l, u, p[..i]))
    ensures Parent(p[..i + 1]) == p[..i]
    ensures Resolve(l, u, p[..i + 1]) == Local(l, u, p[..i + 1])
    ensures !Live(Local(l, u, p[..i + 1])) ==> Resolve(l, u, p) == Local(l, u, p[..i + 1])
    ensures i + 1 < |p| ==>
              OpaqueAbove(u, p[..i + 2]) ==
              (OpaqueAbove(u, p[..i + 1]) || IsOpaqueDir(u, p[..i + 1]))
  {
    hide Local, IsOpaqueDir;
    assert Parent(p[..i + 1]) == p[..i];
    if !Live(Local(l, u, p[..i + 1])) {
      DeadStaysDead(l, u, p, i + 1);
    }
    if i + 1 < |p| {
      assert Parent(p[..i + 2]) == p[..i + 1];
    }
  }

  lemma CopyOfDir(l: Tree, u: Tree, p: Path, copy: Errno)
    requires LiveDir(Resolve(l, u, p))
    ensures CopyUpStep(l, u, p, copy) == CopyUpStep(l, u, p, OK)
    ensures CopyUpStep(l, u, p, copy).err == OK
  {
  }

  // ---- what readdir lists ----

  /** An upper name that readdir emits. */
  predicate UpperListed(u: Tree, dir: Path, n: Name) {
    dir + [n] in u && !(IsMarker(n) && |n| > 4) && u[dir + [n]] != Whiteout
  }

  /** Of the names in ns, one makes readdir refuse n from the lower layer. */
  predicate WhitedBy(u: Tree, dir: Path, ns: set<Name>, n: Name) {
    || (n != "" && WH + n != OPQ && WH + n in ns)
    || (!(IsMarker(n) && |n| > 4) && n in ns && At(u, dir + [n]) == Some(Whiteout))
  }

  predicate WhitedName(u: Tree, dir: Path, n: Name) {
    WhitedBy(u, dir, Names(u, dir), n)
  }

  predicate Listed(l: Tree, u: Tree, dir: Path, n: Name) {
    || (DirAt(u, dir) && UpperListed(u, dir, n))
    || (DirAt(l, dir) && !IsOpaqueDir(u, dir) && dir + [n] in l
        && !(DirAt(u, dir) && WhitedName(u, dir, n)))
  }

  lemma MarkerFor(m: Name, n: Name)
    ensures WH + n == m <==> IsMarker(m) && n == m[4..]
  {
    if IsMarker(m) && n == m[4..] {
      assert m == m[..4] + m[4..];
    }
  }

  /** What one more name read from the upper directory adds to the refused ones. */
  lemma WhitedByOneMore(u: Tree, dir: Path, ns: set<Name>, m: Name, n: Name)
    requires dir + [m] in u
    ensures WhitedBy(u, dir, ns + {m}, n) <==>
            WhitedBy(u, dir, ns, n) ||
            (if m == OPQ then false
             else if IsMarker(m) && |m| > 4 then n == m[4..]
             else u[dir + [m]].Whiteout? && n == m)
  {
    MarkerFor(m, n);
    assert IsMarker(OPQ);
  }

  // For an ordinary name, both merges ask the same three questions.
  lemma SameQuestions(l: Tree, u: Tree, dir: Path, n: Name)
    requires Inv(l, u) && UserPath(dir + [n])
    ensures WhitedName(u, dir, n) <==> HasSidecar(u, dir + [n]) || At(u, dir + [n]) == Some(Whiteout)
    ensures UpperListed(u, dir, n) ==> !HasSidecar(u, dir + [n])
    ensures dir + [n] in u || dir + [WH + n] in u ==> DirAt(u, dir)
  {
    var p := dir + [n];
    assert Parent(p) == dir && Last(p) == n;
    assert Sidecar(p) == dir + [WH + n];
    SidecarIsNotOpq(p, dir);
    assert p in u ==> EntryOk(u, p) && ParentOk(u, p);
    assert Sidecar(p) in u ==> EntryOk(u, Sidecar(p)) && ParentOk(u, Sidecar(p));
  }

  // A directory's own opaque marker is all there is to know about opaque directories above.
  lemma OwnMarkerSuffices(l: Tree, u: Tree, dir: Path, n: Name)
    requires Inv(l, u) && ServedDir(l, u, dir) && DirAt(l, dir)
    ensures OpaqueAbove(u, dir + [n]) <==> IsOpaqueDir(u, dir)
  {
    assert Parent(dir + [n]) == dir;
    ServeStep(l, u, dir);
    assert OpaqueOk(l, u, dir);
    if Serve(l, u, dir).Lower? {
      LowerIsBare(l, u, dir);
    }
  }

  /** The merge readdir does is the merge resolve does, although it looks at one opaque marker only. */
  lemma ListedIsServed(l: Tree, u: Tree, dir: Path, n: Name)
    requires Inv(l, u) && ServedDir(l, u, dir)
    ensures Listed(l, u, dir, n) <==> Live(Serve(l, u, dir + [n]))
  {
    var p := dir + [n];
    assert Parent(p) == dir && Last(p) == n;
    ServeStep(l, u, p);
    assert p in l ==> PlainName(p) && ParentOk(l, p);
    assert p in u ==> EntryOk(u, p);
    if UserPath(p) {
      SameQuestions(l, u, dir, n);
      if DirAt(l, dir) {
        OwnMarkerSuffices(l, u, dir, n);
      }
    }
  }

  predicate Distinct(ns: seq<Name>) {
    forall i, j :: 0 <= i < j < |ns| ==> ns[i] != ns[j]
  }

  class Overlay {
    const lower: Tree
    var upper: Tree
    var canMknodWhiteout: bool

    // The disk both layers lie on, at lowerBase and base: as it was mounted, and as it is.
    ghost const start: Tree
    ghost const lowerBase: Path
    ghost const base: Path
    ghost var disk: Tree
    ghost var written: set<Path>   // the paths of upper that system calls have written to

    ghost predicate Valid()
      reads this`upper
    {
      Inv(lower, upper)
    }

    /** The merged tree the sandbox sees. */
    ghost function Merged(): Tree
      reads this`upper
    {
      View(lower, upper)
    }

    ghost function State(): Mount
      reads this`upper, this`canMknodWhiteout
    {
      Mount(upper, canMknodWhiteout)
    }

    /** What the check at mount time guarantees about the two places. */
    ghost predicate Mounted() {
      Apart(lowerBase, base) && lower == Layer(start, lowerBase)
    }

    /** The disk differs from the one that was mounted by upper, at upper's place, and by nothing else. */
    ghost predicate Placed()
      reads this`upper, this`disk
    {
      disk == PutLayer(start, base, upper)
    }

    /** Placed; and since written was w, only paths of operations on p or q have been written to. */
    ghost predicate Traced(w: set<Path>, p: Path, q: Path)
      reads this`upper, this`disk, this`written
    {
      Placed() && forall x {:trigger x in written} :: x in written ==> x in w || Writes(p, x) || Writes(q, x)
    }

    constructor (disk: Tree, lowerBase: Path, base: Path)
      requires Components(lowerBase) && Components(base) && lowerBase != [] && base != []
      requires !Nested(Canon(lowerBase), Canon(base))
      requires Inv(Layer(disk, lowerBase), Layer(disk, base))
      ensures Valid() && Mounted() && Placed() && written == {}
      ensures start == this.disk == disk && this.lowerBase == lowerBase && this.base == base
      ensures State() == Mount(Layer(disk, base), true)
    {
      NestingCheckExact(lowerBase, base);
      PutLayerBack(disk, base);
      lower, upper, canMknodWhiteout := Layer(disk, lowerBase), Layer(disk, base), true;
      start, this.disk, this.lowerBase, this.base, written := disk, disk, lowerBase, base, {};
    }

    /** On the disk, lower still is what it was, and so is everything else outside upper. */
    lemma LowerStays(x: Path)
      requires Mounted() && Placed()
      ensures Layer(disk, lowerBase) == lower && Layer(disk, base) == upper
      ensures !(base <= x) ==> At(disk, x) == At(start, x)
    {
      LayersAreApart(start, lowerBase, base, upper);
      PutLayerAt(start, base, upper, x);
    }

    /** So an operation is the step on the disk that reads and writes the disk itself. */
    lemma StepOnDisk(before: Tree, m: Mount, c: Call)
      requires Mounted() && Placed() && before == PutLayer(start, base, m.upper)
      requires CallerOk(View(lower, m.upper), c.op) && State() == Step(lower, m, c).mount
      ensures Layer(before, lowerBase) == lower && Layer(before, base) == m.upper
      ensures DiskStep(lowerBase, base, DiskMount(before, m.canMknod), c) == DiskMount(disk, canMknodWhiteout)
    {
      LayersAreApart(start, lowerBase, base, m.upper);
      PutLayerTwice(start, base, m.upper, upper);
    }

    // ---- system calls that write ----

    lemma CallOnDisk(c: RawCall)
      requires Placed() && c.Sensible()
      ensures c.From(base).Sensible()
      ensures Apply(disk, c.From(base)) ==
              Done(PutLayer(start, base, Apply(upper, c).tree), Apply(upper, c).err)
    {
      hide PutLayer, Apply, Layer;
      RawCallIsLocal(disk, base, c);
      LayerOfPut(start, base, upper);
      PutLayerTwice(start, base, upper, Apply(upper, c).tree);
    }

    /** The only place where the disk changes: one call, its absolute path that of upper and the call's own. */
    method Sys(c: RawCall) returns (r: Errno)
      requires Placed() && c.Sensible()
      modifies this`upper, this`disk, this`written
      ensures Placed() && c.From(base).Sensible()
      ensures Done(upper, r) == Apply(old(upper), c) && Done(disk, r) == Apply(old(disk), c.From(base))
      ensures written == old(written) + (if c.RenameCall? then {c.at, c.to} else {c.at})
    {
      hide PutLayer, Apply;
      CallOnDisk(c);
      var d := Apply(upper, c);
      disk := Apply(disk, c.From(base)).tree;
      written := written + (if c.RenameCall? then {c.at, c.to} else {c.at});
      upper := d.tree;
      return d.err;
    }

    method SysMkdir(p: Path, mode: Mode) returns (r: Errno)
      requires Placed() && p != []
      modifies this`upper, this`disk, this`written
      ensures Placed() && Done(upper, r) == Mkdir(old(upper), p, mode) && written == old(written) + {p}
    {
      r := Sys(MkdirCall(p, mode));
    }

    method SysSymlink(target: string, p: Path) returns (r: Errno)
      requires Placed() && p != []
      modifies this`upper, this`disk, this`written
      ensures Placed() && Done(upper, r) == Symlink(old(upper), p, target) && written == old(written) + {p}
    {
      r := Sys(SymlinkCall(p, target));
    }

    method SysMknod(p: Path, denied: bool) returns (r: Errno)
      requires Placed() && p != []
      modifies this`upper, this`disk, this`written
      ensures Placed() && Done(upper, r) == MknodWhiteout(old(upper), p, denied) && written == old(written) + {p}
    {
      r := Sys(MknodCall(p, denied));
    }

    method SysOpenExcl(p: Path, mode: Mode) returns (r: Errno)
      requires Placed() && p != []
      modifies this`upper, this`disk, this`written
      ensures Placed() && Done(upper, r) == OpenExcl(old(upper), p, mode) && written == old(written) + {p}
    {
      r := Sys(OpenExclCall(p, mode));
    }

    method SysOpenCreate(p: Path, mode: Mode, trunc: bool) returns (r: Errno)
      requires Placed() && p != []
      modifies this`upper, this`disk, this`written
      ensures Placed() && Done(upper, r) == OpenCreate(old(upper), p, mode, trunc) && written == old(written) + {p}
    {
      r := Sys(OpenCreateCall(p, mode, trunc));
    }

    method SysUnlink(p: Path) returns (r: Errno)
      requires Placed()
      modifies this`upper, this`disk, this`written
      ensures Placed() && Done(upper, r) == Unlink(old(upper), p) && written == old(written) + {p}
    {
      r := Sys(UnlinkCall(p));
    }

    method SysRmdir(p: Path) returns (r: Errno)
      requires Placed()
      modifies this`upper, this`disk, this`written
      ensures Placed() && Done(upper, r) == Rmdir(old(upper), p) && written == old(written) + {p}
    {
      r := Sys(RmdirCall(p));
    }

    method SysRename(p: Path, q: Path) returns (r: Errno)
      requires Placed() && q != []
      modifies this`upper, this`disk, this`written
      ensures Placed() && Done(upper, r) == Rename(old(upper), p, q) && written == old(written) + {p, q}
    {
      r := Sys(RenameCall(p, q));
    }

    method SysChmod(p: Path, mode: Mode) returns (r: Errno)
      requires Placed()
      modifies this`upper, this`disk, this`written
      ensures Placed() && Done(upper, r) == Chmod(old(upper), p, mode) && written == old(written) + {p}
    {
      r := Sys(ChmodCall(p, mode));
    }

    method SysTruncate(p: Path, size: nat) returns (r: Errno)
      requires Placed()
      modifies this`upper, this`disk, this`written
      ensures Placed() && Done(upper, r) == Truncate(old(upper), p, size) && written == old(written) + {p}
    {
      r := Sys(TruncateCall(p, size));
    }

    method SysOpenWrite(p: Path, trunc: bool, offset: nat, buf: Bytes) returns (r: Errno)
      requires Placed()
      modifies this`upper, this`disk, this`written
      ensures Placed() && Done(upper, r) == OpenAndWrite(old(upper), p, trunc, offset, buf) && written == old(written) + {p}
    {
      r := Sys(OpenWriteCall(p, trunc, offset, buf));
    }

    method SysAppend(p: Path, buf: Bytes) returns (r: Errno)
      requires Placed()
      modifies this`upper, this`disk, this`written
      ensures Placed() && Done(upper, r) == Append(old(upper), p, buf) && written == old(written) + {p}
    {
      r := Sys(AppendCall(p, buf));
    }

    // ---- reading ----

    method ResolvePath(path: Path) returns (w: Where)
      requires [] in upper || [] in lower
      ensures w == Resolve(lower, upper, path)
    {
      if path == [] {
        if path in upper {
          return Upper(upper[path]);
        }
        if path in lower {
          return Lower(lower[path]);
        }
        return Absent;
      }
      var opaqueAbove := false;
      var i := 0;
      while true
        invariant 0 <= i < |path|
        invariant Live(Resolve(lower, upper, path[..i]))
        invariant opaqueAbove == OpaqueAbove(upper, path[..i + 1])
        decreases |path| - i
      {
        var full := path[..i + 1];
        ResolveTurn(lower, upper, path, i);
        if At(upper, Sidecar(full)).Some? && upper[Sidecar(full)].Reg? {
          return Whited;
        }
        var inUpper := full in upper;
        if inUpper && upper[full].Whiteout? {
          return Whited;
        }
        var inLower := !opaqueAbove && full in lower;
        if inUpper {
          if upper[full].Dir? && Opq(full) in upper {
            opaqueAbove := true;
          }
          if i + 1 == |path| {
            assert full == path;
            return Upper(upper[full]);
          }
        } else if inLower {
          if i + 1 == |path| {
            assert full == path;
            return Lower(lower[full]);
          }
        } else {
          return Absent;
        }
        i := i + 1;
      }
    }

    /** What stat answers is the merged tree. */
    method OpGetattr(path: Path) returns (r: Errno, node: Node)
      requires Valid() && (path == [] || LookedUp(Merged(), path))
      ensures r == if path in Merged() then OK else ENOENT
      ensures r == OK ==> node == Merged()[path]
    {
      LookedUpResolves(lower, upper, path);
      InView(lower, upper, path);
      SeenStep(lower, upper, []);
      var w := ResolvePath(path);
      if !Live(w) {
        return ENOENT, Whiteout;
      }
      return OK, w.node;
    }

    /**
      The merged listing, without "." and "..", in whatever order the two directories
      are read: each served name once, and no other.
    */
    method OpReaddir(path: Path) returns (r: Errno, out: seq<Name>)
      requires Valid() && (path == [] || LookedUp(Merged(), path))
      ensures r == if path !in Merged() then ENOENT
                   else if !Merged()[path].Dir? then ENOTDIR
                   else OK
      ensures r != OK ==> out == []
      ensures Distinct(out)
      ensures r == OK ==> forall n :: n in out <==> n in Names(Merged(), path)
    {
      out := [];
      LookedUpResolves(lower, upper, path);
      InView(lower, upper, path);
      SeenStep(lower, upper, []);
      var w := ResolvePath(path);
      if !Live(w) {
        return ENOENT, out;
      }
      if !w.node.Dir? {
        return ENOTDIR, out;
      }
      var ownOpaque, haveUpper := false, path in upper && upper[path].Dir?;
      var whited: seq<Name> := [];
      if haveUpper {
        ownOpaque := Opq(path) in upper;
        out, whited := ReadUpper(path);
      }
      if !ownOpaque && path in lower && lower[path].Dir? {
        out := ReadLower(path, out, whited);
      }
      forall n ensures n in out <==> n in Names(Merged(), path) {
        ListedIsServed(lower, upper, path, n);
        InView(lower, upper, path + [n]);
      }
      return OK, out;
    }

    method ReadUpper(path: Path) returns (out: seq<Name>, whited: seq<Name>)
      ensures Distinct(out)
      ensures forall n :: n in out <==> UpperListed(upper, path, n)
      ensures forall n :: n in whited <==> WhitedName(upper, path, n)
    {
      out, whited := [], [];
      var all := Names(upper, path);
      var rest := all;
      while rest != {}
        invariant rest <= all && Distinct(out)
        invariant forall n :: n in out <==> n in all - rest && UpperListed(upper, path, n)
        invariant forall n :: n in whited <==> WhitedBy(upper, path, all - rest, n)
        decreases rest
      {
        var nm :| nm in rest;
        forall n {
          WhitedByOneMore(upper, path, all - rest, nm, n);
        }
        assert all - (rest - {nm}) == all - rest + {nm};
        rest := rest - {nm};
        if nm == OPQ {
          assert IsMarker(OPQ);
          continue;
        }
        if |nm| > 4 && nm[..4] == WH {
          whited := whited + [nm[4..]];
          continue;
        }
        if upper[path + [nm]].Whiteout? {
          whited := whited + [nm];
          continue;
        }
        out := out + [nm];
      }
      assert all - rest == all;
    }

    method ReadLower(path: Path, seen: seq<Name>, whited: seq<Name>) returns (out: seq<Name>)
      requires Distinct(seen)
      ensures Distinct(out)
      ensures forall n :: n in out <==> n in seen || (path + [n] in lower && n !in whited)
    {
      out := seen;
      var all := Names(lower, path);
      var rest := all;
      while rest != {}
        invariant rest <= all && Distinct(out)
        invariant forall n :: n in out <==> n in seen || (n in all - rest && n !in whited)
        decreases rest
      {
        var nm :| nm in rest;
        rest := rest - {nm};
        if nm in whited || nm in seen {
          continue;
        }
        out := out + [nm];
      }
    }

    // ---- preparing the upper layer ----

    method EnsureUpperParents(path: Path) returns (r: Errno)
      requires TreeOk(upper) && Placed()
      modifies this`upper, this`disk, this`written
      ensures Traced(old(written), path, path)
      ensures r == OK || r == ENOTDIR
      ensures r == OK ==> upper == WithDirs(lower, old(upper), Above(path))
      ensures r == ENOTDIR ==> upper == old(upper)
      ensures r == ENOTDIR <==>
              exists i :: 0 < i < |path| && path[..i] in old(upper) && !old(upper)[path[..i]].Dir?
    {
      hide PutLayer, Writes;
      WritesItself(path);
      ghost var u := upper;
      var i := 0;
      while i + 1 < |path|
        invariant 0 <= i <= |path| && (i < |path| || path == [])
        invariant upper == WithDirs(lower, u, path[..i]) && DirAt(upper, path[..i])
        invariant forall j :: 0 < j <= i && path[..j] in u ==> u[path[..j]].Dir?
        invariant Traced(old(written), path, path)
      {
        var up := path[..i + 1];
        assert Parent(up) == path[..i];
        WithDirsKeys(lower, u, path[..i], up);
        if up in upper {
          if !upper[up].Dir? {
            ParentsOfStored(u, up);
            return ENOTDIR;
          }
          ParentsOfStored(u, up);
        } else {
          var mode := if up in lower && lower[up].Dir? then lower[up].mode else DIR755.mode;
          r := SysMkdir(up, mode);
          if r != OK {
            return;
          }
        }
        i := i + 1;
      }
      assert path[..i] == Above(path);
      return OK;
    }

    lemma ParentsOfStored(u: Tree, q: Path)
      requires TreeOk(u) && q != [] && q in u
      ensures WithDirs(lower, u, Parent(q)) == u
    {
      assert ParentOk(u, q);
    }

    method ClearWhiteout(path: Path) returns (r: Errno)
      requires path != [] && Placed()
      modifies this`upper, this`disk, this`written
      ensures Traced(old(written), path, path)
      ensures r == if DirAt(old(upper), Sidecar(path)) then EISDIR else OK
      ensures r == OK ==> upper == Bared(old(upper), path)
    {
      if At(upper, path) == Some(Whiteout) {
        r := SysUnlink(path);
        if r != OK && r != ENOENT {
          return;
        }
      }
      if Sidecar(path) in upper {
        r := SysUnlink(Sidecar(path));
        if r != OK && r != ENOENT {
          return;
        }
      }
      return OK;
    }

    /** Tries the device form first, and for good falls back to sidecars once mknod is denied. */
    method PlaceWhiteout(path: Path, deny: bool) returns (r: Errno)
      requires UserPath(path) && DirAt(upper, Parent(path)) && Placed()
      modifies this`upper, this`disk, this`written, this`canMknodWhiteout
      ensures Traced(old(written), path, path)
      ensures var dev, bare := old(canMknodWhiteout) && !deny, old(upper) - {path};
              if DirAt(old(upper), path) && Names(old(upper), path) != {} then
                r == ENOTEMPTY && State() == old(State())
              else if dev then
                r == OK && State() == Mount(bare[path := Whiteout], true)
              else
                && (r == OK <==> !DirAt(bare, Sidecar(path)))
                && !canMknodWhiteout
                && upper == if Sidecar(path) !in bare then WhitedOut(bare, path, false)
                            else if bare[Sidecar(path)].Reg? then
                              bare[Sidecar(path) := Reg(bare[Sidecar(path)].mode, [])]
                            else bare
    {
      hide PutLayer, Writes;
      WritesItself(path);
      WritesMarks(path);
      if path in upper {
        r := RemoveLeaf(path);
        if r != OK {
          return;
        }
      }
      assert upper == old(upper) - {path};
      if canMknodWhiteout {
        r := SysMknod(path, deny);
        if r == OK {
          return;
        }
        if r != EPERM {
          return;
        }
        canMknodWhiteout := false;
      }
      r := SysOpenCreate(Sidecar(path), 0x180, true);
    }

    // What place_whiteout finds at path goes, unless it is a directory that is not empty.
    method RemoveLeaf(path: Path) returns (r: Errno)
      requires path in upper && Placed()
      modifies this`upper, this`disk, this`written
      ensures Traced(old(written), path, path)
      ensures r == if upper != old(upper) then OK else ENOTEMPTY
      ensures r == ENOTEMPTY <==> DirAt(old(upper), path) && Names(old(upper), path) != {}
      ensures r == OK ==> upper == old(upper) - {path}
    {
      if upper[path].Dir? {
        r := SysRmdir(path);
      } else {
        r := SysUnlink(path);
      }
    }

    // ---- copy-up ----

    /** Opens the first temporary name for dst that is not taken. */
    method OpenTemp(dst: Path, mode: Mode, pid: nat) returns (r: Errno, tmp: Path)
      requires dst != [] && Placed()
      modifies this`upper, this`disk, this`written
      ensures Traced(old(written), dst, dst)
      ensures r == OK ==> tmp != [] && tmp != dst && Parent(tmp) == Parent(dst)
      ensures r == OK ==> tmp !in old(upper) && DirAt(old(upper), Parent(dst))
      ensures r == OK ==> Writes(dst, tmp) && exists k: nat :: k < ATTEMPTS && tmp == TempPath(dst, pid, k)
      ensures upper == if r == OK then old(upper)[tmp := Reg(mode, [])] else old(upper)
      ensures DirAt(old(upper), Parent(dst)) ==>
                r == if TempFree(old(upper), dst, pid) then OK else EEXIST
      ensures r == OK || r == EEXIST || !DirAt(old(upper), Parent(dst))
    {
      var k := 0;
      while k < ATTEMPTS
        invariant 0 <= k <= ATTEMPTS && upper == old(upper) && Traced(old(written), dst, dst)
        invariant forall j: nat :: j < k ==> TempPath(dst, pid, j) in upper
      {
        tmp := TempPath(dst, pid, k);
        r := SysOpenExcl(tmp, mode);
        if r != EEXIST {
          return;
        }
        k := k + 1;
      }
      return EEXIST, dst;
    }

    /** Streams data into the temporary file, which an error removes. */
    method Transfer(tmp: Path, mode: Mode, data: Bytes, script: seq<Io>) returns (r: Errno)
      requires At(upper, tmp) == Some(Reg(mode, [])) && Placed()
      modifies this`upper, this`disk, this`written
      ensures Placed() && written <= old(written) + {tmp}
      ensures upper == if r == OK then old(upper)[tmp := Reg(mode, data)] else old(upper) - {tmp}
      ensures r == Streamed(|data|, 0, script)
    {
      hide Streamed, PutLayer;
      var io, done := script, 0;
      ghost var u := upper;
      assert u == u[tmp := Reg(mode, data[..0])];
      while true
        invariant 0 <= done <= |data| && Placed() && written <= old(written) + {tmp}
        invariant upper == u[tmp := Reg(mode, data[..done])]
        invariant Streamed(|data| - done, 0, io) == Streamed(|data|, 0, script)
        decreases |io|, |data| - done
      {
        StreamedStep(|data| - done, 0, io);
        NothingFails();
        var want := Min(BUF, |data| - done);
        var n := want;
        if io != [] {
          var next := io[0];
          io := io[1..];
          match next
          case Short(m) => n := if want == 0 then 0 else Min(m + 1, want);
          case Interrupted => continue;
          case Fail(e) =>
            r := SysUnlink(tmp);
            return e;
        }
        if n == 0 {
          break;
        }
        r, io := WriteAll(tmp, mode, data[..done], |data| - done - n, data[done..done + n], io);
        if r != OK {
          return;
        }
        assert data[..done] + data[done..done + n] == data[..done + n];
        done := done + n;
      }
      assert data[..done] == data;
      return OK;
    }

    /** The inner loop: one buffer, written out. */
    method WriteAll(tmp: Path, mode: Mode, ghost before: Bytes, ghost unread: nat, buf: Bytes, script: seq<Io>)
      returns (r: Errno, io: seq<Io>)
      requires At(upper, tmp) == Some(Reg(mode, before)) && Placed()
      modifies this`upper, this`disk, this`written
      ensures Placed() && written <= old(written) + {tmp}
      ensures |io| <= |script|
      ensures upper ==
              if r == OK then old(upper)[tmp := Reg(mode, before + buf)] else old(upper) - {tmp}
      ensures Streamed(unread, |buf|, script) == if r == OK then Streamed(unread, 0, io) else r
    {
      hide Streamed, PutLayer;
      io := script;
      ghost var u := upper;
      var p := 0;
      assert before + buf[..0] == before;
      while p < |buf|
        invariant 0 <= p <= |buf| && |io| <= |script| && Placed() && written <= old(written) + {tmp}
        invariant upper == u[tmp := Reg(mode, before + buf[..p])]
        invariant Streamed(unread, |buf| - p, io) == Streamed(unread, |buf|, script)
        decreases |io|, |buf| - p
      {
        StreamedStep(unread, |buf| - p, io);
        NothingFails();
        var w := |buf| - p;
        if io != [] {
          var next := io[0];
          io := io[1..];
          match next
          case Short(m) => w := Min(m, w);
          case Interrupted => continue;
          case Fail(e) =>
            r := SysUnlink(tmp);
            return e, io;
        }
        assert before + buf[..p] + buf[p..p + w] == before + buf[..p + w];
        r := SysAppend(tmp, buf[p..p + w]);
        p := p + w;
      }
      assert buf[..p] == buf;
      return OK, io;
    }

    /**
      Copies a regular file up through a temporary name.  Whatever the disk answers,
      the copy either takes the whole of src or leaves no trace at all; and it fails
      only as CopyAnswer says.
    */
    method CopyRegular(src: Path, dst: Path, answers: Disk) returns (r: Errno)
      requires src in lower && lower[src].Reg? && dst != [] && Placed()
      modifies this`upper, this`disk, this`written
      ensures Traced(old(written), dst, dst)
      ensures upper == if r == OK then old(upper)[dst := lower[src]] else old(upper)
      ensures DirAt(old(upper), Parent(dst)) && !DirAt(old(upper), dst) ==>
                r == CopyAnswer(old(upper), dst, |lower[src].data|, answers)
    {
      hide PutLayer, RenameTree, Streamed, TempSuffix, TempFree, Writes;
      WritesItself(dst);
      if answers.open != OK {
        return answers.open;
      }
      var tmp: Path;
      r, tmp := OpenTemp(dst, lower[src].mode, answers.pid);
      if r != OK {
        return;
      }
      r := Transfer(tmp, lower[src].mode, lower[src].data, answers.io);
      if r != OK {
        return;
      }
      r := answers.rename;
      if r == OK {
        r := SysRename(tmp, dst);
      }
      if r != OK {
        var e := SysUnlink(tmp);
      }
    }

    method CopyUp(path: Path, answers: Disk) returns (r: Errno)
      requires Valid() && (path == [] || LookedUp(Merged(), path)) && Placed()
      modifies this`upper, this`disk, this`written
      ensures Traced(old(written), path, path)
      ensures Done(upper, r) == CopyUpStep(lower, old(upper), path, CopyOfPath(lower, old(upper), path, answers))
      ensures Valid() && Merged() == old(Merged())
      ensures r == OK ==> Serve(lower, upper, path).Upper?
    {
      ghost var u := upper;
      SeenStep(lower, u, []);
      var w := ResolvePath(path);
      LookedUpResolves(lower, u, path);
      WritesItself(path);
      if w.Upper? {
        r := OK;
      } else if !Live(w) {
        r := ENOENT;
      } else {
        r := CopyFromLower(path, w.node, answers);
      }
      CopyUpIsInvisible(lower, u, path, CopyOfPath(lower, u, path, answers));
    }

    /** copy_up of something that is served from the lower layer. */
    method CopyFromLower(path: Path, node: Node, answers: Disk) returns (r: Errno)
      requires Valid() && (path == [] || LookedUp(Merged(), path)) && Placed()
      requires Serve(lower, upper, path) == Lower(node) == Resolve(lower, upper, path)
      modifies this`upper, this`disk, this`written
      ensures Traced(old(written), path, path)
      ensures Done(upper, r) == CopyUpStep(lower, old(upper), path, CopyOfPath(lower, old(upper), path, answers))
    {
      hide PutLayer, Writes, CopyAnswer, Serve, Resolve;
      InvIsTree(upper);
      ghost var u := upper;
      ParentsExist(path);
      LowerIsBare(lower, upper, path);
      r := EnsureUpperParents(path);
      if r == OK {
        SameAnswerWithParents(u, path, |if lower[path].Reg? then lower[path].data else []|, answers);
        r := CopyLeaf(path, answers);
      }
    }

    // Making the parents takes no temporary name.
    lemma SameAnswerWithParents(u: Tree, path: Path, size: nat, answers: Disk)
      requires path != []
      ensures CopyAnswer(WithDirs(lower, u, Parent(path)), path, size, answers) ==
              CopyAnswer(u, path, size, answers)
    {
      forall k: nat ensures TempPath(path, answers.pid, k) in WithDirs(lower, u, Parent(path)) <==>
                            TempPath(path, answers.pid, k) in u
      {
        WithDirsKeys(lower, u, Parent(path), TempPath(path, answers.pid, k));
      }
    }

    /** The part of copy_up after the parents exist. */
    method CopyLeaf(path: Path, answers: Disk) returns (r: Errno)
      requires path != [] && path in lower && path !in upper && DirAt(upper, Parent(path)) && Placed()
      modifies this`upper, this`disk, this`written
      ensures Traced(old(written), path, path)
      ensures r == match lower[path]
                   case Reg(_, data) => CopyAnswer(old(upper), path, |data|, answers)
                   case Special(_) => EPERM
                   case Whiteout => EPERM
                   case _ => OK
      ensures upper == if r == OK then old(upper)[path := lower[path]] else old(upper)
    {
      var node := lower[path];
      match node
      case Reg(_, _) =>
        r := CopyRegular(path, path, answers);
      case Link(target) =>
        r := SysSymlink(target, path);
      case Dir(mode) =>
        r := SysMkdir(path, mode);
        if r == EEXIST {
          r := OK;
        }
      case _ =>
        r := EPERM;
    }

    // What a looked-up path guarantees about the parents the code goes on to create.
    lemma ParentsExist(path: Path)
      requires Valid() && (path == [] || LookedUp(Merged(), path))
      ensures forall i :: 0 < i < |path| && path[..i] in upper ==> upper[path[..i]].Dir?
      ensures DirAt(WithDirs(lower, upper, Above(path)), Above(path))
      ensures path != [] ==> path !in upper ==> path !in WithDirs(lower, upper, Above(path))
      ensures Inv(lower, WithDirs(lower, upper, Above(path)))
    {
      InView(lower, upper, Above(path));
      if path != [] {
        forall i | 0 < i < |path| && path[..i] in upper ensures upper[path[..i]].Dir? {
          ServedAbove(path, i);
        }
        WithDirsKeys(lower, upper, Above(path), path);
      }
      WithDirsLayers(lower, upper, Above(path));
    }

    lemma {:induction false} ServedAbove(path: Path, i: nat)
      requires Valid() && 0 < i < |path| && ServedDir(lower, upper, Parent(path))
      requires path[..i] in upper
      ensures upper[path[..i]].Dir?
      decreases |path|
    {
      var q := Parent(path);
      ServeStep(lower, upper, q);
      if i == |q| {
        assert path[..i] == q;
      } else {
        assert q[..i] == path[..i];
        ServedAbove(q, i);
      }
    }

    // ---- operations that create an entry ----

    /** Steps shared by the creating calls: parents, then no whiteout left at path. */
    method Prepare(path: Path) returns (r: Errno)
      requires Valid() && LookedUp(Merged(), path) && !ServedDir(lower, upper, path) && Placed()
      modifies this`upper, this`disk, this`written
      ensures Traced(old(written), path, path)
      ensures r == OK
      ensures upper == Bared(WithDirs(lower, old(upper), Parent(path)), path)
      ensures DirAt(upper, Parent(path)) && !DirAt(upper, path)
      ensures path in upper ==> Serve(lower, old(upper), path).Upper?
      ensures Opq(path) !in upper
    {
      ghost var u := upper;
      ParentsExist(path);
      InView(lower, u, Parent(path));
      InView(lower, u, path);
      r := EnsureUpperParents(path);
      if r != OK {
        return;
      }
      PreparedEntry(u, path);
      r := ClearWhiteout(path);
    }

    lemma PreparedEntry(u: Tree, path: Path)
      requires Inv(lower, u) && LookedUp(View(lower, u), path) && !ServedDir(lower, u, path)
      ensures var v := WithDirs(lower, u, Parent(path));
              && !DirAt(v, path) && !DirAt(v, Sidecar(path)) && Opq(path) !in v
              && (path in Bared(v, path) ==> Serve(lower, u, path).Upper?)
    {
      var v := WithDirs(lower, u, Parent(path));
      InView(lower, u, Parent(path));
      WithDirsLayers(lower, u, Parent(path));
      SeenIsLayer(lower, u, path);
      SeenIsLayer(lower, v, path);
      UnservedIsNoDir(lower, v, path);
      WithDirsKeys(lower, u, Parent(path), path);
      ServeStep(lower, u, path);
      assert Sidecar(path) in v ==> EntryOk(v, Sidecar(path));
      assert path in u ==> EntryOk(u, path);
    }

    // Nothing is copied, so nothing is refused.
    lemma CreatesAsPlain(m: Mount, c: Call)
      requires Inv(lower, m.upper) && CallerOk(View(lower, m.upper), c.op) && c.op.Creates()
      ensures var o := Step(lower, m, c);
              Inv(lower, o.mount.upper) && Done(View(lower, o.mount.upper), o.err) == PlainStep(View(lower, m.upper), c.op)
    {
      hide Inv, View, Step, PlainStep, CallerOk;
      OverlayIsAPlainTree(lower, m, c);
    }

    method OpMkdir(path: Path, mode: nat) returns (r: Errno)
      requires Valid() && CallerOk(Merged(), MkdirOp(path, mode)) && Placed()
      modifies this`upper, this`disk, this`written
      ensures Traced(old(written), path, path)
      ensures Outcome(State(), r) == Step(lower, old(State()), Call(MkdirOp(path, mode), false, NO_COPY))
      ensures Valid() && Done(Merged(), r) == Mkdir(old(Merged()), path, mode % PERMS)
    {
      hide PutLayer, Writes, View, Serve, RefusalAt, Inv;
      WritesItself(path);
      CreatesAsPlain(State(), Call(MkdirOp(path, mode), false, NO_COPY));
      InView(lower, upper, path);
      r := Prepare(path);
      if r != OK {
        return;
      }
      r := SysMkdir(path, mode % PERMS);
      if r != OK {
        return;
      }
      if path in lower && lower[path].Dir? {
        var e := SysOpenCreate(Opq(path), 0x180, true);
      }
      return OK;
    }

    method OpCreate(path: Path, mode: nat) returns (r: Errno)
      requires Valid() && CallerOk(Merged(), CreateOp(path, mode)) && Placed()
      modifies this`upper, this`disk, this`written
      ensures Traced(old(written), path, path)
      ensures Outcome(State(), r) == Step(lower, old(State()), Call(CreateOp(path, mode), false, NO_COPY))
      ensures Valid() && Done(Merged(), r) == OpenCreate(old(Merged()), path, mode % PERMS, false)
    {
      hide PutLayer, Writes, View, Serve, RefusalAt, Inv;
      WritesItself(path);
      CreatesAsPlain(State(), Call(CreateOp(path, mode), false, NO_COPY));
      InView(lower, upper, path);
      r := Prepare(path);
      if r != OK {
        return;
      }
      r := SysOpenCreate(path, mode % PERMS, false);
    }

    method OpSymlink(target: string, path: Path) returns (r: Errno)
      requires Valid() && CallerOk(Merged(), SymlinkOp(path, target)) && Placed()
      modifies this`upper, this`disk, this`written
      ensures Traced(old(written), path, path)
      ensures Outcome(State(), r) == Step(lower, old(State()), Call(SymlinkOp(path, target), false, NO_COPY))
      ensures Valid() && Done(Merged(), r) == Symlink(old(Merged()), path, target)
    {
      hide PutLayer, Writes, View, Serve, RefusalAt, Inv;
      WritesItself(path);
      CreatesAsPlain(State(), Call(SymlinkOp(path, target), false, NO_COPY));
      InView(lower, upper, path);
      r := Prepare(path);
      if r != OK {
        return;
      }
      r := SysSymlink(target, path);
    }

    // ---- operations that remove an entry ----

    // Once path is cut from u, its parents can be made and a whiteout placed.
    lemma CutReady(u: Tree, path: Path)
      requires Inv(lower, u) && LookedUp(View(lower, u), path) && Live(Serve(lower, u, path))
      ensures var c := Cut(u, path);
              var v := WithDirs(lower, c, Parent(path));
              && TreeOk(c)
              && (forall i :: 0 < i < |path| && path[..i] in c ==> c[path[..i]].Dir?)
              && DirAt(v, Parent(path)) && path !in v && Sidecar(path) !in v
    {
      InView(lower, u, Parent(path));
      ServeStep(lower, u, path);
      CutKeepsTree(lower, u, path);
      DirsCommuteWithCut(lower, u, path, Parent(path));
      WithDirsLayers(lower, u, Parent(path));
      WithDirsKeys(lower, u, Parent(path), Sidecar(path));
      assert path in u ==> EntryOk(u, path);
      if Serve(lower, u, path).Lower? {
        LowerIsBare(lower, u, path);
      }
      forall i | 0 < i < |path| && path[..i] in u ensures u[path[..i]].Dir? {
        var v := WithDirs(lower, u, Parent(path));
        WithDirsKeys(lower, u, Parent(path), path[..i]);
        assert path[..i] <= Parent(path);
        NoOrphans(v, path[..i], Parent(path));
      }
    }

    // The tail shared by unlink and rmdir: hide a lower entry of this name.
    method HideLower(path: Path, deny: bool, ghost u: Tree) returns (r: Errno)
      requires Inv(lower, u) && LookedUp(View(lower, u), path) && Live(Serve(lower, u, path))
      requires upper == Cut(u, path) && Placed()
      modifies this`upper, this`disk, this`written, this`canMknodWhiteout
      ensures Traced(old(written), path, path)
      ensures Outcome(State(), r) == Dropped(lower, old(State()), u, path, deny)
    {
      CutReady(u, path);
      if path in lower {
        r := EnsureUpperParents(path);
        if r != OK {
          return;
        }
        assert upper - {path} == upper;
        r := PlaceWhiteout(path, deny);
        return;
      }
      return OK;
    }

    method OpUnlink(path: Path, deny: bool) returns (r: Errno)
      requires Valid() && CallerOk(Merged(), UnlinkOp(path)) && Placed()
      modifies this`upper, this`disk, this`written, this`canMknodWhiteout
      ensures Traced(old(written), path, path)
      ensures Outcome(State(), r) == Step(lower, old(State()), Call(UnlinkOp(path), deny, NO_COPY))
      ensures Valid() && Done(Merged(), r) == Unlink(old(Merged()), path)
    {
      hide PutLayer, Writes, Step, Drop, Serve, Layered, EntryOk, OpaqueOk;
      WritesItself(path);
      ghost var u := upper;
      DropAnswer(lower, State(), Call(UnlinkOp(path), deny, NO_COPY));
      LookedUpResolves(lower, u, path);
      InView(lower, u, path);
      var w := ResolvePath(path);
      if !Live(w) {
        return ENOENT;
      }
      if w.node.Dir? {
        return EISDIR;
      }
      NoDirCut(u, path);
      if path in upper {
        r := SysUnlink(path);
        if r != OK {
          return;
        }
      }
      r := HideLower(path, deny, u);
    }

    lemma NoDirCut(u: Tree, path: Path)
      requires Inv(lower, u) && path != [] && Live(Serve(lower, u, path)) && !ServedDir(lower, u, path)
      ensures !DirAt(u, path) && Cut(u, path) == u - {path}
    {
      ServeStep(lower, u, path);
      LeafCut(u, path);
    }

    lemma LeafCut(u: Tree, path: Path)
      requires TreeOk(u) && !DirAt(u, path)
      ensures Cut(u, path) == u - {path}
    {
      forall x | x in u && path <= x ensures x == path {
        NoOrphans(u, path, x);
      }
    }

    /** Unlinks whatever an empty merged directory still holds in upper: markers, no directory. */
    method PurgeMarkers(path: Path)
      requires forall n :: path + [n] in upper ==> !upper[path + [n]].Dir?
      requires Placed()
      modifies this`upper, this`disk, this`written
      ensures Traced(old(written), path, path)
      ensures upper == old(upper) - (set n | n in Names(old(upper), path) :: path + [n])
    {
      ghost var u := upper;
      var all := Names(upper, path);
      var rest := all;
      while rest != {}
        invariant rest <= all
        invariant upper == u - (set n | n in all - rest :: path + [n])
        invariant Traced(old(written), path, path)
        decreases rest
      {
        var nm :| nm in rest;
        rest := rest - {nm};
        assert (path + [nm])[|path|] == nm;
        var e := SysUnlink(path + [nm]);
      }
    }

    method OpRmdir(path: Path, deny: bool) returns (r: Errno)
      requires Valid() && CallerOk(Merged(), RmdirOp(path)) && Placed()
      modifies this`upper, this`disk, this`written, this`canMknodWhiteout
      ensures Traced(old(written), path, path)
      ensures Outcome(State(), r) == Step(lower, old(State()), Call(RmdirOp(path), deny, NO_COPY))
      ensures Valid() && Done(Merged(), r) == Rmdir(old(Merged()), path)
    {
      ghost var u := upper;
      DropAnswer(lower, State(), Call(RmdirOp(path), deny, NO_COPY));
      LookedUpResolves(lower, u, path);
      InView(lower, u, path);
      var w := ResolvePath(path);
      if !Live(w) {
        return ENOENT;
      }
      if !w.node.Dir? {
        return ENOTDIR;
      }
      var names: seq<Name>;
      r, names := OpReaddir(path);
      if names != [] {
        assert names[0] in names;
        return ENOTEMPTY;
      }
      EmptyHoldsMarkers(u, path);
      r := RemoveUpperDir(path);
      if r != OK {
        return;
      }
      r := HideLower(path, deny, u);
    }

    lemma ShallowCut(u: Tree, path: Path)
      requires forall x :: x in u && path < x ==> IsChild(path, x)
      ensures u - (set n | n in Names(u, path) :: path + [n]) - {path} == Cut(u, path)
    {
      var gone := set n | n in Names(u, path) :: path + [n];
      forall x | x in u ensures x in gone || x == path <==> path <= x {
        if path < x {
          assert x == path + [x[|path|]];
          assert x[|path|] in Names(u, path);
        }
      }
    }

    /** Removes the upper directory of an empty merged one, if there is one. */
    method RemoveUpperDir(path: Path) returns (r: Errno)
      requires path in upper ==> upper[path].Dir?
      requires TreeOk(upper) && Placed()
      requires forall n :: path + [n] in upper ==> !upper[path + [n]].Dir?
      requires forall x :: x in upper && path < x ==> IsChild(path, x)
      modifies this`upper, this`disk, this`written
      ensures Traced(old(written), path, path)
      ensures r == OK && upper == Cut(old(upper), path)
    {
      if path in upper {
        ghost var u := upper;
        PurgeMarkers(path);
        ShallowCut(u, path);
        r := SysRmdir(path);
      } else {
        LeafCut(upper, path);
        assert upper == upper - {path};
        return OK;
      }
    }

    lemma EmptyHoldsMarkers(u: Tree, path: Path)
      requires Inv(lower, u) && path != [] && ServedDir(lower, u, path)
      requires Names(View(lower, u), path) == {}
      ensures path in u ==> u[path].Dir?
      ensures forall n :: path + [n] in u ==> !u[path + [n]].Dir?
      ensures forall x :: x in u && path < x ==> IsChild(path, x)
    {
      ServeStep(lower, u, path);
      EmptyIsBare(lower, u, path);
      forall n | path + [n] in u ensures !u[path + [n]].Dir? {
        var y := path + [n];
        assert Parent(y) == path && EntryOk(u, y);
        if u[y].Dir? {
          UpperWins(lower, u, y);
        }
      }
      forall x | x in u && path < x ensures IsChild(path, x) {
        var y := x[..|path| + 1];
        assert y == path + [x[|path|]];
        NoOrphans(u, y, x);
        assert y == x;
      }
    }

    // ---- rename ----

    /** Of something that is not a directory, onto something that is not one. */
    method OpRename(from: Path, to: Path, deny: bool, answers: Disk) returns (r: Errno)
      requires Valid() && LookedUp(Merged(), from) && LookedUp(Merged(), to) && Placed()
      requires !DirAt(Merged(), from) && !DirAt(Merged(), to)
      modifies this`upper, this`disk, this`written, this`canMknodWhiteout
      ensures Traced(old(written), from, to)
      ensures var c := Call(RenameOp(from, to), deny, answers);
              from != to ==>
                && Outcome(State(), r) == Step(lower, old(State()), c)
                && Answered(old(State()), c, r)
      ensures from == to ==>
                Outcome(State(), r) ==
                SelfRename(lower, old(State()), from, deny, CopyOfPath(lower, old(upper), from, answers))
    {
      hide PutLayer, Writes, View, Put, Drop, CopyAnswer, Layered, EntryOk, OpaqueOk;
      ghost var m := State();
      r := CopyUpFirst(from, answers);
      if r == OK {
        CopyUpIsInvisible(lower, m.upper, from, CopyOfPath(lower, m.upper, from, answers));
        InView(lower, upper, from);
        InView(lower, upper, to);
        ServeStep(lower, upper, from);
        r := FinishRename(from, to, deny, upper[from]);
      }
      if from != to {
        Answers(m, Call(RenameOp(from, to), deny, answers));
      }
    }

    // A live source gets into the upper layer, if it is not there yet.
    method CopyUpFirst(from: Path, answers: Disk) returns (r: Errno)
      requires Valid() && LookedUp(Merged(), from) && Placed()
      modifies this`upper, this`disk, this`written
      ensures Traced(old(written), from, from)
      ensures Done(upper, r) == CopyUpStep(lower, old(upper), from, CopyOfPath(lower, old(upper), from, answers))
      ensures Valid() && Merged() == old(Merged())
      ensures r == OK ==> from in upper
    {
      CopyUpIsInvisible(lower, upper, from, OK);
      LookedUpResolves(lower, upper, from);
      ServeStep(lower, upper, from);
      var w := ResolvePath(from);
      if !Live(w) {
        return ENOENT;
      }
      if w.Lower? {
        r := CopyUp(from, answers);
        ServeStep(lower, upper, from);
        return;
      }
      return OK;
    }

    // The part of rename after the copy-up.
    method FinishRename(from: Path, to: Path, deny: bool, ghost n: Node) returns (r: Errno)
      requires Valid() && LookedUp(Merged(), from) && LookedUp(Merged(), to) && Placed()
      requires Serve(lower, upper, from) == Upper(n) && !n.Dir? && !ServedDir(lower, upper, to)
      modifies this`upper, this`disk, this`written, this`canMknodWhiteout
      ensures Traced(old(written), from, to)
      ensures from != to ==>
                Outcome(State(), r) ==
                Dropped(lower, old(State()), Put(lower, old(upper), to, n), from, deny)
      ensures from == to ==>
                Outcome(State(), r) ==
                if from in lower then Dropped(lower, old(State()), old(upper), from, deny)
                else Outcome(old(State()), OK)
    {
      hide PutLayer, Inv, Writes, Put, Drop, Cut, Serve, Layered;
      ghost var v := upper;
      r := MoveFile(from, to, n);
      if from != to {
        RenameReady(v, from, to, n);
        r := HideLower(from, deny, Put(lower, v, to, n));
      } else if from in lower {
        r := HideSelf(from, deny);
      }
    }

    // The raw rename.  No directory is left at to, so the code's rmdir there never runs.
    method MoveFile(from: Path, to: Path, ghost n: Node) returns (r: Errno)
      requires Valid() && LookedUp(Merged(), from) && LookedUp(Merged(), to) && Placed()
      requires Serve(lower, upper, from) == Upper(n) && !n.Dir? && !ServedDir(lower, upper, to)
      modifies this`upper, this`disk, this`written
      ensures Traced(old(written), from, to) && r == OK
      ensures upper == if from == to then old(upper) else Cut(Put(lower, old(upper), to, n), from)
    {
      hide PutLayer, Rename, Inv, Writes, Put, Cut, WithDirs, Bared, Serve, Layered;
      ghost var v := upper;
      if from == to {
        StaysPut(v, from);
      } else {
        RenameReady(v, from, to, n);
      }
      r := Prepare(to);
      RenameOfFile(upper, from, to);
      WritesItself(from);
      WritesItself(to);
      r := SysRename(from, to);
    }

    lemma RenameOfFile(b: Tree, from: Path, to: Path)
      requires to != [] && from in b && !b[from].Dir? && DirAt(b, Parent(to)) && !DirAt(b, to)
      ensures Rename(b, from, to) == Done(if from == to then b else (b - {from})[to := b[from]], OK)
    {
    }

    // A file renamed to itself, which lower has too.
    method HideSelf(path: Path, deny: bool) returns (r: Errno)
      requires Valid() && LookedUp(Merged(), path) && Placed() && path in lower
      requires Serve(lower, upper, path).Upper? && !ServedDir(lower, upper, path)
      modifies this`upper, this`disk, this`written, this`canMknodWhiteout
      ensures Traced(old(written), path, path)
      ensures Outcome(State(), r) == Dropped(lower, old(State()), old(upper), path, deny)
    {
      hide PutLayer, Inv, Writes;
      ghost var v := upper;
      StaysPut(v, path);
      assert TreeOk(upper) by { InvIsTree(upper); }
      assert WithDirs(lower, v, Parent(path)) == v;
      r := EnsureUpperParents(path);
      r := PlaceWhiteout(path, deny);
    }

    lemma InvIsTree(u: Tree)
      requires Inv(lower, u)
      ensures TreeOk(u)
    {
    }

    // Renaming a live upper file to itself prepares nothing.
    lemma StaysPut(v: Tree, p: Path)
      requires Inv(lower, v) && LookedUp(View(lower, v), p)
      requires Serve(lower, v, p).Upper? && !ServedDir(lower, v, p)
      ensures Bared(WithDirs(lower, v, Parent(p)), p) == v
      ensures p in v && DirAt(v, Parent(p)) && Sidecar(p) !in v
      ensures forall i :: 0 < i < |p| && p[..i] in v ==> v[p[..i]].Dir?
      ensures forall dev :: WhitedOut(v - {p}, p, dev) == if p in lower then Drop(lower, v, p, dev)
                                                          else WhitedOut(v - {p}, p, dev)
    {
      ServeStep(lower, v, p);
      assert ParentOk(v, p) && EntryOk(v, p);
      NoDirCut(v, p);
      assert WithDirs(lower, v - {p}, Parent(p)) == v - {p};
      forall i | 0 < i < |p| && p[..i] in v ensures v[p[..i]].Dir? {
        NoOrphans(v, p[..i], p);
      }
    }

    // Once to is prepared, the raw rename leaves what dropping from leaves.
    lemma RenameReady(v: Tree, from: Path, to: Path, n: Node)
      requires Inv(lower, v) && LookedUp(View(lower, v), from) && LookedUp(View(lower, v), to)
      requires Serve(lower, v, from) == Upper(n) && !n.Dir? && from != to
      requires !ServedDir(lower, v, to)
      ensures var b := Bared(WithDirs(lower, v, Parent(to)), to);
              var w := Put(lower, v, to, n);
              && Inv(lower, w) && LookedUp(View(lower, w), from) && Serve(lower, w, from) == Upper(n)
              && At(b, from) == Some(n)
              && Cut(w, from) == (b - {from})[to := n]
    {
      hide Inv, Serve, Layered;
      var w := Put(lower, v, to, n);
      InvIsTree(v);
      ServeStep(lower, v, from);
      AfterPut(v, from, to, n);
      NoDirCut(w, from);
      StillThere(v, from, to);
    }

    lemma AfterPut(v: Tree, from: Path, to: Path, n: Node)
      requires Inv(lower, v) && LookedUp(View(lower, v), from) && LookedUp(View(lower, v), to)
      requires Serve(lower, v, from) == Upper(n) && !n.Dir? && n != Whiteout && from != to
      requires !ServedDir(lower, v, to)
      ensures var w := Put(lower, v, to, n);
              Inv(lower, w) && LookedUp(View(lower, w), from) && Serve(lower, w, from) == Upper(n)
    {
      var w := Put(lower, v, to, n);
      InView(lower, v, Parent(to));
      InView(lower, v, Parent(from));
      InView(lower, w, Parent(from));
      PutLayers(lower, v, to, n);
      SeenIsLayer(lower, v, from);
      SeenIsLayer(lower, w, from);
      SeenIsLayer(lower, v, Parent(from));
      SeenIsLayer(lower, w, Parent(from));
    }

    lemma StillThere(v: Tree, from: Path, to: Path)
      requires UserPath(from) && from in v && to != [] && from != to
      ensures var b := Bared(WithDirs(lower, v, Parent(to)), to);
              At(b, from) == Some(v[from])
    {
      WithDirsKeys(lower, v, Parent(to), from);
      assert from != Sidecar(to);
    }

    /**
      What is promised of every operation that may copy up: its answer and its effect on
      the merged tree are those of the plain call, unless the copy is refused, which
      happens neither on a disk that copies well nor for files, directories and links.
    */
    ghost predicate Answered(m: Mount, c: Call, r: Errno)
      requires CallerOk(View(lower, m.upper), c.op)
      reads this`upper
    {
      var t := View(lower, m.upper);
      && Valid()
      && Done(Merged(), r) == RefusedOrDone(t, c.op, RefusalAt(lower, m.upper, c))
      && (CopiesWell(m.upper, c.op.path, c.disk) && !NeverCopied(t, c.op.path) ==>
            Done(Merged(), r) == PlainStep(t, c.op))
    }

    lemma Answers(m: Mount, c: Call)
      requires Inv(lower, m.upper) && CallerOk(View(lower, m.upper), c.op)
      requires upper == Step(lower, m, c).mount.upper
      ensures Answered(m, c, Step(lower, m, c).err)
    {
      OverlayIsAPlainTree(lower, m, c);
      if RefusalAt(lower, m.upper, c) != OK {
        RefusalMeans(lower, m.upper, c);
      }
    }

    /** Of a directory, to a name that is not taken. */
    method OpRenameDir(from: Path, to: Path, deny: bool, answers: Disk) returns (r: Errno)
      requires Valid() && DirRename(lower, upper, from, to) && Placed()
      modifies this`upper, this`disk, this`written, this`canMknodWhiteout
      ensures Traced(old(written), from, to)
      ensures r == OK
      ensures var dev := old(canMknodWhiteout) && !deny;
              State() == Mount(RenameDir(lower, old(upper), from, to, dev),
                               if from in lower then dev else old(canMknodWhiteout))
    {
      ghost var u := upper;
      DirIsLookedUp(from, to);
      r := CopyUpFirst(from, answers);
      DirCopyUp(u, from, CopyOfPath(lower, u, from, answers));
      if r != OK {
        return;
      }
      StartedAfterCopyUp(lower, u, from, to);
      TargetIsFree(u, from, to);
      r := FinishRenameDir(from, to, deny);
    }

    // The part of rename after the copy-up, for a directory.
    method FinishRenameDir(from: Path, to: Path, deny: bool) returns (r: Errno)
      requires Valid() && UserPath(from) && LookedUp(Merged(), to) && !ServedDir(lower, upper, to)
      requires Started(lower, WithDirs(lower, upper, Parent(to)), from, to) && Placed()
      modifies this`upper, this`disk, this`written, this`canMknodWhiteout
      ensures Traced(old(written), from, to)
      ensures r == OK
      ensures var v, dev := WithDirs(lower, old(upper), Parent(to)), old(canMknodWhiteout) && !deny;
              State() == Mount(MoveDir(lower, v, from, to, dev),
                               if from in lower then dev else old(canMknodWhiteout))
    {
      hide PutLayer, Rename, Moved, Inv, Writes, WithDirs, Bared;
      ghost var v := WithDirs(lower, upper, Parent(to));
      r := MoveTree(from, to);
      RawMoveLeaves(lower, v, from, to);
      if from in lower {
        r := HideMoved(from, deny);
      }
    }

    method MoveTree(from: Path, to: Path) returns (r: Errno)
      requires Valid() && LookedUp(Merged(), to) && !ServedDir(lower, upper, to)
      requires Started(lower, WithDirs(lower, upper, Parent(to)), from, to) && Placed()
      modifies this`upper, this`disk, this`written
      ensures Traced(old(written), from, to) && r == OK
      ensures upper == Moved(Bared(WithDirs(lower, old(upper), Parent(to)), to), from, to)
    {
      hide PutLayer, Rename, Moved, RenameTree, Inv, Writes, WithDirs, Bared, Started;
      ghost var v := WithDirs(lower, upper, Parent(to));
      r := Prepare(to);
      RawMoveSucceeds(lower, v, from, to);
      RawMoveOfDir(lower, v, from, to);
      WritesItself(from);
      WritesItself(to);
      r := SysRename(from, to);
    }

    method HideMoved(from: Path, deny: bool) returns (r: Errno)
      requires TreeOk(upper) && UserPath(from) && DirAt(upper, Parent(from))
      requires from !in upper && Sidecar(from) !in upper && Placed()
      modifies this`upper, this`disk, this`written, this`canMknodWhiteout
      ensures Traced(old(written), from, from)
      ensures r == OK
      ensures var dev := old(canMknodWhiteout) && !deny;
              State() == Mount(WhitedOut(old(upper), from, dev), dev)
    {
      assert upper - {from} == upper;
      ParentsAreDirs(upper, from);
      r := EnsureUpperParents(from);
      r := PlaceWhiteout(from, deny);
    }

    lemma ParentsAreDirs(u: Tree, p: Path)
      requires TreeOk(u) && p != [] && DirAt(u, Parent(p))
      ensures forall i :: 0 < i < |p| && p[..i] in u ==> u[p[..i]].Dir?
    {
      forall i | 0 < i < |p| && p[..i] in u ensures u[p[..i]].Dir? {
        assert p[..i] <= Parent(p);
        NoOrphans(u, p[..i], Parent(p));
      }
    }

    lemma DirIsLookedUp(from: Path, to: Path)
      requires Valid() && DirRename(lower, upper, from, to)
      ensures LookedUp(Merged(), from) && LookedUp(Merged(), to)
    {
      ServeStep(lower, upper, from);
      InView(lower, upper, Parent(from));
      InView(lower, upper, Parent(to));
    }

    // Copying a directory up cannot be refused.
    lemma DirCopyUp(u: Tree, from: Path, copy: Errno)
      requires Inv(lower, u) && LookedUp(View(lower, u), from) && ServedDir(lower, u, from)
      ensures CopyUpStep(lower, u, from, copy) == CopyUpStep(lower, u, from, OK)
      ensures CopyUpStep(lower, u, from, copy).err == OK
    {
      LookedUpResolves(lower, u, from);
      CopyOfDir(lower, u, from, copy);
    }

    lemma TargetIsFree(u: Tree, from: Path, to: Path)
      requires Inv(lower, u) && DirRename(lower, u, from, to)
      requires LookedUp(View(lower, u), from) && LookedUp(View(lower, u), to)
      ensures var v := CopyUpStep(lower, u, from, OK).tree;
              LookedUp(View(lower, v), to) && !Live(Serve(lower, v, to))
    {
      CopyUpIsInvisible(lower, u, from, OK);
      InView(lower, u, to);
      InView(lower, CopyUpStep(lower, u, from, OK).tree, to);
    }

    // ---- operations that change a node in place ----

    method OpChmod(path: Path, mode: nat, answers: Disk) returns (r: Errno)
      requires Valid() && CallerOk(Merged(), ChmodOp(path, mode)) && Placed()
      modifies this`upper, this`disk, this`written
      ensures Traced(old(written), path, path)
      ensures var c := Call(ChmodOp(path, mode), false, answers);
              Outcome(State(), r) == Step(lower, old(State()), c) && Answered(old(State()), c, r)
    {
      hide PutLayer, Writes, Inv, View, CopyAnswer;
      WritesItself(path);
      ghost var m := State();
      r := CopyUp(path, answers);
      if r == OK {
        r := SysChmod(path, mode % PERMS);
      }
      Answers(m, Call(ChmodOp(path, mode), false, answers));
    }

    method OpTruncate(path: Path, size: nat, answers: Disk) returns (r: Errno)
      requires Valid() && CallerOk(Merged(), TruncateOp(path, size)) && Placed()
      modifies this`upper, this`disk, this`written
      ensures Traced(old(written), path, path)
      ensures var c := Call(TruncateOp(path, size), false, answers);
              Outcome(State(), r) == Step(lower, old(State()), c) && Answered(old(State()), c, r)
    {
      hide PutLayer, Writes, Inv, View, CopyAnswer;
      WritesItself(path);
      ghost var m := State();
      r := CopyUp(path, answers);
      if r == OK {
        r := SysTruncate(path, size);
      }
      Answers(m, Call(TruncateOp(path, size), false, answers));
    }

    /** open for writing, and one write through the descriptor that open gave. */
    method OpOpenWrite(path: Path, trunc: bool, offset: nat, buf: Bytes, answers: Disk) returns (r: Errno)
      requires Valid() && CallerOk(Merged(), WriteOp(path, trunc, offset, buf)) && Placed()
      modifies this`upper, this`disk, this`written
      ensures Traced(old(written), path, path)
      ensures var c := Call(WriteOp(path, trunc, offset, buf), false, answers);
              Outcome(State(), r) == Step(lower, old(State()), c) && Answered(old(State()), c, r)
    {
      hide PutLayer, Writes, Inv, View, CopyAnswer;
      WritesItself(path);
      ghost var m := State();
      r := CopyUp(path, answers);
      if r == OK {
        r := SysOpenWrite(path, trunc, offset, buf);
      }
      Answers(m, Call(WriteOp(path, trunc, offset, buf), false, answers));
    }
  }
}
