/**
  One raw POSIX file tree, and the system calls the overlay issues against it.

  A path is the sequence of its components, so the root is the empty sequence.
  The permission bits are kept apart from the file type.  Symbolic links are
  leaves: no call here follows one.
*/
module RawFs {

  datatype Option<+T> = None | Some(value: T)

  type Name = string
  type Path = seq<Name>
  type Bytes = seq<bv8>

  const PERMS := 4096   // 07777 + 1
  type Mode = m: nat | m < PERMS witness 0

  datatype Node =
    | Dir(mode: Mode)
    | Reg(mode: Mode, data: Bytes)
    | Link(target: string)
    | Whiteout              // character device 0/0
    | Special(mode: Mode)    // socket, fifo, any other device

  type Tree = map<Path, Node>

  datatype Errno = OK | ENOENT | EEXIST | ENOTDIR | EISDIR | ENOTEMPTY | EPERM | EINVAL | EIO | ENOSPC

  /** What a system call leaves behind and what it answers. */
  datatype Done = Done(tree: Tree, err: Errno)

  function At(t: Tree, p: Path): Option<Node> {
    if p in t then Some(t[p]) else None
  }

  predicate DirAt(t: Tree, p: Path) {
    p in t && t[p].Dir?
  }

  function Parent(p: Path): Path
    requires p != []
  {
    p[..|p| - 1]
  }

  function Last(p: Path): Name
    requires p != []
  {
    p[|p| - 1]
  }

  predicate ParentOk(t: Tree, p: Path) {
    p == [] || DirAt(t, Parent(p))
  }

  /** The kernel's own invariant: every entry hangs off a directory. */
  ghost predicate TreeOk(t: Tree) {
    && DirAt(t, [])
    && forall p {:trigger ParentOk(t, p)} :: p in t ==> ParentOk(t, p)
  }

  predicate IsChild(dir: Path, p: Path) {
    |p| == |dir| + 1 && p[..|dir|] == dir
  }

  /** The names a readdir(3) of dir returns, without "." and "..". */
  function Names(t: Tree, dir: Path): (ns: set<Name>)
    ensures forall n :: n in ns <==> dir + [n] in t
  {
    var ns := set p | p in t && IsChild(dir, p) :: Last(p);
    assert forall n | dir + [n] in t :: IsChild(dir, dir + [n]) && Last(dir + [n]) == n;
    assert forall p | p in t && IsChild(dir, p) :: p == dir + [Last(p)];
    ns
  }

  // The checks every call that adds a directory entry makes first.
  function EntryError(t: Tree, p: Path): Errno
    requires p != []
  {
    if Parent(p) !in t then ENOENT
    else if !t[Parent(p)].Dir? then ENOTDIR
    else if p in t then EEXIST
    else OK
  }

  function AddEntry(t: Tree, p: Path, n: Node): Done
    requires p != []
  {
    var e := EntryError(t, p);
    Done(if e == OK then t[p := n] else t, e)
  }

  function Mkdir(t: Tree, p: Path, mode: Mode): Done
    requires p != []
  {
    AddEntry(t, p, Dir(mode))
  }

  function Symlink(t: Tree, p: Path, target: string): Done
    requires p != []
  {
    AddEntry(t, p, Link(target))
  }

  /** mknod(2) of a 0/0 character device, which the system may deny. */
  function MknodWhiteout(t: Tree, p: Path, denied: bool): Done
    requires p != []
  {
    if denied then Done(t, EPERM) else AddEntry(t, p, Whiteout)
  }

  /** open(2) with O_CREAT | O_EXCL. */
  function OpenExcl(t: Tree, p: Path, mode: Mode): Done
    requires p != []
  {
    AddEntry(t, p, Reg(mode, []))
  }

  /** open(2) for writing with O_CREAT and, on request, O_TRUNC. */
  function OpenCreate(t: Tree, p: Path, mode: Mode, trunc: bool): Done
    requires p != []
  {
    if p in t then
      if t[p].Dir? then Done(t, EISDIR)
      else if trunc && t[p].Reg? then Done(t[p := Reg(t[p].mode, [])], OK)
      else Done(t, OK)
    else AddEntry(t, p, Reg(mode, []))
  }

  function Unlink(t: Tree, p: Path): Done {
    if p !in t then Done(t, ENOENT)
    else if t[p].Dir? then Done(t, EISDIR)
    else Done(t - {p}, OK)
  }

  function Rmdir(t: Tree, p: Path): Done {
    if p !in t then Done(t, ENOENT)
    else if !t[p].Dir? then Done(t, ENOTDIR)
    else if Names(t, p) != {} then Done(t, ENOTEMPTY)
    else Done(t - {p}, OK)
  }

  /** rename(2) of something that is not a directory. */
  function RenameFile(t: Tree, from: Path, to: Path): Done
    requires to != [] && !DirAt(t, from)
  {
    if from !in t then Done(t, ENOENT)
    else if Parent(to) !in t then Done(t, ENOENT)
    else if !t[Parent(to)].Dir? then Done(t, ENOTDIR)
    else if from == to then Done(t, OK)
    else if DirAt(t, to) then Done(t, EISDIR)
    else Done((t - {from})[to := t[from]], OK)
  }

  /** t without p and what is under it. */
  function Cut(t: Tree, p: Path): Tree {
    map x | x in t && !(p <= x) :: t[x]
  }

  /** t with the subtree at p standing at g instead. */
  function Moved(t: Tree, p: Path, g: Path): Tree {
    var ys := set x | x in t && p <= x :: g + x[|p|..];
    Cut(t, p) + map y | y in ys && p + y[|g|..] in t :: t[p + y[|g|..]]
  }

  /** rename(2) of a directory. */
  function RenameTree(t: Tree, from: Path, to: Path): Done
    requires to != []
  {
    if from !in t then Done(t, ENOENT)
    else if Parent(to) !in t then Done(t, ENOENT)
    else if !t[Parent(to)].Dir? then Done(t, ENOTDIR)
    else if from == to then Done(t, OK)
    else if from < to then Done(t, EINVAL)
    else if to in t && !t[to].Dir? then Done(t, ENOTDIR)
    else if Names(t, to) != {} then Done(t, ENOTEMPTY)
    else Done(Moved(t - {to}, from, to), OK)
  }

  function WithMode(n: Node, mode: Mode): Node {
    match n
    case Dir(_) => Dir(mode)
    case Reg(_, data) => Reg(mode, data)
    case Special(_) => Special(mode)
    case _ => n
  }

  function Chmod(t: Tree, p: Path, mode: Mode): Done {
    if p !in t then Done(t, ENOENT) else Done(t[p := WithMode(t[p], mode)], OK)
  }

  function Zeros(n: nat): (z: Bytes)
    ensures |z| == n
  {
    seq(n, _ => 0)
  }

  function Resize(d: Bytes, size: nat): (r: Bytes)
    ensures |r| == size
  {
    if size <= |d| then d[..size] else d + Zeros(size - |d|)
  }

  function Truncate(t: Tree, p: Path, size: nat): Done {
    if p !in t then Done(t, ENOENT)
    else match t[p]
      case Dir(_) => Done(t, EISDIR)
      case Reg(mode, data) => Done(t[p := Reg(mode, Resize(data, size))], OK)
      case _ => Done(t, EINVAL)
  }

  /** What pwrite(2) of buf at offset makes of a file's contents. */
  function Overwrite(d: Bytes, offset: nat, buf: Bytes): Bytes {
    if buf == [] then d
    else
      var base := if |d| < offset + |buf| then Resize(d, offset + |buf|) else d;
      base[..offset] + buf + base[offset + |buf|..]
  }

  /** open(2) for writing, with or without O_TRUNC, then one pwrite(2). */
  function OpenAndWrite(t: Tree, p: Path, trunc: bool, offset: nat, buf: Bytes): Done {
    if p !in t then Done(t, ENOENT)
    else match t[p]
      case Dir(_) => Done(t, EISDIR)
      case Reg(mode, data) =>
        Done(t[p := Reg(mode, Overwrite(if trunc then [] else data, offset, buf))], OK)
      case _ => Done(t, EINVAL)
  }

  // ---- raw calls as data ----

  /** One system call that writes, by path. */
  datatype RawCall =
    | MkdirCall(at: Path, mode: Mode)
    | SymlinkCall(at: Path, target: string)
    | MknodCall(at: Path, denied: bool)
    | OpenExclCall(at: Path, mode: Mode)
    | OpenCreateCall(at: Path, mode: Mode, trunc: bool)
    | UnlinkCall(at: Path)
    | RmdirCall(at: Path)
    | RenameCall(at: Path, to: Path)
    | ChmodCall(at: Path, mode: Mode)
    | TruncateCall(at: Path, size: nat)
    | OpenWriteCall(at: Path, trunc: bool, offset: nat, buf: Bytes)
    | AppendCall(at: Path, buf: Bytes)
  {
    predicate AddsEntry() {
      MkdirCall? || SymlinkCall? || MknodCall? || OpenExclCall? || OpenCreateCall?
    }

    /** It does not try to make the root. */
    predicate Sensible() {
      (AddsEntry() ==> at != []) && (RenameCall? ==> to != [])
    }

    /** The same call with paths that start at base. */
    function From(base: Path): RawCall {
      match this
      case MkdirCall(p, mode) => MkdirCall(base + p, mode)
      case SymlinkCall(p, target) => SymlinkCall(base + p, target)
      case MknodCall(p, denied) => MknodCall(base + p, denied)
      case OpenExclCall(p, mode) => OpenExclCall(base + p, mode)
      case OpenCreateCall(p, mode, trunc) => OpenCreateCall(base + p, mode, trunc)
      case UnlinkCall(p) => UnlinkCall(base + p)
      case RmdirCall(p) => RmdirCall(base + p)
      case RenameCall(p, q) => RenameCall(base + p, base + q)
      case ChmodCall(p, mode) => ChmodCall(base + p, mode)
      case TruncateCall(p, size) => TruncateCall(base + p, size)
      case OpenWriteCall(p, trunc, offset, buf) => OpenWriteCall(base + p, trunc, offset, buf)
      case AppendCall(p, buf) => AppendCall(base + p, buf)
    }
  }

  /** write(2) at the end of an open regular file. */
  function Append(t: Tree, p: Path, buf: Bytes): Done {
    if p in t && t[p].Reg? then Done(t[p := Reg(t[p].mode, t[p].data + buf)], OK) else Done(t, EINVAL)
  }

  /** rename(2) of anything. */
  function Rename(t: Tree, from: Path, to: Path): Done
    requires to != []
  {
    if DirAt(t, from) then RenameTree(t, from, to) else RenameFile(t, from, to)
  }

  function Apply(t: Tree, c: RawCall): Done
    requires c.Sensible()
  {
    match c
    case MkdirCall(p, mode) => Mkdir(t, p, mode)
    case SymlinkCall(p, target) => Symlink(t, p, target)
    case MknodCall(p, denied) => MknodWhiteout(t, p, denied)
    case OpenExclCall(p, mode) => OpenExcl(t, p, mode)
    case OpenCreateCall(p, mode, trunc) => OpenCreate(t, p, mode, trunc)
    case UnlinkCall(p) => Unlink(t, p)
    case RmdirCall(p) => Rmdir(t, p)
    case RenameCall(p, to) => Rename(t, p, to)
    case ChmodCall(p, mode) => Chmod(t, p, mode)
    case TruncateCall(p, size) => Truncate(t, p, size)
    case OpenWriteCall(p, trunc, offset, buf) => OpenAndWrite(t, p, trunc, offset, buf)
    case AppendCall(p, buf) => Append(t, p, buf)
  }

  // ---- facts about trees ----

  lemma SameAt(s: Tree, t: Tree)
    requires forall y {:trigger At(s, y)} :: At(s, y) == At(t, y)
    ensures s == t
  {
    forall y ensures (y in s <==> y in t) && (y in s ==> s[y] == t[y]) {
      assert At(s, y) == At(t, y);
    }
  }

  lemma MovedLookup(t: Tree, p: Path, g: Path, y: Path)
    ensures At(Moved(t, p, g), y) ==
            if g <= y && p + y[|g|..] in t then At(t, p + y[|g|..]) else At(Cut(t, p), y)
  {
    if g <= y {
      assert y == g + y[|g|..];
      assert (p + y[|g|..])[|p|..] == y[|g|..];
    }
    forall x | x in t && p <= x ensures (g + x[|p|..])[|g|..] == x[|p|..] && p + x[|p|..] == x {
    }
  }

  /** ftruncate keeps the bytes that fit and pads with zeros; a write changes its own bytes and no other. */
  lemma BytesAt(d: Bytes, size: nat, offset: nat, buf: Bytes, i: nat)
    ensures |Resize(d, size)| == size
    ensures i < size ==> Resize(d, size)[i] == if i < |d| then d[i] else 0
    ensures |Overwrite(d, offset, buf)| == if buf != [] && offset + |buf| > |d| then offset + |buf| else |d|
    ensures i < |Overwrite(d, offset, buf)| ==>
              Overwrite(d, offset, buf)[i] ==
              if offset <= i < offset + |buf| then buf[i - offset] else if i < |d| then d[i] else 0
  {
    var base := if |d| < offset + |buf| then Resize(d, offset + |buf|) else d;
    if buf != [] && offset <= i < offset + |buf| {
      assert (base[..offset] + buf)[i] == buf[i - offset];
    }
  }

  /** chmod changes the permission bits and nothing else; links and whiteouts have none. */
  lemma ModeOnly(n: Node, mode: Mode)
    ensures match WithMode(n, mode)
            case Dir(m) => n.Dir? && m == mode
            case Reg(m, data) => n.Reg? && m == mode && data == n.data
            case Special(m) => n.Special? && m == mode
            case Link(target) => n == Link(target)
            case Whiteout => n == Whiteout
  {
  }

  lemma {:induction false} NoOrphans(t: Tree, q: Path, x: Path)
    requires TreeOk(t) && q <= x && x in t
    ensures q in t
    ensures q < x ==> t[q].Dir?
    decreases |x|
  {
    assert ParentOk(t, x);
    if q == x {
    } else if |q| + 1 == |x| {
      assert q == Parent(x);
    } else {
      NoOrphans(t, q, Parent(x));
    }
  }

  lemma PrefixParent(q: Path, x: Path)
    requires x != []
    ensures q < x <==> q <= Parent(x)
    ensures q <= x <==> q == x || q <= Parent(x)
  {
    if q <= x && |q| == |x| {
      assert q == x;
    }
  }
}
