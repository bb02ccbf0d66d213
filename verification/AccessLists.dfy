/**
  The access-control entries strict mode adds before it starts the sandbox, and
  strips again afterwards.
*/
module AccessLists {

  type Uid = nat
  type Id = nat   // a file system object, however many names lead to it

  datatype Right =
    | ReadData | ReadAttributes | ReadExtattributes | ReadSecurity
    | WriteData | AppendData | WriteAttributes | WriteExtattributes | Delete | DeleteChild
    | Execute

  datatype Mask = Mask(read: bool, write: bool, execute: bool)

  const READ := Mask(true, false, false)
  const READ_WRITE := Mask(true, true, false)
  const READ_EXEC := Mask(true, false, true)
  const READ_WRITE_EXEC := Mask(true, true, true)

  datatype Entry = Entry(who: Uid, allow: bool, rights: set<Right>, inherit: bool)

  /** The entries of an object, in order; an object without an access list has none. */
  type Acl = seq<Entry>
  type Acls = map<Id, Acl>

  /** A tree in the order readdir gives it; a link leads to some other part of it. */
  datatype Node =
    | File(id: Id)
    | Directory(id: Id, kids: seq<Node>)
    | Symlink(target: Node)

  /** Whether the calls that read, change and write back one access list succeed. */
  datatype Answers = Answers(read: bool, edit: bool, write: bool)
  {
    predicate Ok() { read && edit && write }
  }

  /** The system during one sweep over a granted path. */
  type World = Id -> Answers

  function AclOf(a: Acls, id: Id): Acl {
    if id in a then a[id] else []
  }

  function Rights(m: Mask, isDir: bool): set<Right> {
    (if m.read then {ReadData, ReadAttributes, ReadExtattributes, ReadSecurity} else {}) +
    (if m.write then {WriteData, AppendData, WriteAttributes, WriteExtattributes, Delete} else {}) +
    (if m.write && isDir then {DeleteChild} else {}) +
    (if m.execute then {Execute} else {})
  }

  /** The rights a mask stands for, one by one. */
  predicate Grants(m: Mask, isDir: bool, r: Right) {
    match r
    case ReadData => m.read
    case ReadAttributes => m.read
    case ReadExtattributes => m.read
    case ReadSecurity => m.read
    case DeleteChild => m.write && isDir
    case Execute => m.execute
    case _ => m.write
  }

  /** The entry allows the user exactly these rights, and new children too if it is a directory's. */
  predicate GrantFor(e: Entry, uid: Uid, m: Mask, isDir: bool) {
    e.who == uid && e.allow && e.inherit == isDir && forall r :: r in e.rights <==> Grants(m, isDir, r)
  }

  lemma AllowIsGrant(uid: Uid, m: Mask, isDir: bool)
    ensures GrantFor(Allow(uid, m, isDir), uid, m, isDir)
  {
  }

  function Allow(uid: Uid, m: Mask, isDir: bool): Entry {
    Entry(uid, true, Rights(m, isDir), isDir)
  }

  /** acl without uid's entries, the others in their order. */
  function Without(acl: Acl, uid: Uid): (r: Acl)
    ensures forall e :: e in r <==> e in acl && e.who != uid
  {
    if acl == [] then []
    else (if acl[0].who == uid then [] else [acl[0]]) + Without(acl[1..], uid)
  }

  predicate Clear(acl: Acl, uid: Uid) {
    forall e :: e in acl ==> e.who != uid
  }

  // ---- which objects a grant reaches ----

  datatype Visit = Visit(id: Id, isDir: bool)

  /** The calls walk_tree makes: the object itself, then everything below, no symlink. */
  function Walk(n: Node): seq<Visit>
    decreases n, 0
  {
    match n
    case File(id) => [Visit(id, false)]
    case Directory(id, kids) => [Visit(id, true)] + WalkAll(kids)
    case Symlink(_) => []
  }

  function WalkAll(ns: seq<Node>): seq<Visit>
    decreases ns, 1
  {
    if ns == [] then [] else Walk(ns[0]) + WalkAll(ns[1..])
  }

  /** One granted path: a directory with everything below, or a single file. */
  datatype Grant = Grant(root: Node, readOnly: bool, recursive: bool)

  /** The mask exec chooses. */
  function MaskOf(g: Grant): Mask {
    Mask(true, !g.readOnly, g.recursive)
  }

  /** The rights a grant is meant to give on an object: reading, and writing and searching as it says. */
  predicate Promised(g: Grant, isDir: bool, r: Right) {
    match r
    case ReadData => true
    case ReadAttributes => true
    case ReadExtattributes => true
    case ReadSecurity => true
    case Execute => g.recursive
    case DeleteChild => isDir && !g.readOnly
    case _ => !g.readOnly
  }

  function Visits(g: Grant): seq<Visit> {
    if g.recursive then Walk(g.root)
    else
      match g.root
      case Symlink(_) => []
      case File(id) => [Visit(id, false)]
      case Directory(id, _) => [Visit(id, true)]
  }

  predicate Visited(vs: seq<Visit>, id: Id) {
    exists k :: 0 <= k < |vs| && vs[k].id == id
  }

  /** A place below n: which child of which directory, on the way down. */
  type Spot = seq<nat>

  predicate HasSpot(n: Node, spot: Spot)
    decreases |spot|
  {
    spot == [] || (n.Directory? && spot[0] < |n.kids| && HasSpot(n.kids[spot[0]], spot[1..]))
  }

  function NodeAt(n: Node, spot: Spot): Node
    requires HasSpot(n, spot)
    decreases |spot|
  {
    if spot == [] then n else NodeAt(n.kids[spot[0]], spot[1..])
  }

  /** The object stands at that place, itself and no link to it. */
  predicate Holds(n: Node, spot: Spot, id: Id) {
    HasSpot(n, spot) && !NodeAt(n, spot).Symlink? && NodeAt(n, spot).id == id
  }

  /** The object is n itself or lies below n, without a link on the way. */
  ghost predicate Below(n: Node, id: Id) {
    exists spot :: Holds(n, spot, id)
  }

  /** And there it is a directory, or is not. */
  ghost predicate BelowAs(n: Node, id: Id, isDir: bool) {
    exists spot :: Holds(n, spot, id) && NodeAt(n, spot).Directory? == isDir
  }

  /** No second name below n leads to the object. */
  ghost predicate Once(n: Node, id: Id) {
    forall s, t :: Holds(n, s, id) && Holds(n, t, id) ==> s == t
  }

  /** The same for a walk that would go through links. */
  predicate Linked(c: seq<Node>) {
    c != [] && forall i :: 0 <= i < |c| - 1 ==>
      match c[i]
      case Directory(_, kids) => c[i + 1] in kids
      case Symlink(target) => c[i + 1] == target
      case File(_) => false
  }

  ghost predicate BelowOrLinked(n: Node, id: Id) {
    exists c: seq<Node> :: Linked(c) && c[0] == n && !c[|c| - 1].Symlink? && c[|c| - 1].id == id
  }

  /** The grant is for the object. */
  ghost predicate Granted(g: Grant, id: Id) {
    if g.recursive then Below(g.root, id) else !g.root.Symlink? && g.root.id == id
  }

  ghost predicate GrantedAs(g: Grant, id: Id, isDir: bool) {
    if g.recursive then BelowAs(g.root, id, isDir)
    else !g.root.Symlink? && g.root.id == id && g.root.Directory? == isDir
  }

  /** Some grant is for the object. */
  ghost predicate Reached(gs: seq<Grant>, id: Id) {
    exists k :: 0 <= k < |gs| && Granted(gs[k], id)
  }

  /** For one of the grants, the object's list could be changed. */
  ghost predicate Hit(gs: seq<Grant>, ws: seq<World>, id: Id)
    requires |ws| == |gs|
  {
    exists k :: 0 <= k < |gs| && Granted(gs[k], id) && ws[k](id).Ok()
  }

  // ---- what adding and stripping leave ----

  function AddedTo(a: Acls, uid: Uid, m: Mask, v: Visit, ok: bool): Acls {
    if ok then a[v.id := AclOf(a, v.id) + [Allow(uid, m, v.isDir)]] else a
  }

  function StrippedFrom(a: Acls, uid: Uid, id: Id, ok: bool): Acls {
    if Clear(AclOf(a, id), uid) || !ok then a else a[id := Without(AclOf(a, id), uid)]
  }

  function Added(a: Acls, uid: Uid, m: Mask, vs: seq<Visit>, w: World): Acls
    decreases |vs|
  {
    if vs == [] then a
    else
      Added(AddedTo(a, uid, m, vs[0], w(vs[0].id).Ok()), uid, m, vs[1..], w)
  }

  function Stripped(a: Acls, uid: Uid, vs: seq<Visit>, w: World): Acls
    decreases |vs|
  {
    if vs == [] then a
    else
      Stripped(StrippedFrom(a, uid, vs[0].id, w(vs[0].id).Ok()), uid, vs[1..], w)
  }

  function AddedAll(a: Acls, uid: Uid, gs: seq<Grant>, ws: seq<World>): Acls
    requires |ws| == |gs|
    decreases |gs|
  {
    if gs == [] then a
    else AddedAll(Added(a, uid, MaskOf(gs[0]), Visits(gs[0]), ws[0]), uid, gs[1..], ws[1..])
  }

  function StrippedAll(a: Acls, uid: Uid, gs: seq<Grant>, ws: seq<World>): Acls
    requires |ws| == |gs|
    decreases |gs|
  {
    if gs == [] then a else StrippedAll(Stripped(a, uid, Visits(gs[0]), ws[0]), uid, gs[1..], ws[1..])
  }

  class AclDisk {
    var acls: Acls

    /**
      Adds one entry for the user at the end of the list.  A call that fails ends it
      before anything is written.
    */
    method AddAllowUser(id: Id, uid: Uid, m: Mask, isDir: bool, sys: Answers)
      modifies this
      ensures acls == AddedTo(old(acls), uid, m, Visit(id, isDir), sys.Ok())
      ensures !sys.Ok() ==> acls == old(acls)
      ensures sys.Ok() ==>
                && |AclOf(acls, id)| == |AclOf(old(acls), id)| + 1 && AclOf(old(acls), id) <= AclOf(acls, id)
                && GrantFor(AclOf(acls, id)[|AclOf(old(acls), id)|], uid, m, isDir)
      ensures forall other :: other != id ==> AclOf(acls, other) == AclOf(old(acls), other)
    {
      hide GrantFor, Rights;
      AllowIsGrant(uid, m, isDir);
      if !sys.read {
        return;
      }
      var acl := AclOf(acls, id);
      if !sys.edit {
        return;
      }
      var entry := Entry(uid, true, {}, false);
      entry := entry.(rights := Rights(m, isDir));
      if isDir {
        entry := entry.(inherit := true);
      }
      acl := acl + [entry];
      if !sys.write {
        return;
      }
      acls := acls[id := acl];
    }

    /** Deleting an entry restarts the walk from the first one. */
    method RemoveUserEntries(id: Id, uid: Uid, sys: Answers)
      modifies this
      ensures acls == StrippedFrom(old(acls), uid, id, sys.Ok())
    {
      if !sys.read {
        return;
      }
      var acl := AclOf(acls, id);
      ghost var acl0 := acl;
      var changed, found := false, true;
      while found
        invariant acls == old(acls) && Without(acl, uid) == Without(acl0, uid)
        invariant changed <==> !Clear(acl0, uid) && |acl| < |acl0|
        invariant if changed then sys.edit else acl == acl0
        invariant !found ==> Clear(acl, uid)
        decreases |acl|, found
      {
        found := false;
        ghost var acl1, changed1 := acl, changed;
        var k := 0;
        while k < |acl|
          invariant 0 <= k <= |acl| && !found && acls == old(acls) && acl == acl1 && changed == changed1
          invariant forall j :: 0 <= j < k ==> acl[j].who != uid
        {
          if acl[k].who == uid {
            if !sys.edit {
              return;
            }
            WithoutOne(acl, uid, k);
            acl := acl[..k] + acl[k + 1..];
            changed, found := true, true;
            break;
          }
          k := k + 1;
        }
      }
      WithoutClear(acl, uid);
      if !changed || !sys.write {
        return;
      }
      acls := acls[id := acl];
    }

    /** apply_recursive; an object whose list cannot be extended is only warned about. */
    method ApplyRecursive(n: Node, uid: Uid, m: Mask, w: World)
      modifies this
      ensures acls == Added(old(acls), uid, m, Walk(n), w)
      decreases n
    {
      if n.Symlink? {
        return;
      }
      AddAllowUser(n.id, uid, m, n.Directory?, w(n.id));
      if !n.Directory? {
        return;
      }
      ghost var a := acls;
      var i := 0;
      while i < |n.kids|
        invariant 0 <= i <= |n.kids|
        invariant Added(acls, uid, m, WalkAll(n.kids[i..]), w) == Added(a, uid, m, WalkAll(n.kids), w)
      {
        assert n.kids[i..][1..] == n.kids[i + 1..];
        AddedSplits(acls, uid, m, Walk(n.kids[i]), WalkAll(n.kids[i + 1..]), w);
        ApplyRecursive(n.kids[i], uid, m, w);
        i := i + 1;
      }
    }

    method RemoveRecursive(n: Node, uid: Uid, w: World)
      modifies this
      ensures acls == Stripped(old(acls), uid, Walk(n), w)
      decreases n
    {
      if n.Symlink? {
        return;
      }
      RemoveUserEntries(n.id, uid, w(n.id));
      if !n.Directory? {
        return;
      }
      ghost var a := acls;
      var i := 0;
      while i < |n.kids|
        invariant 0 <= i <= |n.kids|
        invariant Stripped(acls, uid, WalkAll(n.kids[i..]), w) == Stripped(a, uid, WalkAll(n.kids), w)
      {
        assert n.kids[i..][1..] == n.kids[i + 1..];
        StrippedSplits(acls, uid, Walk(n.kids[i]), WalkAll(n.kids[i + 1..]), w);
        RemoveRecursive(n.kids[i], uid, w);
        i := i + 1;
      }
    }

    /** What exec does before the fork, grant by grant. */
    method GrantAll(gs: seq<Grant>, uid: Uid, ws: seq<World>)
      requires |ws| == |gs|
      modifies this
      ensures acls == AddedAll(old(acls), uid, gs, ws)
    {
      var i := 0;
      while i < |gs|
        invariant 0 <= i <= |gs|
        invariant AddedAll(acls, uid, gs[i..], ws[i..]) == AddedAll(old(acls), uid, gs, ws)
      {
        var g := gs[i];
        ghost var a := acls;
        assert gs[i..][1..] == gs[i + 1..] && ws[i..][1..] == ws[i + 1..];
        if g.recursive {
          var perms := if g.readOnly then READ_EXEC else READ_WRITE_EXEC;
          ApplyRecursive(g.root, uid, perms, ws[i]);
        } else if !g.root.Symlink? {
          assert Visits(g)[1..] == [];
          var perms := if g.readOnly then READ else READ_WRITE;
          AddAllowUser(g.root.id, uid, perms, g.root.Directory?, ws[i](g.root.id));
        }
        assert acls == Added(a, uid, MaskOf(g), Visits(g), ws[i]);
        i := i + 1;
      }
    }

    /** What it does when the sandbox has exited; a failure is only warned about. */
    method StripAll(gs: seq<Grant>, uid: Uid, ws: seq<World>)
      requires |ws| == |gs|
      modifies this
      ensures acls == StrippedAll(old(acls), uid, gs, ws)
    {
      var i := 0;
      while i < |gs|
        invariant 0 <= i <= |gs|
        invariant StrippedAll(acls, uid, gs[i..], ws[i..]) == StrippedAll(old(acls), uid, gs, ws)
      {
        var g := gs[i];
        ghost var a := acls;
        assert gs[i..][1..] == gs[i + 1..] && ws[i..][1..] == ws[i + 1..];
        if g.recursive {
          RemoveRecursive(g.root, uid, ws[i]);
        } else if !g.root.Symlink? {
          assert Visits(g)[1..] == [];
          RemoveUserEntries(g.root.id, uid, ws[i](g.root.id));
        }
        assert acls == Stripped(a, uid, Visits(g), ws[i]);
        i := i + 1;
      }
    }
  }

  // ---- filters ----

  lemma {:induction false} WithoutOne(acl: Acl, uid: Uid, k: nat)
    requires k < |acl| && acl[k].who == uid
    ensures Without(acl[..k] + acl[k + 1..], uid) == Without(acl, uid)
    decreases |acl|
  {
    var short := acl[..k] + acl[k + 1..];
    if k == 0 {
      assert short == acl[1..];
    } else {
      assert short[1..] == acl[1..][..k - 1] + acl[1..][k..];
      WithoutOne(acl[1..], uid, k - 1);
    }
  }

  lemma {:induction false} WithoutClear(acl: Acl, uid: Uid)
    ensures Clear(acl, uid) <==> Without(acl, uid) == acl
    decreases |acl|
  {
    if acl == [] {
    } else {
      assert acl == [acl[0]] + acl[1..];
      WithoutClear(acl[1..], uid);
      if Without(acl, uid) == acl {
        assert forall e :: e in acl ==> e in Without(acl, uid);
      }
    }
  }

  lemma {:induction false} WithoutConcat(a: Acl, b: Acl, uid: Uid)
    ensures Without(a + b, uid) == Without(a, uid) + Without(b, uid)
    decreases |a|
  {
    if a == [] {
      assert a + b == b;
    } else {
      assert (a + b)[1..] == a[1..] + b;
      WithoutConcat(a[1..], b, uid);
    }
  }

  lemma {:induction false} AddedSplits(a: Acls, uid: Uid, m: Mask, vs: seq<Visit>, us: seq<Visit>, w: World)
    ensures Added(a, uid, m, vs + us, w) == Added(Added(a, uid, m, vs, w), uid, m, us, w)
    decreases |vs|
  {
    if vs == [] {
      assert vs + us == us;
    } else {
      assert (vs + us)[1..] == vs[1..] + us;
      AddedSplits(AddedTo(a, uid, m, vs[0], w(vs[0].id).Ok()), uid, m, vs[1..], us, w);
    }
  }

  lemma {:induction false} StrippedSplits(a: Acls, uid: Uid, vs: seq<Visit>, us: seq<Visit>, w: World)
    ensures Stripped(a, uid, vs + us, w) == Stripped(Stripped(a, uid, vs, w), uid, us, w)
    decreases |vs|
  {
    if vs == [] {
      assert vs + us == us;
    } else {
      assert (vs + us)[1..] == vs[1..] + us;
      StrippedSplits(StrippedFrom(a, uid, vs[0].id, w(vs[0].id).Ok()), uid, vs[1..], us, w);
    }
  }

  // ---- the walk visits what is below, and nothing else ----

  lemma VisitedStep(vs: seq<Visit>, id: Id)
    requires vs != []
    ensures Visited(vs, id) <==> vs[0].id == id || Visited(vs[1..], id)
  {
    if Visited(vs[1..], id) {
      var k :| 0 <= k < |vs[1..]| && vs[1..][k].id == id;
      assert vs[k + 1].id == id;
    }
    if Visited(vs, id) && vs[0].id != id {
      var k :| 0 <= k < |vs| && vs[k].id == id;
      assert vs[1..][k - 1].id == id;
    }
  }

  // A place below a directory is a place in one of its children.
  lemma HoldsStep(n: Node, i: nat, spot: Spot, id: Id)
    ensures HasSpot(n, [i] + spot) <==> n.Directory? && i < |n.kids| && HasSpot(n.kids[i], spot)
    ensures HasSpot(n, [i] + spot) ==> NodeAt(n, [i] + spot) == NodeAt(n.kids[i], spot)
    ensures Holds(n, [i] + spot, id) <==> n.Directory? && i < |n.kids| && Holds(n.kids[i], spot, id)
  {
    assert ([i] + spot)[1..] == spot;
  }

  lemma BelowAsStep(n: Node, id: Id, isDir: bool)
    ensures BelowAs(n, id, isDir) <==>
            || (!n.Symlink? && n.id == id && n.Directory? == isDir)
            || (n.Directory? && exists i :: 0 <= i < |n.kids| && BelowAs(n.kids[i], id, isDir))
  {
    if !n.Symlink? && n.id == id && n.Directory? == isDir {
      assert Holds(n, [], id);
    }
    if n.Directory? && exists i :: 0 <= i < |n.kids| && BelowAs(n.kids[i], id, isDir) {
      var i :| 0 <= i < |n.kids| && BelowAs(n.kids[i], id, isDir);
      var spot :| Holds(n.kids[i], spot, id) && NodeAt(n.kids[i], spot).Directory? == isDir;
      HoldsStep(n, i, spot, id);
    }
    if BelowAs(n, id, isDir) {
      var spot :| Holds(n, spot, id) && NodeAt(n, spot).Directory? == isDir;
      if spot != [] {
        assert spot == [spot[0]] + spot[1..];
        HoldsStep(n, spot[0], spot[1..], id);
        assert BelowAs(n.kids[spot[0]], id, isDir);
      }
    }
  }

  /** The walk visits exactly what stands below, as what it is. */
  lemma {:induction false} WalkIsBelow(n: Node, id: Id, isDir: bool)
    ensures Visit(id, isDir) in Walk(n) <==> BelowAs(n, id, isDir)
    decreases n, 0
  {
    BelowAsStep(n, id, isDir);
    match n
    case File(_) =>
    case Symlink(_) =>
    case Directory(_, kids) => WalkAllIsBelow(kids, id, isDir);
  }

  lemma {:induction false} WalkAllIsBelow(ns: seq<Node>, id: Id, isDir: bool)
    ensures Visit(id, isDir) in WalkAll(ns) <==> exists i :: 0 <= i < |ns| && BelowAs(ns[i], id, isDir)
    decreases ns, 1
  {
    if ns == [] {
    } else {
      WalkIsBelow(ns[0], id, isDir);
      WalkAllIsBelow(ns[1..], id, isDir);
      if i :| 0 <= i < |ns[1..]| && BelowAs(ns[1..][i], id, isDir) {
        assert ns[i + 1] == ns[1..][i];
      }
      if i :| 0 < i < |ns| && BelowAs(ns[i], id, isDir) {
        assert ns[i] == ns[1..][i - 1];
      }
    }
  }

  lemma BelowHasKind(n: Node, id: Id)
    ensures Below(n, id) <==> BelowAs(n, id, false) || BelowAs(n, id, true)
  {
    if spot :| Holds(n, spot, id) {
      assert BelowAs(n, id, NodeAt(n, spot).Directory?);
    }
  }

  function Count(vs: seq<Visit>, id: Id): nat {
    if vs == [] then 0 else (if vs[0].id == id then 1 else 0) + Count(vs[1..], id)
  }

  lemma {:induction false} CountConcat(vs: seq<Visit>, us: seq<Visit>, id: Id)
    ensures Count(vs + us, id) == Count(vs, id) + Count(us, id)
    decreases |vs|
  {
    if vs == [] {
      assert vs + us == us;
    } else {
      assert (vs + us)[1..] == vs[1..] + us;
      CountConcat(vs[1..], us, id);
    }
  }

  lemma {:induction false} CountVisits(vs: seq<Visit>, id: Id)
    ensures Count(vs, id) > 0 <==> exists isDir :: Visit(id, isDir) in vs
    ensures Visited(vs, id) <==> exists isDir :: Visit(id, isDir) in vs
    decreases |vs|
  {
    if k :| 0 <= k < |vs| && vs[k].id == id {
      assert vs[k] == Visit(id, vs[k].isDir);
    }
    if vs == [] {
    } else {
      assert vs == [vs[0]] + vs[1..];
      CountVisits(vs[1..], id);
      assert vs[0] == Visit(vs[0].id, vs[0].isDir);
    }
  }

  /** An object with one name below n is visited at most once. */
  lemma {:induction false} WalkOnce(n: Node, id: Id)
    requires Once(n, id)
    ensures Count(Walk(n), id) <= 1
    decreases n, 0
  {
    match n
    case File(i) => assert [Visit(i, false)][1..] == [];
    case Symlink(_) =>
    case Directory(i, kids) =>
      assert ([Visit(i, true)] + WalkAll(kids))[1..] == WalkAll(kids);
      forall j, s, k, t | 0 <= j < |kids| && 0 <= k < |kids| && Holds(kids[j], s, id) && Holds(kids[k], t, id)
        ensures j == k && s == t && i != id
      {
        HoldsStep(n, j, s, id);
        HoldsStep(n, k, t, id);
        assert ([j] + s)[0] == ([k] + t)[0] && ([j] + s)[1..] == s && ([k] + t)[1..] == t;
        assert i == id ==> Holds(n, [], id);
      }
      WalkAllOnce(kids, id);
      if i == id {
        NothingBelowIsUncounted(kids, id);
      }
  }

  ghost predicate OnceAmong(ns: seq<Node>, id: Id) {
    forall j, s, k, t :: 0 <= j < |ns| && 0 <= k < |ns| && Holds(ns[j], s, id) && Holds(ns[k], t, id) ==> j == k && s == t
  }

  lemma {:induction false} WalkAllOnce(ns: seq<Node>, id: Id)
    requires OnceAmong(ns, id)
    ensures Count(WalkAll(ns), id) <= 1
    decreases ns, 1
  {
    if ns == [] {
    } else {
      var rest := ns[1..];
      assert forall j, s :: 0 <= j < |rest| && Holds(rest[j], s, id) ==> Holds(ns[j + 1], s, id);
      WalkOnce(ns[0], id);
      WalkAllOnce(rest, id);
      CountConcat(Walk(ns[0]), WalkAll(rest), id);
      if Count(Walk(ns[0]), id) > 0 {
        CountedIsBelow(ns[0], id);
        NothingBelowIsUncounted(rest, id);
      }
    }
  }

  lemma CountedIsBelow(n: Node, id: Id)
    requires Count(Walk(n), id) > 0
    ensures Below(n, id)
  {
    CountVisits(Walk(n), id);
    var isDir :| Visit(id, isDir) in Walk(n);
    WalkIsBelow(n, id, isDir);
    BelowHasKind(n, id);
  }

  lemma NothingBelowIsUncounted(ns: seq<Node>, id: Id)
    requires forall j, s :: 0 <= j < |ns| ==> !Holds(ns[j], s, id)
    ensures Count(WalkAll(ns), id) == 0
  {
    CountVisits(WalkAll(ns), id);
    forall isDir ensures Visit(id, isDir) !in WalkAll(ns) {
      WalkAllIsBelow(ns, id, isDir);
    }
  }

  /** A grant visits exactly the objects it is for. */
  lemma VisitsAreGranted(g: Grant, id: Id)
    ensures Visited(Visits(g), id) <==> Granted(g, id)
    ensures forall isDir :: Visit(id, isDir) in Visits(g) <==> GrantedAs(g, id, isDir)
  {
    CountVisits(Visits(g), id);
    if g.recursive {
      BelowHasKind(g.root, id);
      forall isDir ensures Visit(id, isDir) in Visits(g) <==> GrantedAs(g, id, isDir) {
        WalkIsBelow(g.root, id, isDir);
      }
    }
    assert (exists isDir :: Visit(id, isDir) in Visits(g)) <==>
           Visit(id, false) in Visits(g) || Visit(id, true) in Visits(g);
  }

  /** Which differs from what a walk through links would visit. */
  lemma LinksLeadElsewhere()
    ensures var n := Directory(0, [Symlink(File(1))]);
            BelowOrLinked(n, 1) && !Below(n, 1)
  {
    var n := Directory(0, [Symlink(File(1))]);
    var c := [n, Symlink(File(1)), File(1)];
    assert Linked(c) && c[0] == n && c[2].id == 1;
    BelowHasKind(n, 1);
    BelowAsStep(n, 1, false);
    BelowAsStep(n, 1, true);
    BelowAsStep(Symlink(File(1)), 1, false);
    BelowAsStep(Symlink(File(1)), 1, true);
  }

  // ---- which entries a sweep adds ----

  // The entries that visiting vs adds to the object, one for each visit.
  function FromVisits(uid: Uid, m: Mask, vs: seq<Visit>, id: Id): Acl {
    if vs == [] then []
    else (if vs[0].id == id then [Allow(uid, m, vs[0].isDir)] else []) + FromVisits(uid, m, vs[1..], id)
  }

  lemma {:induction false} AddedIs(a: Acls, uid: Uid, m: Mask, vs: seq<Visit>, w: World, id: Id)
    ensures AclOf(Added(a, uid, m, vs, w), id) ==
            AclOf(a, id) + if w(id).Ok() then FromVisits(uid, m, vs, id) else []
    decreases |vs|
  {
    if vs == [] {
    } else {
      var b := AddedTo(a, uid, m, vs[0], w(vs[0].id).Ok());
      AddedIs(b, uid, m, vs[1..], w, id);
    }
  }

  lemma {:induction false} FromVisitsMeans(uid: Uid, m: Mask, vs: seq<Visit>, id: Id)
    ensures |FromVisits(uid, m, vs, id)| == Count(vs, id)
    ensures forall e :: e in FromVisits(uid, m, vs, id) <==>
                        exists isDir :: Visit(id, isDir) in vs && e == Allow(uid, m, isDir)
    decreases |vs|
  {
    if vs == [] {
    } else {
      FromVisitsMeans(uid, m, vs[1..], id);
      assert vs == [vs[0]] + vs[1..];
      assert vs[0] == Visit(vs[0].id, vs[0].isDir);
    }
  }

  /** The entry gives the user exactly what the grant promises for such an object. */
  predicate EntryOf(e: Entry, uid: Uid, g: Grant, isDir: bool) {
    e.who == uid && e.allow && e.inherit == isDir && forall r :: r in e.rights <==> Promised(g, isDir, r)
  }

  lemma AllowIsPromised(uid: Uid, g: Grant, isDir: bool)
    ensures EntryOf(Allow(uid, MaskOf(g), isDir), uid, g, isDir)
  {
  }

  /** What one grant adds to the object's list: entries of the grant, and one at least if it is for the object. */
  ghost predicate SegmentFor(es: Acl, uid: Uid, g: Grant, w: World, id: Id) {
    if !w(id).Ok() then es == []
    else
      && (forall e :: e in es ==> exists isDir :: GrantedAs(g, id, isDir) && EntryOf(e, uid, g, isDir))
      && (forall isDir :: GrantedAs(g, id, isDir) ==> exists e :: e in es && EntryOf(e, uid, g, isDir))
      && (Once(g.root, id) ==> |es| <= 1)
  }

  function Flatten(ess: seq<Acl>): Acl {
    if ess == [] then [] else ess[0] + Flatten(ess[1..])
  }

  lemma GrantAddsSegment(a: Acls, uid: Uid, g: Grant, w: World, id: Id) returns (es: Acl)
    ensures AclOf(Added(a, uid, MaskOf(g), Visits(g), w), id) == AclOf(a, id) + es
    ensures SegmentFor(es, uid, g, w, id)
  {
    var m, vs := MaskOf(g), Visits(g);
    AddedIs(a, uid, m, vs, w, id);
    es := if w(id).Ok() then FromVisits(uid, m, vs, id) else [];
    FromVisitsMeans(uid, m, vs, id);
    VisitsAreGranted(g, id);
    AllowIsPromised(uid, g, false);
    AllowIsPromised(uid, g, true);
    if Once(g.root, id) {
      VisitsOnce(g, id);
    }
  }

  lemma VisitsOnce(g: Grant, id: Id)
    requires Once(g.root, id)
    ensures Count(Visits(g), id) <= 1
  {
    if g.recursive {
      WalkOnce(g.root, id);
    } else if !g.root.Symlink? {
      assert Visits(g)[1..] == [];
    }
  }

  /**
    After granting, an object's list is what it was, followed by what each grant adds in
    turn: for each grant that is for the object and whose calls succeed, entries that
    give exactly the rights promised, and one only unless the object has several names.
  */
  lemma {:induction false} GrantedEntries(a: Acls, uid: Uid, gs: seq<Grant>, ws: seq<World>, id: Id)
    returns (ess: seq<Acl>)
    requires |ws| == |gs|
    ensures |ess| == |gs| && AclOf(AddedAll(a, uid, gs, ws), id) == AclOf(a, id) + Flatten(ess)
    ensures forall k :: 0 <= k < |gs| ==> SegmentFor(ess[k], uid, gs[k], ws[k], id)
    decreases |gs|
  {
    hide SegmentFor, Added, Flatten, AclOf, Visits, MaskOf;
    if gs == [] {
      ess := [];
      FlattenNone();
    } else {
      var es := GrantAddsSegment(a, uid, gs[0], ws[0], id);
      var b := Added(a, uid, MaskOf(gs[0]), Visits(gs[0]), ws[0]);
      var more := GrantedEntries(b, uid, gs[1..], ws[1..], id);
      ess := [es] + more;
      FlattenStep(es, more);
      assert AclOf(a, id) + es + Flatten(more) == AclOf(a, id) + (es + Flatten(more));
    }
  }

  lemma FlattenNone()
    ensures Flatten([]) == []
  {
  }

  lemma FlattenStep(es: Acl, more: seq<Acl>)
    ensures Flatten([es] + more) == es + Flatten(more)
  {
    assert ([es] + more)[1..] == more;
  }

  predicate IsWrite(r: Right) {
    r.WriteData? || r.AppendData? || r.WriteAttributes? || r.WriteExtattributes? || r.Delete? || r.DeleteChild?
  }

  /** In particular, read-only grants give no right to write. */
  lemma ReadOnlyStaysReadOnly(a: Acls, uid: Uid, gs: seq<Grant>, ws: seq<World>, id: Id, j: nat)
    requires |ws| == |gs|
    requires forall k :: 0 <= k < |gs| && Granted(gs[k], id) ==> gs[k].readOnly
    requires |AclOf(a, id)| <= j < |AclOf(AddedAll(a, uid, gs, ws), id)|
    ensures var e := AclOf(AddedAll(a, uid, gs, ws), id)[j];
            forall r :: r in e.rights ==> !IsWrite(r)
  {
    var ess := GrantedEntries(a, uid, gs, ws, id);
    var e := AclOf(AddedAll(a, uid, gs, ws), id)[j];
    hide AddedAll, SegmentFor, Granted, Promised;
    assert e in Flatten(ess);
    var k := InSegment(ess, e);
    ReadOnlySegment(ess[k], uid, gs[k], ws[k], id, e);
  }

  lemma ReadOnlySegment(es: Acl, uid: Uid, g: Grant, w: World, id: Id, e: Entry)
    requires SegmentFor(es, uid, g, w, id) && e in es && (Granted(g, id) ==> g.readOnly)
    ensures forall r :: r in e.rights ==> !IsWrite(r)
  {
    hide GrantedAs, Granted;
    var isDir :| GrantedAs(g, id, isDir) && EntryOf(e, uid, g, isDir);
    SomeKind(g, id, isDir);
    forall r | r in e.rights ensures !IsWrite(r) {
      assert Promised(g, isDir, r);
    }
  }

  lemma SomeKind(g: Grant, id: Id, isDir: bool)
    requires GrantedAs(g, id, isDir)
    ensures Granted(g, id)
  {
    BelowHasKind(g.root, id);
  }

  lemma {:induction false} InSegment(ess: seq<Acl>, e: Entry) returns (k: nat)
    requires e in Flatten(ess)
    ensures k < |ess| && e in ess[k]
  {
    if e in ess[0] {
      k := 0;
    } else {
      var i := InSegment(ess[1..], e);
      k := i + 1;
    }
  }

  // ---- granting, then stripping ----

  /** Granting adds to the lists it can change, keeps other users' entries, and changes nothing else. */
  lemma {:induction false} AddedAt(a: Acls, uid: Uid, m: Mask, vs: seq<Visit>, w: World, id: Id)
    ensures var b := Added(a, uid, m, vs, w);
            && Without(AclOf(b, id), uid) == Without(AclOf(a, id), uid)
            && |AclOf(b, id)| >= |AclOf(a, id)|
            && (if Visited(vs, id) && w(id).Ok() then |AclOf(b, id)| > |AclOf(a, id)| else AclOf(b, id) == AclOf(a, id))
    decreases |vs|
  {
    if vs == [] {
    } else {
      var v := vs[0];
      var b := AddedTo(a, uid, m, v, w(v.id).Ok());
      WithoutConcat(AclOf(a, v.id), [Allow(uid, m, v.isDir)], uid);
      assert Without(AclOf(a, v.id), uid) + [] == Without(AclOf(a, v.id), uid);
      AddedAt(b, uid, m, vs[1..], w, id);
      VisitedStep(vs, id);
    }
  }

  /** Stripping takes exactly uid's entries from exactly the visited objects whose lists it can change. */
  lemma {:induction false} StrippedAt(a: Acls, uid: Uid, vs: seq<Visit>, w: World, id: Id)
    ensures AclOf(Stripped(a, uid, vs, w), id) ==
            if Visited(vs, id) && w(id).Ok() then Without(AclOf(a, id), uid) else AclOf(a, id)
    decreases |vs|
  {
    if vs == [] {
    } else {
      var v := vs[0];
      var b := StrippedFrom(a, uid, v.id, w(v.id).Ok());
      WithoutClear(AclOf(a, v.id), uid);
      WithoutClear(Without(AclOf(a, v.id), uid), uid);
      StrippedAt(b, uid, vs[1..], w, id);
      VisitedStep(vs, id);
    }
  }

  lemma HitStep(gs: seq<Grant>, ws: seq<World>, id: Id)
    requires gs != [] && |ws| == |gs|
    ensures Hit(gs, ws, id) <==> (Granted(gs[0], id) && ws[0](id).Ok()) || Hit(gs[1..], ws[1..], id)
  {
    if Hit(gs[1..], ws[1..], id) {
      var k :| 0 <= k < |gs[1..]| && Granted(gs[1..][k], id) && ws[1..][k](id).Ok();
      assert Granted(gs[k + 1], id) && ws[k + 1](id).Ok();
    }
    if Hit(gs, ws, id) && !(Granted(gs[0], id) && ws[0](id).Ok()) {
      var k :| 0 <= k < |gs| && Granted(gs[k], id) && ws[k](id).Ok();
      assert Granted(gs[1..][k - 1], id) && ws[1..][k - 1](id).Ok();
    }
  }

  lemma {:induction false} AddedAllAt(a: Acls, uid: Uid, gs: seq<Grant>, ws: seq<World>, id: Id)
    requires |ws| == |gs|
    ensures var b := AddedAll(a, uid, gs, ws);
            && Without(AclOf(b, id), uid) == Without(AclOf(a, id), uid)
            && |AclOf(b, id)| >= |AclOf(a, id)|
            && (if Hit(gs, ws, id) then |AclOf(b, id)| > |AclOf(a, id)| else AclOf(b, id) == AclOf(a, id))
    decreases |gs|
  {
    if gs == [] {
    } else {
      VisitsAreGranted(gs[0], id);
      AddedAt(a, uid, MaskOf(gs[0]), Visits(gs[0]), ws[0], id);
      AddedAllAt(Added(a, uid, MaskOf(gs[0]), Visits(gs[0]), ws[0]), uid, gs[1..], ws[1..], id);
      HitStep(gs, ws, id);
    }
  }

  lemma {:induction false} StrippedAllAt(a: Acls, uid: Uid, gs: seq<Grant>, ws: seq<World>, id: Id)
    requires |ws| == |gs|
    ensures AclOf(StrippedAll(a, uid, gs, ws), id) ==
            if Hit(gs, ws, id) then Without(AclOf(a, id), uid) else AclOf(a, id)
    decreases |gs|
  {
    if gs == [] {
    } else {
      var b := Stripped(a, uid, Visits(gs[0]), ws[0]);
      VisitsAreGranted(gs[0], id);
      StrippedAt(a, uid, Visits(gs[0]), ws[0], id);
      StrippedAllAt(b, uid, gs[1..], ws[1..], id);
      HitStep(gs, ws, id);
      WithoutClear(Without(AclOf(a, id), uid), uid);
    }
  }

  /**
    Granting any list of paths, overlapping or not, and stripping the same list, some
    calls failing or not.  An object that no grant is for keeps its list throughout, and
    so do other users' entries.  Every list is restored, entry by entry in order, exactly
    if each one that could be stripped had no entry of the user to begin with, and each
    one that could not be stripped had not been extended either.
  */
  lemma StripUndoesGrantExact(a: Acls, uid: Uid, gs: seq<Grant>, adding: seq<World>, stripping: seq<World>)
    requires |adding| == |gs| == |stripping|
    ensures var b := AddedAll(a, uid, gs, adding);
            var c := StrippedAll(b, uid, gs, stripping);
            && (forall id :: !Reached(gs, id) ==> AclOf(a, id) == AclOf(b, id) == AclOf(c, id))
            && (forall id :: Without(AclOf(a, id), uid) == Without(AclOf(b, id), uid) == Without(AclOf(c, id), uid))
            && ((forall id :: AclOf(c, id) == AclOf(a, id)) <==>
                (forall id :: if Hit(gs, stripping, id) then Clear(AclOf(a, id), uid) else !Hit(gs, adding, id)))
  {
    var b := AddedAll(a, uid, gs, adding);
    var c := StrippedAll(b, uid, gs, stripping);
    forall id
      ensures !Reached(gs, id) ==> AclOf(a, id) == AclOf(b, id) == AclOf(c, id)
      ensures Without(AclOf(a, id), uid) == Without(AclOf(b, id), uid) == Without(AclOf(c, id), uid)
      ensures AclOf(c, id) == AclOf(a, id) <==>
              if Hit(gs, stripping, id) then Clear(AclOf(a, id), uid) else !Hit(gs, adding, id)
    {
      AddedAllAt(a, uid, gs, adding, id);
      StrippedAllAt(b, uid, gs, stripping, id);
      WithoutClear(AclOf(a, id), uid);
      WithoutClear(Without(AclOf(b, id), uid), uid);
    }
  }

  /** When no call fails: exactly if no object a grant is for had an entry of the user. */
  lemma StripUndoesGrant(a: Acls, uid: Uid, gs: seq<Grant>, adding: seq<World>, stripping: seq<World>)
    requires |adding| == |gs| == |stripping|
    requires forall k, id :: 0 <= k < |gs| ==> adding[k](id).Ok() && stripping[k](id).Ok()
    ensures var c := StrippedAll(AddedAll(a, uid, gs, adding), uid, gs, stripping);
            (forall id :: AclOf(c, id) == AclOf(a, id)) <==>
            (forall id :: Reached(gs, id) ==> Clear(AclOf(a, id), uid))
  {
    StripUndoesGrantExact(a, uid, gs, adding, stripping);
    forall id ensures Hit(gs, stripping, id) <==> Reached(gs, id)
              ensures Hit(gs, adding, id) <==> Reached(gs, id) {
      if Reached(gs, id) {
        var k :| 0 <= k < |gs| && Granted(gs[k], id);
        assert adding[k](id).Ok() && stripping[k](id).Ok();
      }
    }
  }

  // ---- two ways not to be restored ----

  const ONE_FILE := [Grant(File(0), true, false)]
  const GOOD: World := _ => Answers(true, true, true)
  const STUCK: World := _ => Answers(true, true, false)

  /** An entry the user had before the grant is gone afterwards. */
  lemma EarlierEntryIsLost(uid: Uid)
    ensures var a: Acls := map[0 := [Allow(uid, READ, false)]];
            AclOf(StrippedAll(AddedAll(a, uid, ONE_FILE, [GOOD]), uid, ONE_FILE, [GOOD]), 0) == []
  {
    var a: Acls := map[0 := [Allow(uid, READ, false)]];
    OneFileHit(GOOD);
    AddedAllAt(a, uid, ONE_FILE, [GOOD], 0);
    StrippedAllAt(AddedAll(a, uid, ONE_FILE, [GOOD]), uid, ONE_FILE, [GOOD], 0);
  }

  /** A removal that fails leaves the granted entry behind. */
  lemma StuckEntryStays(uid: Uid)
    ensures AclOf(StrippedAll(AddedAll(map[], uid, ONE_FILE, [GOOD]), uid, ONE_FILE, [STUCK]), 0) != []
  {
    OneFileHit(GOOD);
    OneFileHit(STUCK);
    AddedAllAt(map[], uid, ONE_FILE, [GOOD], 0);
    StrippedAllAt(AddedAll(map[], uid, ONE_FILE, [GOOD]), uid, ONE_FILE, [STUCK], 0);
  }

  lemma OneFileHit(w: World)
    ensures Hit(ONE_FILE, [w], 0) <==> w(0).Ok()
  {
    assert Granted(ONE_FILE[0], 0);
    if w(0).Ok() {
      assert [w][0](0).Ok();
    }
  }
}
