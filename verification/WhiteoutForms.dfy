/**
  The two forms of whiteout, devices and sidecars: two mounts that differ in the form
  only, run through the same operations.
*/
module WhiteoutForms {
  import opened RawFs
  import opened OverlayView
  import opened OverlayEdits
  import opened DiskAnswers
  import opened OverlayRuns

  /** The same operations on the same disk; only the answers of mknod may differ. */
  predicate SameButMknod(cs: seq<Call>, ds: seq<Call>) {
    && |cs| == |ds|
    && forall i :: 0 <= i < |cs| ==> cs[i].op == ds[i].op && cs[i].disk == ds[i].disk
  }

  // ---- exactly when two such runs agree ----

  /** A call answers the same on both mounts, and leaves the same, exactly if both or neither refuse it. */
  lemma StepsAgreeExact(l: Tree, m: Mount, n: Mount, c: Call, d: Call)
    requires Inv(l, m.upper) && Inv(l, n.upper) && Layered(l, m.upper) == Layered(l, n.upper)
    requires c.op == d.op && CallerOk(View(l, m.upper), c.op)
    ensures Step(l, m, c).err == Step(l, n, d).err <==> RefusalAt(l, m.upper, c) == RefusalAt(l, n.upper, d)
    ensures Step(l, m, c).err == Step(l, n, d).err ==>
              Layered(l, Step(l, m, c).mount.upper) == Layered(l, Step(l, n, d).mount.upper)
    ensures Inv(l, Step(l, m, c).mount.upper) && Inv(l, Step(l, n, d).mount.upper)
  {
    hide *;
    SameView(l, m, n);
    if RefusalAt(l, m.upper, c) == RefusalAt(l, n.upper, d) {
      SameRefusal(l, m, n, c, d);
    } else {
      OverlayIsAPlainTree(l, m, c);
      OverlayIsAPlainTree(l, n, d);
      OtherRefusal(l, m, n, c, d);
    }
  }

  lemma SameView(l: Tree, m: Mount, n: Mount)
    requires Layered(l, m.upper) == Layered(l, n.upper)
    ensures View(l, m.upper) == View(l, n.upper)
  {
  }

  lemma SameRefusal(l: Tree, m: Mount, n: Mount, c: Call, d: Call)
    requires Inv(l, m.upper) && Inv(l, n.upper) && Layered(l, m.upper) == Layered(l, n.upper)
    requires c.op == d.op && CallerOk(View(l, m.upper), c.op)
    requires RefusalAt(l, m.upper, c) == RefusalAt(l, n.upper, d)
    ensures Step(l, m, c).err == Step(l, n, d).err
    ensures Layered(l, Step(l, m, c).mount.upper) == Layered(l, Step(l, n, d).mount.upper)
    ensures Inv(l, Step(l, m, c).mount.upper) && Inv(l, Step(l, n, d).mount.upper)
  {
    hide LayeredStep, Step, Refusal, Inv;
    StepRefines(l, m, c);
    StepRefines(l, n, d);
    LayersFollowRefusal(Layered(l, m.upper), c.op, CopyOf(l, m.upper, c), CopyOf(l, n.upper, d));
  }

  lemma OtherRefusal(l: Tree, m: Mount, n: Mount, c: Call, d: Call)
    requires Inv(l, m.upper) && Inv(l, n.upper) && Layered(l, m.upper) == Layered(l, n.upper)
    requires c.op == d.op && CallerOk(View(l, m.upper), c.op)
    requires RefusalAt(l, m.upper, c) != RefusalAt(l, n.upper, d)
    ensures var t := View(l, m.upper);
            RefusedOrDone(t, c.op, RefusalAt(l, m.upper, c)).err !=
            RefusedOrDone(t, d.op, RefusalAt(l, n.upper, d)).err
  {
    hide PlainStep, Inv, Layered;
    if RefusalAt(l, m.upper, c) == OK {
      RefusedWouldSucceed(l, n, d);
    } else if RefusalAt(l, n.upper, d) == OK {
      RefusedWouldSucceed(l, m, c);
    }
  }

  // The layered step depends on copying only through the refusal.
  lemma LayersFollowRefusal(a: Layers, op: Op, copy: Errno, other: Errno)
    requires CallerOk(Erase(a), op) && Refusal(a, op, copy) == Refusal(a, op, other)
    ensures LayeredStep(a, op, copy) == LayeredStep(a, op, other)
  {
  }

  // What is refused for its copying would have succeeded otherwise.
  lemma RefusedWouldSucceed(l: Tree, m: Mount, c: Call)
    requires Inv(l, m.upper) && CallerOk(View(l, m.upper), c.op)
    requires RefusalAt(l, m.upper, c) != OK
    ensures NeverCopied(View(l, m.upper), c.op.path) || PlainStep(View(l, m.upper), c.op).err == OK
    ensures NeverCopied(View(l, m.upper), c.op.path) ==> forall copy :: Refusal(Layered(l, m.upper), c.op, copy) == EPERM
  {
    hide Inv;
    RefusalMeans(l, m.upper, c);
    InView(l, m.upper, c.op.path);
    SeenIsLayer(l, m.upper, c.op.path);
  }

  /**
    Two mounts with the same layers refuse a call alike, except when it copies a file and
    one upper tree has a temporary name left for it and the other has none.
  */
  lemma RefusalsAgreeExact(l: Tree, u: Tree, v: Tree, c: Call, d: Call)
    requires Inv(l, u) && Inv(l, v) && Layered(l, u) == Layered(l, v)
    requires c.op == d.op && c.disk == d.disk
    ensures var p := c.op.path;
            RefusalAt(l, u, c) == RefusalAt(l, v, d) <==>
            !(&& c.op.CopiesUp() && Serve(l, u, p).Lower? && Serve(l, u, p).node.Reg?
              && c.disk.open == OK && TempFree(u, p, c.disk.pid) != TempFree(v, p, c.disk.pid)
              && !ExistsAnyway(|Serve(l, u, p).node.data|, c.disk))
  {
    hide Inv, Layered, Serve, CopyAnswer, ExistsAnyway, TempFree;
    var p := c.op.path;
    SeenIsLayer(l, u, p);
    SeenIsLayer(l, v, p);
    if Serve(l, u, p).Lower? {
      LowerIsBare(l, u, p);
      if l[p].Reg? {
        CopyAnswerDiffers(u, v, p, |l[p].data|, c.disk);
      }
    }
  }

  /**
    Two legal runs of the same operations on mounts with the same layers give the same
    answers exactly if the same calls are refused, and then leave the same layers.
  */
  lemma {:induction false} RunsAgreeExact(l: Tree, m: Mount, n: Mount, cs: seq<Call>, ds: seq<Call>)
    requires Inv(l, m.upper) && Inv(l, n.upper) && Layered(l, m.upper) == Layered(l, n.upper)
    requires SameButMknod(cs, ds) && RunOk(l, m, cs) && RunOk(l, n, ds)
    ensures Run(l, m, cs).errs == Run(l, n, ds).errs <==> Refusals(l, m, cs) == Refusals(l, n, ds)
    ensures Run(l, m, cs).errs == Run(l, n, ds).errs ==>
              Layered(l, Run(l, m, cs).mount.upper) == Layered(l, Run(l, n, ds).mount.upper)
    decreases |cs|
  {
    if cs == [] {
    } else {
      var c, d := cs[0], ds[0];
      var o, q := Step(l, m, c), Step(l, n, d);
      var es, fs := Run(l, o.mount, cs[1..]).errs, Run(l, q.mount, ds[1..]).errs;
      StepsAgreeExact(l, m, n, c, d);
      FirstAndRest(o.err, es, q.err, fs);
      FirstAndRest(RefusalAt(l, m.upper, c), Refusals(l, o.mount, cs[1..]),
                   RefusalAt(l, n.upper, d), Refusals(l, q.mount, ds[1..]));
      if o.err == q.err {
        RunsAgreeExact(l, o.mount, q.mount, cs[1..], ds[1..]);
      }
    }
  }

  lemma FirstAndRest(e: Errno, es: seq<Errno>, f: Errno, fs: seq<Errno>)
    ensures [e] + es == [f] + fs <==> e == f && es == fs
  {
    assert ([e] + es)[1..] == es && ([f] + fs)[1..] == fs;
    assert ([e] + es)[0] == e && ([f] + fs)[0] == f;
  }

  // ---- where whiteouts can stand ----

  /** A whiteout of either form stands at p. */
  predicate WhitedAt(u: Tree, p: Path)
    requires p != []
  {
    HasSidecar(u, p) || At(u, p) == Some(Whiteout)
  }

  lemma {:induction false} WithDirsWhites(l: Tree, u: Tree, q: Path, x: Path)
    requires x != []
    ensures WhitedAt(WithDirs(l, u, q), x) <==> WhitedAt(u, x)
    decreases |q|
  {
    if q in u || q == [] {
    } else {
      WithDirsWhites(l, u, Parent(q), x);
      WithDirsKeys(l, u, Parent(q), q);
      WithDirsKeys(l, u, q, x);
      WithDirsKeys(l, u, q, Sidecar(x));
    }
  }

  lemma CopyUpWhites(l: Tree, u: Tree, p: Path, copy: Errno, x: Path)
    requires UserPath(x) && (p == [] || UserPath(p))
    ensures WhitedAt(CopyUpStep(l, u, p, copy).tree, x) ==> WhitedAt(u, x)
  {
    if p != [] {
      WithDirsWhites(l, u, Parent(p), x);
    }
  }

  lemma PutWhites(l: Tree, u: Tree, p: Path, n: Node, x: Path)
    requires UserPath(x) && UserPath(p) && n != Whiteout
    ensures WhitedAt(Put(l, u, p, n), x) ==> WhitedAt(u, x)
  {
    hide WithDirs, PutNode, WhitedAt;
    WithDirsWhites(l, u, Parent(p), x);
    PutNodeWhites(l, WithDirs(l, u, Parent(p)), p, n, x);
  }

  lemma PutNodeWhites(l: Tree, u: Tree, p: Path, n: Node, x: Path)
    requires UserPath(x) && UserPath(p) && n != Whiteout
    ensures WhitedAt(PutNode(l, u, p, n), x) ==> WhitedAt(u, x)
  {
    SidecarIsNotOpq(x, p);
    assert p != Sidecar(x) && x != Opq(p);
  }

  lemma DropWhites(l: Tree, u: Tree, p: Path, dev: bool, x: Path)
    requires UserPath(x) && UserPath(p)
    ensures WhitedAt(Drop(l, u, p, dev), x) ==> WhitedAt(u, x) || x in l
  {
    WithDirsWhites(l, Cut(u, p), Parent(p), x);
    if Sidecar(p) == Sidecar(x) {
      assert HiddenBy(Sidecar(p)) == HiddenBy(Sidecar(x));
    }
  }

  /** No operation whites out what lower does not have. */
  lemma WhiteoutsOnlyOverLower(l: Tree, m: Mount, c: Call, x: Path)
    requires CallerOk(View(l, m.upper), c.op) && UserPath(x)
    ensures WhitedAt(Step(l, m, c).mount.upper, x) ==> WhitedAt(m.upper, x) || x in l
  {
    hide Put, Drop, CopyUpStep, WhitedAt, PlainStep, Resolve, View;
    var u, p := m.upper, c.op.path;
    match c.op
    case MkdirOp(_, mode) => PutWhites(l, u, p, Dir(mode % PERMS), x);
    case CreateOp(_, mode) => PutWhites(l, u, p, Reg(mode % PERMS, []), x);
    case SymlinkOp(_, target) => PutWhites(l, u, p, Link(target), x);
    case UnlinkOp(_) => DropWhites(l, u, p, m.canMknod && !c.deny, x);
    case RmdirOp(_) => DropWhites(l, u, p, m.canMknod && !c.deny, x);
    case RenameOp(_, to) => RenameWhites(l, m, c, x);
    case _ => ChangeWhites(l, m, c, x);
  }

  lemma ChangeWhites(l: Tree, m: Mount, c: Call, x: Path)
    requires CallerOk(View(l, m.upper), c.op) && Changes(c.op) && UserPath(x)
    ensures WhitedAt(Step(l, m, c).mount.upper, x) ==> WhitedAt(m.upper, x)
  {
    hide CopyUpStep, View, PlainStep;
    var p := c.op.path;
    var d := CopyUpStep(l, m.upper, p, CopyOf(l, m.upper, c));
    CopyUpWhites(l, m.upper, p, CopyOf(l, m.upper, c), x);
    if p in d.tree {
      PlainSet(d.tree, c.op);
    } else {
      NothingToChange(d.tree, c.op);
    }
  }

  lemma NothingToChange(t: Tree, op: Op)
    requires Changes(op) && op.path !in t
    ensures PlainStep(t, op).tree == t
  {
  }

  lemma RenameWhites(l: Tree, m: Mount, c: Call, x: Path)
    requires CallerOk(View(l, m.upper), c.op) && c.op.RenameOp? && UserPath(x)
    ensures WhitedAt(Step(l, m, c).mount.upper, x) ==> WhitedAt(m.upper, x) || x in l
  {
    hide Put, Drop, WhitedAt, PlainStep, View;
    var p, to := c.op.path, c.op.to;
    var d := CopyUpStep(l, m.upper, p, CopyOf(l, m.upper, c));
    CopyUpWhites(l, m.upper, p, CopyOf(l, m.upper, c), x);
    if d.err == OK && p in d.tree {
      PutWhites(l, d.tree, to, d.tree[p], x);
      DropWhites(l, Put(l, d.tree, to, d.tree[p]), p, m.canMknod && !c.deny, x);
    }
  }

  // ---- when the form of whiteouts cannot matter ----

  /** The path whose being whited out takes the temporary name t; ".wh" has sidecars for temporary names. */
  function TempKey(t: Path): Path
    requires t != []
  {
    if IsMarker(Last(t)) then HiddenBy(t) else t
  }

  lemma TempKeyIsPlain(p: Path, pid: nat, k: nat)
    requires UserPath(p)
    ensures UserPath(TempKey(TempPath(p, pid, k)))
  {
    var n, w := Last(p), Last(TempPath(p, pid, k));
    assert w == n + TempSuffix(pid, k);
    assert TempSuffix(pid, k)[0] == TempSuffix(pid, k)[..9][0] == '.';
    assert TempSuffix(pid, k)[1] == TempSuffix(pid, k)[..9][1] == 'j';
    PrefixOfConcat(WH, n, TempSuffix(pid, k));
    if IsMarker(w) {
      assert w[1] == 'w' && w[2] == 'h';
      assert |n| == 3;
      assert w[4..][0] == 'j';
    }
  }

  lemma PrefixOfConcat(a: string, s: string, t: string)
    ensures |a| <= |s| ==> (a <= s <==> a <= s + t)
  {
    if |a| <= |s| {
      assert (s + t)[..|a|] == s[..|a|];
    }
  }

  lemma MarkerIsSidecar(t: Path)
    requires t != [] && IsMarker(Last(t))
    ensures Sidecar(HiddenBy(t)) == t
  {
    assert Last(t) == WH + Last(t)[4..];
  }

  /** No temporary name of process pid is, or ever will be, taken by a whiteout. */
  ghost predicate TempsClear(l: Tree, u: Tree, pid: nat) {
    forall p: Path, k: nat {:trigger TempPath(p, pid, k)} :: UserPath(p) ==>
      TempKey(TempPath(p, pid, k)) !in l && !WhitedAt(u, TempKey(TempPath(p, pid, k)))
  }

  // Then the layers tell whether a temporary name is taken.
  lemma TempTaken(l: Tree, u: Tree, p: Path, pid: nat, k: nat)
    requires Inv(l, u) && UserPath(p) && !WhitedAt(u, TempKey(TempPath(p, pid, k)))
    ensures TempPath(p, pid, k) in u <==> LayerAt(Layered(l, u), TempPath(p, pid, k)).Upper?
  {
    var t := TempPath(p, pid, k);
    SeenIsLayer(l, u, t);
    SeenStep(l, u, t);
    assert t in u ==> EntryOk(u, t);
    if IsMarker(Last(t)) {
      MarkerIsSidecar(t);
    } else if t in u {
      UpperWins(l, u, t);
    }
  }

  lemma SameTempsFree(l: Tree, u: Tree, v: Tree, p: Path, pid: nat)
    requires Inv(l, u) && Inv(l, v) && Layered(l, u) == Layered(l, v) && UserPath(p)
    requires TempsClear(l, u, pid) && TempsClear(l, v, pid)
    ensures TempFree(u, p, pid) == TempFree(v, p, pid)
  {
    hide Inv, Layered, WhitedAt, TempKey;
    forall k: nat ensures TempPath(p, pid, k) in u <==> TempPath(p, pid, k) in v {
      TempTaken(l, u, p, pid, k);
      TempTaken(l, v, p, pid, k);
    }
  }

  lemma TempsStayClear(l: Tree, m: Mount, c: Call, pid: nat)
    requires CallerOk(View(l, m.upper), c.op) && TempsClear(l, m.upper, pid)
    ensures TempsClear(l, Step(l, m, c).mount.upper, pid)
  {
    hide Step, WhitedAt, CallerOk;
    forall p: Path, k: nat {:trigger TempPath(p, pid, k)} | UserPath(p)
      ensures !WhitedAt(Step(l, m, c).mount.upper, TempKey(TempPath(p, pid, k)))
    {
      TempKeyIsPlain(p, pid, k);
      WhiteoutsOnlyOverLower(l, m, c, TempKey(TempPath(p, pid, k)));
    }
  }

  /**
    Device whiteouts and sidecar whiteouts are interchangeable: two runs of the same
    operations that differ in where mknod is denied give the same tree and the same
    answers, and each is a legal run exactly when the other is.  The names that copying
    uses for its temporary files must not be names of the lower layer.
  */
  lemma {:induction false} WhiteoutsInterchange(l: Tree, m: Mount, n: Mount, cs: seq<Call>, ds: seq<Call>, pid: nat)
    requires Inv(l, m.upper) && Inv(l, n.upper) && Layered(l, m.upper) == Layered(l, n.upper)
    requires SameButMknod(cs, ds) && RunOk(l, m, cs)
    requires TempsClear(l, m.upper, pid) && TempsClear(l, n.upper, pid)
    requires forall i :: 0 <= i < |cs| ==> cs[i].disk.pid == pid
    ensures RunOk(l, n, ds)
    ensures Layered(l, Run(l, m, cs).mount.upper) == Layered(l, Run(l, n, ds).mount.upper)
    ensures View(l, Run(l, m, cs).mount.upper) == View(l, Run(l, n, ds).mount.upper)
    ensures Run(l, m, cs).errs == Run(l, n, ds).errs
    decreases |cs|
  {
    hide Inv, Layered, TempsClear, CallerOk, Step;
    if cs == [] {
    } else {
      var c, d := cs[0], ds[0];
      SameView(l, m, n);
      StepsAgree(l, m, n, c, d, pid);
      WhiteoutsInterchange(l, Step(l, m, c).mount, Step(l, n, d).mount, cs[1..], ds[1..], pid);
    }
  }

  lemma StepsAgree(l: Tree, m: Mount, n: Mount, c: Call, d: Call, pid: nat)
    requires Inv(l, m.upper) && Inv(l, n.upper) && Layered(l, m.upper) == Layered(l, n.upper)
    requires c.op == d.op && c.disk == d.disk && CallerOk(View(l, m.upper), c.op) && c.disk.pid == pid
    requires TempsClear(l, m.upper, pid) && TempsClear(l, n.upper, pid)
    ensures CallerOk(View(l, n.upper), d.op)
    ensures var o, q := Step(l, m, c), Step(l, n, d);
            && o.err == q.err && Layered(l, o.mount.upper) == Layered(l, q.mount.upper)
            && Inv(l, o.mount.upper) && Inv(l, q.mount.upper)
            && TempsClear(l, o.mount.upper, pid) && TempsClear(l, q.mount.upper, pid)
  {
    hide Inv, Layered, TempsClear, Step, RefusalAt, TempFree, View;
    var p := c.op.path;
    SameView(l, m, n);
    StepsAgreeExact(l, m, n, c, d);
    RefusalsAgreeExact(l, m.upper, n.upper, c, d);
    if Serve(l, m.upper, p).Lower? {
      LowerIsBare(l, m.upper, p);
      SameTempsFree(l, m.upper, n.upper, p, pid);
    }
    TempsStayClear(l, m, c, pid);
    TempsStayClear(l, n, d, pid);
  }

  // ---- a mount on which it does matter ----

  function Temps(): set<Path> {
    set k | 0 <= k < ATTEMPTS :: TempPath(["f"], 0, k)
  }

  function CrowdedLower(): Tree {
    map x | x in {[], ["f"]} + Temps() :: if x == [] then DIR755 else FILE644
  }

  // The hundred neighbours of "f" deleted, by devices here ...
  function DeviceUpper(): Tree {
    map x | x in {[]} + Temps() :: if x == [] then DIR755 else Whiteout
  }

  // ... and by sidecars there.
  function SidecarUpper(): Tree {
    var ss := set t | t in Temps() && t != [] :: Sidecar(t);
    map x | x in {[]} + ss :: if x == [] then DIR755 else MARKER
  }

  lemma TempsArePlain(t: Path)
    requires t in Temps()
    ensures |t| == 1 && UserPath(t) && t != ["f"]
  {
    hide TempSuffix;
    var k :| 0 <= k < ATTEMPTS && t == TempPath(["f"], 0, k);
    assert Last(t) == "f" + TempSuffix(0, k);
    assert Last(t)[0] == 'f';
  }

  lemma DevicesOk()
    ensures Inv(CrowdedLower(), DeviceUpper())
  {
    var u := DeviceUpper();
    forall t | t in Temps() ensures |t| == 1 && UserPath(t) {
      TempsArePlain(t);
    }
    forall x {:trigger EntryOk(u, x)} | x in u && x != [] ensures |x| == 1 && EntryOk(u, x) {
    }
    assert !UserPath(Opq([]));
    FlatInv(CrowdedLower(), u);
  }

  lemma SidecarsOk()
    ensures Inv(CrowdedLower(), SidecarUpper())
  {
    var v := SidecarUpper();
    hide Temps;
    forall t | t in Temps() ensures |t| == 1 && UserPath(t) && Sidecar(t) != Opq([]) {
      TempsArePlain(t);
      SidecarIsNotOpq(t, []);
    }
    forall x {:trigger EntryOk(v, x)} | x in v && x != [] ensures |x| == 1 && EntryOk(v, x) {
    }
    FlatInv(CrowdedLower(), v);
  }

  /** In both, the hundred names are whited out, and "f" is left to lower. */
  ghost predicate Crowded(u: Tree) {
    && Inv(CrowdedLower(), u) && At(u, []) == Some(DIR755)
    && (forall t {:trigger t in Temps()} :: t in Temps() ==> t != [] && UserPath(t) && WhitedAt(u, t))
    && (forall x :: x in u && x != [] ==> |x| == 1 && (IsMarker(Last(x)) || u[x] == Whiteout))
    && ["f"] !in u && Sidecar(["f"]) !in u
  }

  lemma DevicesCrowd()
    ensures Crowded(DeviceUpper())
  {
    hide Inv, Temps, DeviceUpper, CrowdedLower, UserPath, IsMarker, Sidecar;
    DevicesOk();
    forall t {:trigger t in Temps()} | t in Temps() ensures t != [] && UserPath(t) && WhitedAt(DeviceUpper(), t) {
      TempsArePlain(t);
      DevicesStand(t);
    }
    forall x | x in DeviceUpper() && x != []
      ensures |x| == 1 && DeviceUpper()[x] == Whiteout && x != Sidecar(["f"]) && x != ["f"]
    {
      DevicesStand(x);
    }
    DevicesStand([]);
  }

  lemma DevicesStand(x: Path)
    ensures At(DeviceUpper(), []) == Some(DIR755)
    ensures x in Temps() && x != [] ==> At(DeviceUpper(), x) == Some(Whiteout)
    ensures x in DeviceUpper() && x != [] ==>
              |x| == 1 && DeviceUpper()[x] == Whiteout && x != Sidecar(["f"]) && x != ["f"]
  {
    hide Temps;
    if x in Temps() {
      TempsArePlain(x);
    }
  }

  lemma SidecarsCrowd()
    ensures Crowded(SidecarUpper())
  {
    hide Inv, Temps, SidecarUpper, CrowdedLower, UserPath, IsMarker, Sidecar, WhitedAt;
    SidecarsOk();
    forall t {:trigger t in Temps()} | t in Temps() ensures t != [] && UserPath(t) && WhitedAt(SidecarUpper(), t) {
      TempsArePlain(t);
      SidecarStands(t);
    }
    forall x | x in SidecarUpper() && x != [] ensures |x| == 1 && IsMarker(Last(x)) && x != Sidecar(["f"]) && x != ["f"] {
      SidecarsOnly(x);
    }
    SidecarRoot();
  }

  lemma SidecarRoot()
    ensures At(SidecarUpper(), []) == Some(DIR755)
  {
  }

  lemma SidecarStands(t: Path)
    requires t in Temps() && t != []
    ensures WhitedAt(SidecarUpper(), t)
  {
    hide Temps;
  }

  lemma SidecarsOnly(x: Path)
    requires x in SidecarUpper() && x != []
    ensures |x| == 1 && IsMarker(Last(x)) && x != Sidecar(["f"]) && x != ["f"]
  {
    hide Temps;
    var t :| t in Temps() && t != [] && x == Sidecar(t);
    TempsArePlain(t);
    assert HiddenBy(Sidecar(["f"])) == ["f"] != HiddenBy(Sidecar(t));
  }

  lemma CrowdedSeen(u: Tree, x: Path)
    requires Crowded(u)
    ensures Seen(CrowdedLower(), u, x) ==
            if x == [] then Upper(DIR755) else if x == ["f"] then Lower(FILE644) else Absent
  {
    hide Inv, Temps, CrowdedLower, Seen, Serve;
    var l := CrowdedLower();
    SeenStep(l, u, []);
    SeenStep(l, u, x);
    CrowdedFiles(x);
    assert Parent(["f"]) == [];
    assert x == ["f"] ==> !OpaqueAbove(u, x) && UserPath(x);
    assert |x| == 1 ==> Parent(x) == [];
  }

  lemma CrowdedFiles(x: Path)
    ensures var l := CrowdedLower();
            x in l <==> x == [] || x == ["f"] || x in Temps()
    ensures x in CrowdedLower() && x != [] ==> |x| == 1 && CrowdedLower()[x] == FILE644
  {
    hide Temps;
    if x in Temps() {
      TempsArePlain(x);
    }
  }

  function ChmodCall(deny: bool): Call {
    Call(ChmodOp(["f"], 0), deny, Disk(0, OK, [], OK))
  }

  lemma CrowdedCall(u: Tree, deny: bool)
    requires Crowded(u)
    ensures CallerOk(View(CrowdedLower(), u), ChmodCall(deny).op) && ["f"] in View(CrowdedLower(), u)
    ensures RefusalAt(CrowdedLower(), u, ChmodCall(deny)) ==
            if TempFree(u, ["f"], 0) then OK else EEXIST
  {
    hide Inv, Temps, TempFree, View, Layered, Serve, CrowdedLower, WhitedAt, Streamed;
    NothingFails();
    var l := CrowdedLower();
    CrowdedSeen(u, []);
    CrowdedSeen(u, ["f"]);
    CrowdedFiles(["f"]);
    InView(l, u, []);
    InView(l, u, ["f"]);
    SeenIsLayer(l, u, ["f"]);
    assert Parent(["f"]) == [];
  }

  lemma CrowdedAnswer(u: Tree, canMknod: bool, deny: bool)
    requires Crowded(u)
    ensures var l, c := CrowdedLower(), ChmodCall(deny);
            && Inv(l, u) && CallerOk(View(l, u), c.op)
            && Step(l, Mount(u, canMknod), c).err == if TempFree(u, ["f"], 0) then OK else EEXIST
  {
    hide Inv, Step, RefusalAt, View, TempFree, CrowdedLower;
    CrowdedCall(u, deny);
    OverlayIsAPlainTree(CrowdedLower(), Mount(u, canMknod), ChmodCall(deny));
  }

  /**
    Otherwise the form can be seen: with the hundred names deleted as devices, a file can
    no longer be copied up; with the same names deleted by sidecars, it can.
  */
  lemma FormsCanDiffer(deny: bool)
    ensures var l, u, v, c := CrowdedLower(), DeviceUpper(), SidecarUpper(), ChmodCall(deny);
            && Inv(l, u) && Inv(l, v) && Layered(l, u) == Layered(l, v)
            && CallerOk(View(l, u), c.op) && CallerOk(View(l, v), c.op)
            && Step(l, Mount(u, true), c).err == EEXIST
            && Step(l, Mount(v, false), c).err == OK
  {
    hide *;
    DevicesCrowd();
    SidecarsCrowd();
    SameCrowd(DeviceUpper(), SidecarUpper());
    CrowdedAnswer(DeviceUpper(), true, deny);
    CrowdedAnswer(SidecarUpper(), false, deny);
    CrowdedTemps();
  }

  lemma SameCrowd(u: Tree, v: Tree)
    requires Crowded(u) && Crowded(v)
    ensures Inv(CrowdedLower(), u) && Inv(CrowdedLower(), v)
    ensures Layered(CrowdedLower(), u) == Layered(CrowdedLower(), v)
  {
    hide Inv, Temps, CrowdedLower;
    forall x ensures Seen(CrowdedLower(), u, x) == LayerAt(Layered(CrowdedLower(), v), x) {
      CrowdedSeen(u, x);
      CrowdedSeen(v, x);
      SeenIsLayer(CrowdedLower(), v, x);
    }
    LayersFromSeen(CrowdedLower(), u, Layered(CrowdedLower(), v));
  }

  lemma CrowdedTemps()
    ensures !TempFree(DeviceUpper(), ["f"], 0) && TempFree(SidecarUpper(), ["f"], 0)
  {
    forall k | 0 <= k < ATTEMPTS ensures TempPath(["f"], 0, k) in DeviceUpper() {
      assert TempPath(["f"], 0, k) in Temps();
    }
    FirstTempFree();
  }

  lemma FirstTempFree()
    ensures TempPath(["f"], 0, 0) !in SidecarUpper()
  {
    hide SidecarUpper, TempSuffix;
    var t := TempPath(["f"], 0, 0);
    assert t in Temps();
    TempsArePlain(t);
    if t in SidecarUpper() {
      SidecarsOnly(t);
    }
  }
}
