/**
  The environment of the sandboxed program: --setenv and --unsetenv directives in
  any order, and the environment made from them.
*/
module Environment {
  import opened Expansion
  import opened GlobPattern

  /** env_filter_ and setenv_; the values of vars are whole "NAME=VALUE" entries. */
  datatype Env = Env(filter: set<string>, vars: map<string, string>)

  datatype Directive = Unsetenv(pattern: string) | Setenv(arg: string)

  /** An option as it is met: where it stands decides whether values are expanded. */
  datatype Mention = Mention(d: Directive, inConfigFile: bool)

  predicate HasEq(s: string) {
    Find(s, '=', 0) < |s|
  }

  function Name(s: string): string {
    s[..Find(s, '=', 0)]
  }

  function Value(s: string): string
    requires HasEq(s)
  {
    s[Find(s, '=', 0) + 1..]
  }

  lemma EntryParts(name: string, val: string)
    requires '=' !in name
    ensures HasEq(name + "=" + val) && Name(name + "=" + val) == name && Value(name + "=" + val) == val
  {
    FindAfter(name, "=" + val, '=', 0);
    assert name + "=" + val == name + ("=" + val);
  }

  /** Every entry is the one of its own variable. */
  predicate Keyed(vars: map<string, string>) {
    forall v :: v in vars ==> HasEq(vars[v]) && Name(vars[v]) == v
  }

  // ---- the process's own environment ----

  /** getenv: the first entry of that name. */
  predicate InEnviron(environ: seq<string>, v: string) {
    exists e :: e in environ && HasEq(e) && Name(e) == v
  }

  function Entry(environ: seq<string>, v: string): string
    requires InEnviron(environ, v)
  {
    if HasEq(environ[0]) && Name(environ[0]) == v then environ[0]
    else
      assert InEnviron(environ[1..], v);
      Entry(environ[1..], v)
  }

  function Getenv(environ: seq<string>, v: string): string {
    if InEnviron(environ, v) && HasEq(Entry(environ, v)) then Value(Entry(environ, v)) else ""
  }

  function Lookup(s: Env, environ: seq<string>, v: string): string {
    if v in s.vars && HasEq(s.vars[v]) then Value(s.vars[v]) else Getenv(environ, v)
  }

  function Expanded(s: Env, environ: seq<string>, text: string, inConfigFile: bool): string {
    if inConfigFile then Expand(text, v => Lookup(s, environ, v)) else text
  }

  // ---- directives ----

  function AfterUnsetenv(s: Env, pattern: string): Env {
    Env(s.filter + {pattern}, map n | n in s.vars && !Glob(pattern, n) :: s.vars[n])
  }

  /** --setenv; a bare name with a space in it is an error that changes nothing. */
  function AfterSetenv(s: Env, environ: seq<string>, arg: string, inConfigFile: bool): Env {
    if HasEq(arg) then
      s.(vars := s.vars[Name(arg) := Name(arg) + "=" + Expanded(s, environ, Value(arg), inConfigFile)])
    else if arg in s.filter then s.(filter := s.filter - {arg})
    else if ' ' in arg then s
    else if InEnviron(environ, arg) && exists p :: p in s.filter && Glob(p, arg) then
      s.(vars := s.vars[arg := arg + "=" + Getenv(environ, arg)])
    else s
  }

  function After(s: Env, environ: seq<string>, m: Mention): Env {
    match m.d
    case Unsetenv(pattern) => AfterUnsetenv(s, pattern)
    case Setenv(arg) => AfterSetenv(s, environ, arg, m.inConfigFile)
  }

  function AfterAll(s: Env, environ: seq<string>, ms: seq<Mention>): Env
    decreases |ms|
  {
    if ms == [] then s else AfterAll(After(s, environ, ms[0]), environ, ms[1..])
  }

  // ---- the environment that results ----

  /** The split make_env makes: patterns with a '*' are matched, the others compared. */
  predicate Filtered(filter: set<string>, v: string) {
    (v in filter && '*' !in v) || exists p :: p in filter && '*' in p && Glob(p, v)
  }

  function Made(s: Env, environ: seq<string>): map<string, string>
    decreases |environ|
  {
    if environ == [] then s.vars
    else
      var e := environ[0];
      if HasEq(e) && !Filtered(s.filter, Name(e)) && Name(e) !in s.vars then
        Made(s.(vars := s.vars[Name(e) := e]), environ[1..])
      else Made(s, environ[1..])
  }

  lemma {:induction false} MadeAt(s: Env, environ: seq<string>, v: string)
    ensures v in s.vars ==> v in Made(s, environ) && Made(s, environ)[v] == s.vars[v]
    ensures v !in s.vars ==>
              (v in Made(s, environ) <==> InEnviron(environ, v) && !Filtered(s.filter, v))
    ensures v !in s.vars && v in Made(s, environ) ==> Made(s, environ)[v] == Entry(environ, v)
    decreases |environ|
  {
    if environ == [] {
    } else {
      var e := environ[0];
      assert environ == [e] + environ[1..];
      if HasEq(e) && !Filtered(s.filter, Name(e)) && Name(e) !in s.vars {
        MadeAt(s.(vars := s.vars[Name(e) := e]), environ[1..], v);
      } else {
        MadeAt(s, environ[1..], v);
      }
      assert InEnviron(environ, v) <==> (HasEq(e) && Name(e) == v) || InEnviron(environ[1..], v);
    }
  }

  lemma {:induction false} MadeIsKeyed(s: Env, environ: seq<string>)
    requires Keyed(s.vars)
    ensures Keyed(Made(s, environ))
    decreases |environ|
  {
    if environ == [] {
    } else {
      var e := environ[0];
      if HasEq(e) && !Filtered(s.filter, Name(e)) && Name(e) !in s.vars {
        MadeIsKeyed(s.(vars := s.vars[Name(e) := e]), environ[1..]);
      } else {
        MadeIsKeyed(s, environ[1..]);
      }
    }
  }

  lemma SetenvIsKeyed(s: Env, environ: seq<string>, arg: string, inConfigFile: bool)
    requires Keyed(s.vars)
    ensures Keyed(AfterSetenv(s, environ, arg, inConfigFile).vars)
    ensures HasEq(arg) ==>
              var vars := AfterSetenv(s, environ, arg, inConfigFile).vars;
              Name(arg) in vars && HasEq(vars[Name(arg)]) &&
              Value(vars[Name(arg)]) == Expanded(s, environ, Value(arg), inConfigFile)
  {
    if HasEq(arg) {
      EntryParts(Name(arg), Expanded(s, environ, Value(arg), inConfigFile));
    } else {
      EntryParts(arg, Getenv(environ, arg));
    }
  }

  // ---- the last mention wins ----

  /** The directive is about variable v. */
  predicate Mentions(d: Directive, v: string) {
    match d
    case Unsetenv(pattern) => Glob(pattern, v)
    case Setenv(arg) => if HasEq(arg) then Name(arg) == v else arg == v || Glob(arg, v)
  }

  predicate NoneMentions(ms: seq<Mention>, v: string) {
    forall i :: 0 <= i < |ms| ==> !Mentions(ms[i].d, v)
  }

  /** Directives about other variables leave v's entry, and the patterns that match v, alone. */
  lemma {:induction false} OthersLeaveAlone(s: Env, environ: seq<string>, ms: seq<Mention>, v: string, p: string)
    requires NoneMentions(ms, v)
    requires p in s.filter && Glob(p, v)
    ensures p in AfterAll(s, environ, ms).filter
    ensures v !in s.vars ==> v !in AfterAll(s, environ, ms).vars
    decreases |ms|
  {
    if ms == [] {
    } else {
      assert !Mentions(ms[0].d, v);
      OthersLeaveAlone(After(s, environ, ms[0]), environ, ms[1..], v, p);
    }
  }

  lemma {:induction false} OthersLeaveValue(s: Env, environ: seq<string>, ms: seq<Mention>, v: string)
    requires NoneMentions(ms, v) && v in s.vars
    ensures v in AfterAll(s, environ, ms).vars && AfterAll(s, environ, ms).vars[v] == s.vars[v]
    decreases |ms|
  {
    if ms == [] {
    } else {
      assert !Mentions(ms[0].d, v);
      OthersLeaveValue(After(s, environ, ms[0]), environ, ms[1..], v);
    }
  }

  lemma {:induction false} AfterAllSplits(s: Env, environ: seq<string>, ms: seq<Mention>, ns: seq<Mention>)
    ensures AfterAll(s, environ, ms + ns) == AfterAll(AfterAll(s, environ, ms), environ, ns)
    decreases |ms|
  {
    if ms == [] {
      assert ms + ns == ns;
    } else {
      assert (ms + ns)[1..] == ms[1..] + ns;
      AfterAllSplits(After(s, environ, ms[0]), environ, ms[1..], ns);
    }
  }

  /** If the last directive about v gives it a value, the program sees v with that value. */
  lemma LastSetenvWins(s: Env, environ: seq<string>, pre: seq<Mention>, m: Mention, post: seq<Mention>)
    requires m.d.Setenv? && HasEq(m.d.arg) && NoneMentions(post, Name(m.d.arg))
    ensures var v, before := Name(m.d.arg), AfterAll(s, environ, pre);
            var made := Made(AfterAll(s, environ, pre + [m] + post), environ);
            && v in made
            && made[v] == v + "=" + Expanded(before, environ, Value(m.d.arg), m.inConfigFile)
  {
    var v, before := Name(m.d.arg), AfterAll(s, environ, pre);
    var mid := After(before, environ, m);
    AfterAllSplits(s, environ, pre + [m], post);
    AfterAllSplits(s, environ, pre, [m]);
    OthersLeaveValue(mid, environ, post, v);
    MadeAt(AfterAll(mid, environ, post), environ, v);
  }

  /** A pattern is matched, or is compared but quotes nothing, so comparing is matching. */
  predicate FilterSafe(p: string) {
    '*' in p || '\\' !in p
  }

  /** make_env's split asks what glob asks, for exactly these patterns. */
  lemma SplitIsGlobExact(p: string)
    ensures (forall v :: Filtered({p}, v) <==> Glob(p, v)) <==> FilterSafe(p)
  {
    if '*' in p {
      forall v ensures Filtered({p}, v) <==> Glob(p, v) {
        assert p in {p};
      }
    } else {
      forall v {
        PlainPattern(p, v);
      }
      if '\\' in p {
        PlainPattern(p, p);
        assert Filtered({p}, p) && !Glob(p, p);
      } else {
        forall v ensures Filtered({p}, v) <==> Glob(p, v) {
          PlainPattern(p, v);
        }
      }
    }
  }

  lemma SafeFilters(filter: set<string>, p: string, v: string)
    requires p in filter && Glob(p, v) && FilterSafe(p)
    ensures Filtered(filter, v)
  {
    if '*' !in p {
      PlainPattern(p, v);
    }
  }

  /** If the last directive about v removes it, the program does not see v at all. */
  lemma LastUnsetenvWins(s: Env, environ: seq<string>, pre: seq<Mention>, m: Mention, post: seq<Mention>, v: string)
    requires m.d.Unsetenv? && Glob(m.d.pattern, v) && NoneMentions(post, v)
    requires FilterSafe(m.d.pattern)
    ensures v !in Made(AfterAll(s, environ, pre + [m] + post), environ)
  {
    var before := AfterAll(s, environ, pre);
    var mid := After(before, environ, m);
    AfterAllSplits(s, environ, pre + [m], post);
    AfterAllSplits(s, environ, pre, [m]);
    OthersLeaveAlone(mid, environ, post, v, m.d.pattern);
    SafeFilters(AfterAll(mid, environ, post).filter, m.d.pattern, v);
    MadeAt(AfterAll(mid, environ, post), environ, v);
  }

  /** Without other directives: --unsetenv keeps a variable out exactly under that condition. */
  lemma UnsetenvExact(environ: seq<string>, p: string, v: string)
    requires Glob(p, v) && InEnviron(environ, v)
    ensures v !in Made(AfterUnsetenv(Env({}, map[]), p), environ) <==> FilterSafe(p)
  {
    var s := AfterUnsetenv(Env({}, map[]), p);
    assert s.filter == {p};
    MadeAt(s, environ, v);
    if FilterSafe(p) {
      SafeFilters(s.filter, p, v);
    } else {
      PlainPattern(p, v);
    }
  }

  /** Such as: the pattern \\A matches A, and A stays in the environment. */
  lemma QuotedUnsetenvFails()
    ensures Glob("\\A", "A") && "A" in Made(AfterUnsetenv(Env({}, map[]), "\\A"), ["A=1"])
  {
    assert Glob("", "");
    assert "\\A"[2..] == "" && "A"[1..] == "";
    assert Find("A=1", '=', 1) == 1;
    assert Name("A=1") == "A" && HasEq("A=1") && "A=1" in ["A=1"];
    assert InEnviron(["A=1"], "A");
    UnsetenvExact(["A=1"], "\\A", "A");
    assert "\\A"[0] == '\\';
  }

  /**
    A bare --setenv of a filtered name lifts that one pattern: the inherited value
    comes back exactly when no wildcard pattern still matches the name.
  */
  lemma BareSetenvExact(s: Env, environ: seq<string>, v: string, inConfigFile: bool)
    requires v in s.filter && !HasEq(v) && v !in s.vars && InEnviron(environ, v)
    ensures var made := Made(AfterSetenv(s, environ, v, inConfigFile), environ);
            && (v in made <==> forall p :: p in s.filter && '*' in p && p != v ==> !Glob(p, v))
            && (v in made ==> made[v] == Entry(environ, v))
  {
    var t := AfterSetenv(s, environ, v, inConfigFile);
    assert t == s.(filter := s.filter - {v});
    MadeAt(t, environ, v);
  }

  /**
    A bare --setenv of an inherited variable that is no pattern of its own: the program
    sees the inherited value whatever wildcards match, unless an earlier value stays.
  */
  lemma BareSetenvLifts(s: Env, environ: seq<string>, v: string, inConfigFile: bool)
    requires v !in s.filter && !HasEq(v) && ' ' !in v && InEnviron(environ, v)
    ensures var made := Made(AfterSetenv(s, environ, v, inConfigFile), environ);
            && v in made
            && made[v] == if v in s.vars && !(exists p :: p in s.filter && Glob(p, v)) then s.vars[v]
                          else v + "=" + Getenv(environ, v)
  {
    var t := AfterSetenv(s, environ, v, inConfigFile);
    MadeAt(t, environ, v);
    EntryIsGetenv(environ, v);
  }

  lemma {:induction false} EntryIsGetenv(environ: seq<string>, v: string)
    requires InEnviron(environ, v)
    ensures HasEq(Entry(environ, v)) && Name(Entry(environ, v)) == v
    ensures Entry(environ, v) == v + "=" + Getenv(environ, v)
    decreases |environ|
  {
    assert environ == [environ[0]] + environ[1..];
    if HasEq(environ[0]) && Name(environ[0]) == v {
    } else {
      EntryIsGetenv(environ[1..], v);
    }
    var e := Entry(environ, v);
    assert e == Name(e) + "=" + Value(e);
  }

  /** A reference in a configuration file sees what was set before it, else what is inherited, else nothing. */
  lemma ReferenceMeans(s: Env, environ: seq<string>, ps: seq<Part>, v: string)
    requires Keyed(s.vars) && forall k :: 0 <= k < |ps| && ps[k].Variable? ==> '}' !in ps[k].name
    ensures Expanded(s, environ, Template(ps), true) == Filled(ps, n => Lookup(s, environ, n))
    ensures Expanded(s, environ, Template(ps), false) == Template(ps)
    ensures v in s.vars ==> s.vars[v] == v + "=" + Lookup(s, environ, v)
    ensures v !in s.vars && InEnviron(environ, v) ==> Entry(environ, v) == v + "=" + Lookup(s, environ, v)
    ensures v !in s.vars && !InEnviron(environ, v) ==> Lookup(s, environ, v) == ""
  {
    TemplateExpands(ps, n => Lookup(s, environ, n));
    if v in s.vars {
      assert s.vars[v] == Name(s.vars[v]) + "=" + Value(s.vars[v]);
    } else if InEnviron(environ, v) {
      EntryIsGetenv(environ, v);
    }
  }

  /** es holds the entries of the variables in done, each once. */
  predicate Lists(vars: map<string, string>, done: set<string>, es: seq<string>)
    requires done <= vars.Keys
  {
    && (forall i :: 0 <= i < |es| ==> Name(es[i]) in done && vars[Name(es[i])] == es[i])
    && (forall i, j :: 0 <= i < j < |es| ==> Name(es[i]) != Name(es[j]))
    && (forall k :: k in done ==> vars[k] in es)
  }

  lemma ListsNone(vars: map<string, string>)
    ensures Lists(vars, {}, [])
  {
  }

  lemma ListsOneMore(vars: map<string, string>, done: set<string>, es: seq<string>, k: string)
    requires Keyed(vars) && done <= vars.Keys && k in vars && k !in done && Lists(vars, done, es)
    ensures Lists(vars, done + {k}, es + [vars[k]])
  {
    hide Name, HasEq;
    assert Name(vars[k]) == k;
  }

  lemma ListsAll(vars: map<string, string>, es: seq<string>)
    requires Lists(vars, vars.Keys, es)
    ensures forall e :: e in es <==> e in vars.Values
    ensures forall i, j :: 0 <= i < j < |es| ==> Name(es[i]) != Name(es[j])
  {
  }

  // ---- the options themselves ----

  class EnvOptions {
    var envFilter: set<string>
    var setenv: map<string, string>
    var parsingConfigFile: bool

    function State(): Env
      reads this
    {
      Env(envFilter, setenv)
    }

    predicate Valid()
      reads this
    {
      Keyed(setenv)
    }

    constructor ()
      ensures State() == Env({}, map[]) && !parsingConfigFile && Valid()
    {
      envFilter, setenv, parsingConfigFile := {}, map[], false;
    }

    method Unsetenv(pattern: string)
      requires Valid()
      modifies this`envFilter, this`setenv
      ensures Valid() && State() == AfterUnsetenv(old(State()), pattern)
    {
      var all := setenv.Keys;
      var rest := all;
      while rest != {}
        invariant rest <= all && envFilter == old(envFilter)
        invariant setenv == map n | n in old(setenv) && (n in rest || !Glob(pattern, n)) :: old(setenv)[n]
        decreases rest
      {
        var n :| n in rest;
        rest := rest - {n};
        if Glob(pattern, n) {
          setenv := setenv - {n};
        }
      }
      envFilter := envFilter + {pattern};
    }

    /** False if arg looks like a mistyped assignment. */
    method Setenv(arg: string, environ: seq<string>) returns (ok: bool)
      requires Valid()
      modifies this`envFilter, this`setenv
      ensures Valid() && State() == AfterSetenv(old(State()), environ, arg, parsingConfigFile)
      ensures !ok <==> !HasEq(arg) && arg !in old(envFilter) && ' ' in arg
      ensures !ok ==> State() == old(State())
      ensures HasEq(arg) ==>
                && Name(arg) in setenv && HasEq(setenv[Name(arg)])
                && Value(setenv[Name(arg)]) == Expanded(old(State()), environ, Value(arg), parsingConfigFile)
      ensures envFilter == if HasEq(arg) then old(envFilter) else old(envFilter) - {arg}
      ensures forall v :: v != (if HasEq(arg) then Name(arg) else arg) ==>
                (v in setenv <==> v in old(setenv)) && (v in setenv ==> setenv[v] == old(setenv)[v])
    {
      SetenvIsKeyed(State(), environ, arg, parsingConfigFile);
      ok := true;
      var pos := Find(arg, '=', 0);
      if pos < |arg| {
        var name, s := arg[..pos], State();
        var val := arg[pos + 1..];
        if parsingConfigFile {
          val := VarExpand(val, v => Lookup(s, environ, v));
        }
        setenv := setenv[name := name + "=" + val];
      } else if arg in envFilter {
        envFilter := envFilter - {arg};
      } else if ' ' in arg {
        ok := false;
      } else if InEnviron(environ, arg) && exists p :: p in envFilter && Glob(p, arg) {
        setenv := setenv[arg := arg + "=" + Getenv(environ, arg)];
      }
    }

    /** The entries handed to execve, in no particular order: one for each variable. */
    method MakeEnv(environ: seq<string>) returns (ret: seq<string>)
      requires Valid()
      modifies this`setenv
      ensures Valid() && setenv == Made(old(State()), environ)
      ensures |ret| == |setenv| && forall e :: e in ret <==> e in setenv.Values
      ensures forall i, j :: 0 <= i < j < |ret| ==> Name(ret[i]) != Name(ret[j])
    {
      MadeIsKeyed(State(), environ);
      var patterns: set<string>, names: set<string> := {}, {};
      var rest := envFilter;
      while rest != {}
        invariant rest <= envFilter
        invariant names == set v | v in envFilter - rest && '*' !in v
        invariant patterns == set v | v in envFilter - rest && '*' in v
        decreases rest
      {
        var v :| v in rest;
        rest := rest - {v};
        if '*' !in v {
          names := names + {v};
        } else {
          patterns := patterns + {v};
        }
      }
      var i := 0;
      while i < |environ|
        invariant 0 <= i <= |environ|
        invariant Made(State(), environ[i..]) == Made(old(State()), environ)
      {
        var e := environ[i];
        assert environ[i..] == [e] + environ[i + 1..];
        i := i + 1;
        var eq := Find(e, '=', 0);
        if eq == |e| {
          continue;
        }
        var sv := e[..eq];
        if sv in names || exists p :: p in patterns && Glob(p, sv) {
          continue;
        }
        if sv !in setenv {
          setenv := setenv[sv := e];
        }
      }
      assert environ[i..] == [];
      ret := Entries();
    }

    // The values of the map, each variable's once.
    method Entries() returns (ret: seq<string>)
      requires Valid()
      ensures |ret| == |setenv| && forall e :: e in ret <==> e in setenv.Values
      ensures forall i, j :: 0 <= i < j < |ret| ==> Name(ret[i]) != Name(ret[j])
    {
      hide Lists;
      ret := [];
      ListsNone(setenv);
      var keys, done := setenv.Keys, {};
      while keys != {}
        invariant done + keys == setenv.Keys && done !! keys && |ret| == |done|
        invariant Lists(setenv, done, ret)
        decreases keys
      {
        var k :| k in keys;
        ListsOneMore(setenv, done, ret, k);
        keys, done := keys - {k}, done + {k};
        ret := ret + [setenv[k]];
      }
      assert done == setenv.Keys && |setenv.Keys| == |setenv|;
      ListsAll(setenv, ret);
    }
  }
}
