/** Shell-style patterns, as --unsetenv uses them. */
module GlobPattern {

  /** glob in fs.cc. */
  predicate Glob(pattern: string, target: string)
    decreases |pattern| + |target|
  {
    if pattern == "" then target == ""
    else if pattern[0] == '\\' then
      |pattern| > 1 && target != "" && pattern[1] == target[0] && Glob(pattern[2..], target[1..])
    else if pattern[0] == '*' then
      Glob(pattern[1..], target) || (target != "" && Glob(pattern, target[1..]))
    else
      target != "" && pattern[0] == target[0] && Glob(pattern[1..], target[1..])
  }

  // ---- the language of a pattern, declared ----

  datatype Token = Star | Lit(c: char) | Dangling

  /** What each piece of a pattern stands for: '*', one character, or a final lone backslash. */
  function Tokens(pattern: string): seq<Token> {
    if pattern == "" then []
    else if pattern[0] == '\\' then
      if |pattern| == 1 then [Dangling] else [Lit(pattern[1])] + Tokens(pattern[2..])
    else [if pattern[0] == '*' then Star else Lit(pattern[0])] + Tokens(pattern[1..])
  }

  predicate Stands(t: Token, s: string) {
    match t
    case Star => true
    case Lit(c) => s == [c]
    case Dangling => false
  }

  function Concat(parts: seq<string>): string {
    if parts == [] then "" else parts[0] + Concat(parts[1..])
  }

  /** target can be cut into parts, one for each token of the pattern. */
  predicate Cuts(tokens: seq<Token>, parts: seq<string>, target: string) {
    && |parts| == |tokens|
    && (forall i :: 0 <= i < |parts| ==> Stands(tokens[i], parts[i]))
    && Concat(parts) == target
  }

  ghost predicate Denotes(tokens: seq<Token>, target: string) {
    exists parts :: Cuts(tokens, parts, target)
  }

  lemma PrependPart(ts: seq<Token>, t: Token, s: string, target: string)
    requires Denotes(ts, target) && Stands(t, s)
    ensures Denotes([t] + ts, s + target)
  {
    var parts :| Cuts(ts, parts, target);
    assert ([s] + parts)[1..] == parts;
    assert Cuts([t] + ts, [s] + parts, s + target);
  }

  lemma SplitPart(ts: seq<Token>, t: Token, target: string) returns (s: string, rest: string)
    requires Denotes([t] + ts, target)
    ensures target == s + rest && Stands(t, s) && Denotes(ts, rest)
  {
    var parts :| Cuts([t] + ts, parts, target);
    s, rest := parts[0], Concat(parts[1..]);
    assert Stands(([t] + ts)[0], parts[0]);
    assert forall i :: 0 <= i < |ts| ==> ts[i] == ([t] + ts)[i + 1];
    assert Cuts(ts, parts[1..], rest);
  }

  /** glob accepts exactly the targets its pattern denotes. */
  lemma {:induction false} GlobIsItsLanguage(pattern: string, target: string)
    ensures Glob(pattern, target) <==> Denotes(Tokens(pattern), target)
    decreases |pattern| + |target|
  {
    if pattern == "" {
      if target == "" {
        assert Cuts([], [], "");
      }
      assert forall parts: seq<string> :: |parts| == 0 ==> Concat(parts) == "";
    } else if pattern == "\\" {
      if Denotes(Tokens(pattern), target) {
        var s, rest := SplitPart([], Dangling, target);
      }
    } else if pattern[0] == '*' {
      StarCase(pattern, target);
    } else {
      LiteralCase(pattern, target);
    }
  }

  // "*" takes one character more, or none more.
  lemma StarDenotes(ts: seq<Token>, target: string)
    ensures Denotes([Star] + ts, target) <==>
            Denotes(ts, target) || (target != "" && Denotes([Star] + ts, target[1..]))
  {
    if Denotes(ts, target) {
      PrependPart(ts, Star, "", target);
      assert "" + target == target;
    }
    if target != "" && Denotes([Star] + ts, target[1..]) {
      var s, rest := SplitPart(ts, Star, target[1..]);
      PrependPart(ts, Star, [target[0]] + s, rest);
      assert [target[0]] + s + rest == target;
    }
    if Denotes([Star] + ts, target) {
      StarSplits(ts, target);
    }
  }

  lemma StarSplits(ts: seq<Token>, target: string)
    requires Denotes([Star] + ts, target)
    ensures Denotes(ts, target) || (target != "" && Denotes([Star] + ts, target[1..]))
  {
    var s, rest := SplitPart(ts, Star, target);
    if s == "" {
      assert rest == target;
    } else {
      PrependPart(ts, Star, s[1..], rest);
      assert s[1..] + rest == target[1..];
    }
  }

  lemma {:induction false} StarCase(pattern: string, target: string)
    requires pattern != "" && pattern[0] == '*'
    ensures Glob(pattern, target) <==> Denotes(Tokens(pattern), target)
    decreases |pattern| + |target|, 0
  {
    GlobIsItsLanguage(pattern[1..], target);
    if target != "" {
      GlobIsItsLanguage(pattern, target[1..]);
    }
    StarDenotes(Tokens(pattern[1..]), target);
  }

  lemma LiteralDenotes(c: char, ts: seq<Token>, target: string)
    ensures Denotes([Lit(c)] + ts, target) <==>
            target != "" && target[0] == c && Denotes(ts, target[1..])
  {
    if target != "" && target[0] == c && Denotes(ts, target[1..]) {
      PrependPart(ts, Lit(c), [c], target[1..]);
      assert [c] + target[1..] == target;
    }
    if Denotes([Lit(c)] + ts, target) {
      var s, rest := SplitPart(ts, Lit(c), target);
      assert target[1..] == rest;
    }
  }

  lemma {:induction false} LiteralCase(pattern: string, target: string)
    requires pattern != "" && pattern != "\\" && pattern[0] != '*'
    ensures Glob(pattern, target) <==> Denotes(Tokens(pattern), target)
    decreases |pattern| + |target|, 0
  {
    var skip := if pattern[0] == '\\' then 2 else 1;
    if target != "" {
      GlobIsItsLanguage(pattern[skip..], target[1..]);
    }
    LiteralDenotes(pattern[skip - 1], Tokens(pattern[skip..]), target);
  }

  /** A pattern without '*' denotes at most one target, and itself only if it quotes nothing. */
  lemma {:induction false} PlainPattern(pattern: string, target: string)
    requires '*' !in pattern
    ensures Glob(pattern, target) ==> |target| <= |pattern|
    ensures Glob(pattern, target) && '\\' in pattern ==> |target| < |pattern|
    ensures '\\' !in pattern ==> (Glob(pattern, target) <==> pattern == target)
    decreases |pattern|
  {
    if pattern != "" && target != "" {
      if pattern[0] != '\\' {
        assert pattern == [pattern[0]] + pattern[1..];
        assert target == [target[0]] + target[1..];
        PlainPattern(pattern[1..], target[1..]);
      } else if |pattern| > 1 {
        PlainPattern(pattern[2..], target[1..]);
      }
    }
  }
}
