/** Wildcard matching: the greedy two-phase search against the recursive meaning of '*'. */
module Wildcard {
  import opened Common

  const STAR := '*'

  /** '*' stands for any number of characters; every other character for itself. */
  ghost predicate Glob(p: string, s: string)
    decreases |p| + |s|
  {
    if p == [] then s == []
    else if p[0] == STAR then Glob(p[1..], s) || (s != [] && Glob(p, s[1..]))
    else s != [] && s[0] == p[0] && Glob(p[1..], s[1..])
  }

  /** The pattern may start anywhere in the string. */
  ghost predicate Floating(p: string, s: string) { Glob([STAR] + p, s) }

  /** What the search decides. */
  ghost predicate Accepts(p: string, s: string) {
    if STAR in p then Floating(p, s) else p == s
  }

  // ---------- laws of Glob ----------

  lemma FloatingUnfold(p: string, s: string)
    ensures Floating(p, s) <==> Glob(p, s) || (s != [] && Floating(p, s[1..]))
  {
    assert ([STAR] + p)[1..] == p;
  }

  lemma {:induction false} GlobLiteralPrefix(x: string, r: string, s: string)
    requires STAR !in x
    ensures Glob(x + r, s) <==> x <= s && Glob(r, s[|x|..])
  {
    if x == [] {
      assert x + r == r && s[0..] == s;
    } else {
      assert (x + r)[1..] == x[1..] + r;
      if s != [] {
        GlobLiteralPrefix(x[1..], r, s[1..]);
        if s[0] == x[0] {
          assert x <= s <==> x[1..] <= s[1..];
          assert x <= s ==> s[1..][|x| - 1..] == s[|x|..];
        }
      }
    }
  }

  /** What matches after a star still matches when more text precedes. */
  lemma {:induction false} FloatingMono(p: string, s: string, j: nat)
    requires j <= |s| && Floating(p, s[j..])
    ensures Floating(p, s)
  {
    if j == 0 {
      assert s[0..] == s;
    } else {
      assert s[1..][j - 1..] == s[j..];
      FloatingMono(p, s[1..], j - 1);
      FloatingUnfold(p, s);
    }
  }

  lemma {:induction false} StarTwice(p: string, s: string)
    ensures Floating([STAR] + p, s) <==> Floating(p, s)
    decreases |s|
  {
    FloatingUnfold([STAR] + p, s);
    if s != [] {
      StarTwice(p, s[1..]);
      FloatingUnfold(p, s);
    }
  }

  lemma {:induction false} FloatingEverything(s: string)
    ensures Floating([], s)
  {
    FloatingUnfold([], s);
    if s != [] { FloatingEverything(s[1..]); }
  }

  /** A literal that is not at the front cannot start there. */
  lemma SkipOne(x: string, r: string, s: string)
    requires STAR !in x && !(x <= s) && |x| <= |s|
    ensures s != [] && (Floating(x + r, s) <==> Floating(x + r, s[1..]))
  {
    GlobLiteralPrefix(x, r, s);
    FloatingUnfold(x + r, s);
  }

  /** A literal longer than the text cannot occur in it. */
  lemma {:induction false} TooLong(x: string, r: string, s: string)
    requires STAR !in x && |x| > |s|
    ensures !Floating(x + r, s)
    decreases |s|
  {
    GlobLiteralPrefix(x, r, s);
    FloatingUnfold(x + r, s);
    if s != [] { TooLong(x, r, s[1..]); }
  }

  /** Some position of the text is where the pattern after the star starts. */
  lemma {:induction false} FloatingPosition(p: string, s: string) returns (j: nat)
    requires Floating(p, s)
    ensures j <= |s| && Glob(p, s[j..])
    decreases |s|
  {
    FloatingUnfold(p, s);
    if Glob(p, s) {
      j := 0;
      assert s[0..] == s;
    } else {
      var k := FloatingPosition(p, s[1..]);
      j := k + 1;
      assert s[1..][k..] == s[j..];
    }
  }

  /** Taking the leftmost occurrence loses nothing when a star follows the literal. */
  lemma LeftmostIsEnough(x: string, r: string, s: string)
    requires STAR !in x && x <= s
    ensures Floating(x + [STAR] + r, s) <==> Floating(r, s[|x|..])
  {
    var q := x + [STAR] + r;
    assert q == x + ([STAR] + r);
    if Floating(r, s[|x|..]) {
      GlobLiteralPrefix(x, [STAR] + r, s);
      FloatingUnfold(q, s);
    }
    if Floating(q, s) {
      var j := FloatingPosition(q, s);
      GlobLiteralPrefix(x, [STAR] + r, s[j..]);
      assert s[j..][|x|..] == s[|x|..][j..];
      FloatingMono(r, s[|x|..], j);
    }
  }

  lemma {:induction false} GlobLastLiteral(p: string, c: char, s: string)
    requires c != STAR
    ensures Glob(p + [c], s) <==> s != [] && s[|s| - 1] == c && Glob(p, s[..|s| - 1])
    decreases |p| + |s|
  {
    if p == [] {
      assert p + [c] == [c] && [c][1..] == [];
      if |s| == 1 { assert s[1..] == [] && s[..0] == []; }
      if |s| > 1 { assert s[1..] != []; assert s[..|s| - 1] != []; }
    } else {
      assert (p + [c])[1..] == p[1..] + [c];
      if p[0] == STAR {
        GlobLastLiteral(p[1..], c, s);
        if s != [] {
          GlobLastLiteral(p, c, s[1..]);
          if |s| > 1 { assert s[1..][..|s| - 2] == s[..|s| - 1][1..]; }
        }
      } else if s != [] {
        GlobLastLiteral(p[1..], c, s[1..]);
        if |s| > 1 { assert s[1..][..|s| - 2] == s[..|s| - 1][1..]; }
      }
    }
  }

  /** Matching the tail from the right: a last literal must equal the last character. */
  lemma AcceptsLastLiteral(p: string, c: char, s: string, d: char)
    requires c != STAR
    ensures Accepts(p + [c], s + [d]) <==> c == d && Accepts(p, s)
    ensures !Accepts(p + [c], [])
  {
    assert [STAR] + (p + [c]) == ([STAR] + p) + [c];
    GlobLastLiteral([STAR] + p, c, s + [d]);
    GlobLastLiteral([STAR] + p, c, []);
    assert (s + [d])[..|s|] == s;
    if p + [c] == s + [d] { assert (p + [c])[..|p|] == p; }
  }

  // ---------- the search ----------

  const NUL := '\0'

  /** Equality as strncmp sees it: the comparison ends at a common terminator. */
  ghost predicate SameUpToNul(a: string, b: string)
    requires |a| == |b|
  {
    a == [] || (a[0] == b[0] && (a[0] == NUL || SameUpToNul(a[1..], b[1..])))
  }

  lemma {:induction false} SameWithoutNul(a: string, b: string)
    requires |a| == |b| && NUL !in a
    ensures SameUpToNul(a, b) <==> a == b
  {
    if a != [] {
      SameWithoutNul(a[1..], b[1..]);
      assert a == [a[0]] + a[1..] && b == [b[0]] + b[1..];
    }
  }

  method IsStringEqual(s1: string, s2: string) returns (r: bool)
    ensures r <==> |s1| == |s2| && SameUpToNul(s1, s2)
  {
    if |s1| != |s2| { return false; }
    var i := 0;
    assert s1[0..] == s1 && s2[0..] == s2;
    while i < |s1|
      invariant 0 <= i <= |s1|
      invariant SameUpToNul(s1, s2) <==> SameUpToNul(s1[i..], s2[i..])
    {
      assert s1[i..][1..] == s1[i + 1..] && s2[i..][1..] == s2[i + 1..];
      if s1[i] != s2[i] { return false; }
      if s1[i] == NUL { return true; }
      i := i + 1;
    }
    return true;
  }

  /** The first phase leaves a pattern that is empty, ends in a star, or faces an empty text;
      from there floating is the meaning. */
  lemma SecondPhase(p: string, s: string)
    requires p != [] && (s == [] || p[|p| - 1] == STAR)
    ensures Accepts(p, s) <==> Floating(p, s)
  {
    var q, c := p[..|p| - 1], p[|p| - 1];
    assert p == q + [c];
    if c != STAR {
      assert [STAR] + p == ([STAR] + q) + [c];
      GlobLastLiteral([STAR] + q, c, s);
    }
  }

  /** Skipping the stars between two literals. */
  lemma {:induction false} SkipStars(p: string, a: nat, b: nat, s: string)
    requires a <= b <= |p| && forall j :: a <= j < b ==> p[j] == STAR
    ensures Floating(p[a..], s) <==> Floating(p[b..], s)
    decreases b - a
  {
    if a < b {
      assert p[a..] == [STAR] + p[a + 1..];
      StarTwice(p[a + 1..], s);
      SkipStars(p, a + 1, b, s);
    }
  }

  /** One literal found at s0: continue behind it, past the stars that follow. */
  lemma LiteralFound(p: string, p0: nat, p1: nat, s: string, s0: nat)
    requires p0 <= p1 <= |p| && STAR !in p[p0..p1] && s0 + (p1 - p0) <= |s| && s[s0..s0 + (p1 - p0)] == p[p0..p1]
    requires p1 < |p| ==> p[p1] == STAR
    requires p1 == |p| ==> p0 == p1
    ensures Floating(p[p0..], s[s0..]) <==> Floating(p[p1..], s[s0 + (p1 - p0)..])
  {
    var x := p[p0..p1];
    var t := s0 + (p1 - p0);
    if p1 < |p| {
      assert p[p1..] == [STAR] + p[p1 + 1..];
      assert p[p0..] == x + [STAR] + p[p1 + 1..];
      assert x <= s[s0..] by { assert s[s0..][..|x|] == x; }
      assert s[s0..][|x|..] == s[t..];
      LeftmostIsEnough(x, p[p1 + 1..], s[s0..]);
      StarTwice(p[p1 + 1..], s[t..]);
    }
  }

  method MatchWildcardString(str: string, pat: string) returns (r: bool)
    requires NUL !in str && NUL !in pat
    ensures r <==> Accepts(pat, str)
  {
    var sLen, pLen := |str|, |pat|;
    assert str[..sLen] == str && pat[..pLen] == pat;
    while pLen > 0 && sLen > 0
      invariant 0 <= pLen <= |pat| && 0 <= sLen <= |str|
      invariant Accepts(pat, str) <==> Accepts(pat[..pLen], str[..sLen])
    {
      if pat[pLen - 1] == STAR { break; }
      assert pat[..pLen] == pat[..pLen - 1] + [pat[pLen - 1]];
      assert str[..sLen] == str[..sLen - 1] + [str[sLen - 1]];
      AcceptsLastLiteral(pat[..pLen - 1], pat[pLen - 1], str[..sLen - 1], str[sLen - 1]);
      if pat[pLen - 1] != str[sLen - 1] { return false; }
      pLen, sLen := pLen - 1, sLen - 1;
    }
    if pLen == 0 { return sLen == 0; }
    SecondPhase(pat[..pLen], str[..sLen]);
    r := SearchSegments(str[..sLen], pat[..pLen]);
  }

  /** The pattern as literals between stars, each found at its leftmost place. */
  method SearchSegments(s: string, p: string) returns (r: bool)
    requires NUL !in s && NUL !in p && p != [] && (s == [] || p[|p| - 1] == STAR)
    ensures r <==> Floating(p, s)
  {
    hide Floating;
    var s0, p0 := 0, 0;
    assert p[0..] == p && s[0..] == s;
    while p0 < |p|
      invariant 0 <= p0 <= |p| && 0 <= s0 <= |s|
      invariant Floating(p, s) <==> Floating(p[p0..], s[s0..])
      decreases |p| - p0
    {
      var p1 := IndexOf(p, p0, STAR);
      ghost var x := p[p0..p1];
      assert p[p0..] == x + p[p1..];
      while true
        invariant s0 <= |s|
        invariant Floating(p, s) <==> Floating(p[p0..], s[s0..])
        decreases |s| - s0
      {
        if s0 + p1 - p0 > |s| {
          TooLong(x, p[p1..], s[s0..]);
          return false;
        }
        var equal := IsStringEqual(s[s0..s0 + (p1 - p0)], p[p0..p1]);
        SameWithoutNul(s[s0..s0 + (p1 - p0)], x);
        if equal { break; }
        assert !(x <= s[s0..]) by { assert s[s0..][..|x|] == s[s0..s0 + |x|]; }
        SkipOne(x, p[p1..], s[s0..]);
        assert s[s0..][1..] == s[s0 + 1..];
        s0 := s0 + 1;
      }
      LiteralFound(p, p0, p1, s, s0);
      s0 := s0 + (p1 - p0);
      var p2 := IndexOfNot(p, p1, STAR);
      SkipStars(p, p1, p2, s[s0..]);
      p0 := p2;
    }
    assert p[p0..] == [];
    FloatingEverything(s[s0..]);
    return true;
  }

  // ---------- against the documented meaning ----------

  lemma {:induction false} GlobNoStar(p: string, s: string)
    requires STAR !in p
    ensures Glob(p, s) <==> p == s
  {
    GlobLiteralPrefix(p, [], s);
    assert p + [] == p;
    if p <= s && s[|p|..] == [] { assert p == s; }
  }

  /** The pattern with its stars removed. */
  ghost function Erase(p: string): string {
    if p == [] then [] else if p[0] == STAR then Erase(p[1..]) else [p[0]] + Erase(p[1..])
  }

  lemma {:induction false} GlobErase(p: string)
    ensures Glob(p, Erase(p))
  {
    if p != [] {
      GlobErase(p[1..]);
      if p[0] != STAR { assert Erase(p)[1..] == Erase(p[1..]); }
    }
  }

  /** The first literal is not anchored: "a*" accepts "xa". */
  lemma FirstLiteralFloats()
    ensures Accepts("a*", "xa") && !Glob("a*", "xa")
  {
    FloatingUnfold("a*", "xa");
    FloatingUnfold("a*", "a");
    assert "xa"[1..] == "a" && "a*"[1..] == "*" && "a"[1..] == "";
    assert Glob("*", "") by { assert "*"[1..] == ""; }
  }

  ghost predicate Agrees(p: string) { forall s: string :: Accepts(p, s) <==> Glob(p, s) }

  /** The search decides the documented meaning of a pattern exactly when the pattern has
      no star or starts with one. */
  lemma AgreesIff(p: string)
    ensures Agrees(p) <==> STAR !in p || p[0] == STAR
  {
    if STAR !in p {
      forall s: string ensures Accepts(p, s) <==> Glob(p, s) { GlobNoStar(p, s); }
    } else if p[0] == STAR {
      forall s: string ensures Accepts(p, s) <==> Glob(p, s) {
        assert p == [STAR] + p[1..];
        StarTwice(p[1..], s);
      }
    } else {
      var c := if p[0] == 'x' then 'y' else 'x';
      var s := [c] + Erase(p);
      GlobErase(p);
      assert s[1..] == Erase(p);
      FloatingUnfold(p, Erase(p));
      FloatingUnfold(p, s);
      assert Accepts(p, s) && !Glob(p, s);
    }
  }
}
