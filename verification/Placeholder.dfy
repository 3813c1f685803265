/** Placeholders in image environment values: `substitute_placeholders` in
    gateway/src/images/builder.rs. */
module Placeholder {

  const HOME := "{home}"
  const PATH := "{path}"
  const DEFAULT_HOME := "/home/dev"
  const DEFAULT_PATH := "/usr/local/bin:/usr/bin:/usr/sbin:/bin:/sbin"

  /** `str::replace`: left to right, without overlaps. */
  function Replace(s: string, p: string, r: string): string
    requires p != ""
    decreases |s|
  {
    if s == "" then "" else if p <= s then r + Replace(s[|p|..], p, r) else [s[0]] + Replace(s[1..], p, r)
  }

  /** Two passes, one after the other. */
  function Substitute(value: string): string {
    Replace(Replace(value, HOME, DEFAULT_HOME), PATH, DEFAULT_PATH)
  }

  /** One pass for both placeholders: what a reader of an image file expects. */
  function Simultaneous(s: string, p: string, r: string, q: string, u: string): string
    requires p != "" && q != ""
    decreases |s|
  {
    if s == "" then ""
    else if p <= s then r + Simultaneous(s[|p|..], p, r, q, u)
    else if q <= s then u + Simultaneous(s[|q|..], p, r, q, u)
    else [s[0]] + Simultaneous(s[1..], p, r, q, u)
  }

  /** A placeholder opens with its only brace. */
  predicate Placeholder(p: string) {
    |p| > 1 && p[0] == '{' && '{' !in p[1..]
  }

  /** A replacement holds no brace and opens with a character that is in
      neither placeholder. */
  predicate Replacement(r: string, p: string, q: string) {
    r != "" && '{' !in r && r[0] !in p && r[0] !in q
  }

  predicate Apart(p: string, r: string, q: string, u: string) {
    Placeholder(p) && Placeholder(q) && |p| == |q| && p != q && Replacement(r, p, q) && Replacement(u, p, q)
  }

  lemma PrefixOf(w: string, c: char, s: string)
    ensures w != "" ==> (w <= [c] + s <==> w[0] == c && w[1..] <= s)
  {
    if w != "" {
      assert w == [w[0]] + w[1..];
      if w <= [c] + s {
        assert ([c] + s)[..|w|] == w;
        assert s[..|w| - 1] == ([c] + s)[1..|w|];
      }
    }
  }

  /** Text without a brace passes through. */
  lemma {:induction false} ThroughPlain(a: string, s: string, p: string, r: string)
    requires Placeholder(p) && '{' !in a
    ensures Replace(a + s, p, r) == a + Replace(s, p, r)
  {
    if a == "" {
      assert a + s == s;
    } else {
      assert a == [a[0]] + a[1..];
      assert (a + s)[1..] == a[1..] + s && (a + s)[0] == a[0];
      ThroughPlain(a[1..], s, p, r);
      assert !(p <= a + s);
      hide Replace;
      assert [a[0]] + (a[1..] + Replace(s, p, r)) == a + Replace(s, p, r);
    }
  }

  /** A brace-free beginning of the output was already in the input, unless it
      uses the replacement's first character. */
  lemma {:induction false} BeginningsAreOld(s: string, p: string, r: string, w: string)
    requires Placeholder(p) && r != "" && r[0] !in w && '{' !in w
    ensures w <= Replace(s, p, r) <==> w <= s
    decreases |w|
  {
    if w != "" && s != "" {
      if p <= s {
        assert s[0] == '{' && w[0] != '{';
        assert w[0] != r[0];
        assert Replace(s, p, r)[0] == r[0];
      } else {
        assert Replace(s, p, r) == [s[0]] + Replace(s[1..], p, r);
        BeginningsAreOld(s[1..], p, r, w[1..]);
        hide Replace;
        PrefixOf(w, s[0], Replace(s[1..], p, r));
        PrefixOf(w, s[0], s[1..]);
        assert s == [s[0]] + s[1..];
      }
    }
  }

  /** The other placeholder survives the first pass where it was, and appears
      nowhere else. */
  lemma OtherSurvives(s: string, p: string, r: string, q: string, u: string)
    requires Apart(p, r, q, u) && s != "" && !(p <= s)
    ensures q <= s ==> Replace(s, p, r) == q + Replace(s[|q|..], p, r)
    ensures q <= Replace(s, p, r) <==> q <= s
  {
    assert s == [s[0]] + s[1..];
    PrefixOf(q, s[0], s[1..]);
    PrefixOf(q, s[0], Replace(s[1..], p, r));
    BeginningsAreOld(s[1..], p, r, q[1..]);
    assert Replace(s, p, r) == [s[0]] + Replace(s[1..], p, r);
    if q <= s {
      var rest := s[|q|..];
      assert s[1..] == q[1..] + rest;
      hide Replace;
      ThroughPlain(q[1..], rest, p, r);
      assert q == [s[0]] + q[1..];
      assert [s[0]] + (q[1..] + Replace(rest, p, r)) == q + Replace(rest, p, r);
    }
  }

  /** Two passes are one simultaneous pass. */
  lemma {:induction false} TwoPassesAreOne(s: string, p: string, r: string, q: string, u: string)
    requires Apart(p, r, q, u)
    ensures Replace(Replace(s, p, r), q, u) == Simultaneous(s, p, r, q, u)
    decreases |s|
  {
    if s == "" {
    } else if p <= s {
      var rest := s[|p|..];
      TwoPassesAreOne(rest, p, r, q, u);
      ThroughPlain(r, Replace(rest, p, r), q, u);
    } else {
      OtherSurvives(s, p, r, q, u);
      var t := Replace(s, p, r);
      if q <= s {
        var rest := s[|q|..];
        TwoPassesAreOne(rest, p, r, q, u);
        assert t[|q|..] == Replace(rest, p, r);
      } else {
        TwoPassesAreOne(s[1..], p, r, q, u);
        assert t == [s[0]] + Replace(s[1..], p, r);
        assert t[1..] == Replace(s[1..], p, r);
      }
    }
  }

  lemma OneAtATime(p: string, q: string, s: string)
    requires |p| == |q| && p <= s
    ensures q <= s ==> p == q
  {
    assert p == s[..|p|];
  }

  lemma {:induction false} SidesSwap(s: string, p: string, r: string, q: string, u: string)
    requires Apart(p, r, q, u)
    ensures Simultaneous(s, p, r, q, u) == Simultaneous(s, q, u, p, r)
    decreases |s|
  {
    if s == "" {
    } else if p <= s {
      OneAtATime(p, q, s);
      SidesSwap(s[|p|..], p, r, q, u);
    } else if q <= s {
      SidesSwap(s[|q|..], p, r, q, u);
    } else {
      SidesSwap(s[1..], p, r, q, u);
    }
  }

  lemma TheyAreApart()
    ensures Apart(HOME, DEFAULT_HOME, PATH, DEFAULT_PATH)
    ensures Apart(PATH, DEFAULT_PATH, HOME, DEFAULT_HOME)
  {
  }

  /** For every value: the two replacements, in either order, are one
      simultaneous left-to-right substitution. */
  lemma SubstitutionIsSimultaneous(value: string)
    ensures Substitute(value) == Simultaneous(value, HOME, DEFAULT_HOME, PATH, DEFAULT_PATH)
    ensures Replace(Replace(value, PATH, DEFAULT_PATH), HOME, DEFAULT_HOME) == Substitute(value)
  {
    TheyAreApart();
    TwoPassesAreOne(value, HOME, DEFAULT_HOME, PATH, DEFAULT_PATH);
    TwoPassesAreOne(value, PATH, DEFAULT_PATH, HOME, DEFAULT_HOME);
    SidesSwap(value, HOME, DEFAULT_HOME, PATH, DEFAULT_PATH);
  }

  // -------------------------------------------------- nothing is left

  predicate Free(s: string, p: string) {
    forall i {:trigger s[i..]} :: 0 <= i <= |s| ==> !(p <= s[i..])
  }

  /** Brace-free text in front brings no placeholder. */
  lemma FreeBehindPlain(a: string, s: string, p: string)
    requires Placeholder(p) && '{' !in a && Free(s, p)
    ensures Free(a + s, p)
  {
    forall i | 0 <= i <= |a + s|
      ensures !(p <= (a + s)[i..])
    {
      if i < |a| {
        assert (a + s)[i..][0] == a[i];
      } else {
        assert (a + s)[i..] == s[i - |a|..];
      }
    }
  }

  lemma FreeBehindChar(c: char, s: string, p: string)
    requires p != "" && Free(s, p) && !(p <= [c] + s)
    ensures Free([c] + s, p)
  {
    forall i | 0 <= i <= |[c] + s|
      ensures !(p <= ([c] + s)[i..])
    {
      if i > 0 {
        assert ([c] + s)[i..] == s[i - 1..];
      } else {
        assert ([c] + s)[0..] == [c] + s;
      }
    }
  }

  /** No pass leaves its own placeholder behind, or makes the other one. */
  lemma {:induction false} PassLeavesNone(s: string, p: string, r: string, q: string, u: string)
    requires Apart(p, r, q, u)
    ensures Free(Replace(s, p, r), p)
    ensures Free(s, q) ==> Free(Replace(s, p, r), q)
    decreases |s|
  {
    if s == "" {
    } else if p <= s {
      var rest := s[|p|..];
      PassLeavesNone(rest, p, r, q, u);
      FreeBehindPlain(r, Replace(rest, p, r), p);
      if Free(s, q) {
        assert forall i :: 0 <= i <= |rest| ==> rest[i..] == s[|p| + i..];
        assert Free(rest, q);
        FreeBehindPlain(r, Replace(rest, p, r), q);
      }
    } else {
      var t := Replace(s[1..], p, r);
      PassLeavesNone(s[1..], p, r, q, u);
      assert s == [s[0]] + s[1..];
      BeginningsAreOld(s[1..], p, r, p[1..]);
      PrefixOf(p, s[0], s[1..]);
      PrefixOf(p, s[0], t);
      FreeBehindChar(s[0], t, p);
      if Free(s, q) {
        assert forall i :: 0 <= i <= |s[1..]| ==> s[1..][i..] == s[1 + i..];
        assert Free(s[1..], q);
        assert s[0..] == s;
        OtherSurvives(s, p, r, q, u);
        FreeBehindChar(s[0], t, q);
      }
    }
  }

  lemma {:induction false} NothingToReplace(s: string, p: string, r: string)
    requires p != "" && Free(s, p)
    ensures Replace(s, p, r) == s
    decreases |s|
  {
    if s != "" {
      assert s[0..] == s;
      assert forall i :: 0 <= i <= |s[1..]| ==> s[1..][i..] == s[1 + i..];
      NothingToReplace(s[1..], p, r);
    }
  }

  /** The result holds neither placeholder, so substituting again changes
      nothing. */
  lemma SubstitutionIsFinal(value: string)
    ensures Free(Substitute(value), HOME) && Free(Substitute(value), PATH)
    ensures Substitute(Substitute(value)) == Substitute(value)
  {
    TheyAreApart();
    var once := Replace(value, HOME, DEFAULT_HOME);
    PassLeavesNone(value, HOME, DEFAULT_HOME, PATH, DEFAULT_PATH);
    PassLeavesNone(once, PATH, DEFAULT_PATH, HOME, DEFAULT_HOME);
    var twice := Substitute(value);
    NothingToReplace(twice, HOME, DEFAULT_HOME);
    NothingToReplace(twice, PATH, DEFAULT_PATH);
  }
}
