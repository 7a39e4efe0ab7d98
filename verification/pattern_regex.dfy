/**
 * The regular expression a match pattern stands for, and what it means for a url
 * to match it.
 *
 * A pattern is escaped character by character, so every character stands for
 * itself, except that a multi-url pattern turns each `*` into `.*`, a run of any
 * characters. An individual-url pattern is anchored with `$` at the end of the
 * url; neither kind is anchored at the start, and the database's regex lookup
 * searches for a match anywhere in the url.
 */
module PatternRegex {

  datatype MatchType = IndividualUrl | MultiUrlPattern

  /** One element of a compiled pattern: a literal character or `.*`. */
  datatype Atom = Lit(c: char) | AnyRun

  datatype Regex = Regex(atoms: seq<Atom>, endAnchored: bool)

  function AtomFor(c: char, t: MatchType): Atom
  {
    if t == MultiUrlPattern && c == '*' then AnyRun else Lit(c)
  }

  function CompileAtoms(pattern: string, t: MatchType): seq<Atom>
  {
    if pattern == [] then [] else [AtomFor(pattern[0], t)] + CompileAtoms(pattern[1..], t)
  }

  /** The regex built from a match pattern of the given type. */
  function Compile(pattern: string, t: MatchType): Regex
  {
    Regex(CompileAtoms(pattern, t), t == IndividualUrl)
  }

  /** The atoms match the whole of `s`. */
  predicate FullMatch(atoms: seq<Atom>, s: string)
    decreases |atoms|
  {
    if atoms == [] then s == []
    else match atoms[0]
      case Lit(c) => s != [] && s[0] == c && FullMatch(atoms[1..], s[1..])
      case AnyRun => exists k :: 0 <= k <= |s| && FullMatch(atoms[1..], s[k..])
  }

  /** The regex matches some part of `s` (ending at the end of `s` when anchored). */
  predicate Search(r: Regex, s: string)
  {
    exists i, j :: 0 <= i <= j <= |s| && (r.endAnchored ==> j == |s|) && FullMatch(r.atoms, s[i..j])
  }

  /** `url__regex` with the pattern's regex. */
  predicate Matches(pattern: string, t: MatchType, url: string)
  {
    Search(Compile(pattern, t), url)
  }

  predicate EndsWith(s: string, suffix: string)
  {
    |suffix| <= |s| && s[|s| - |suffix|..] == suffix
  }

  predicate StartsWith(s: string, prefix: string)
  {
    |prefix| <= |s| && s[..|prefix|] == prefix
  }

  predicate Contains(s: string, part: string)
  {
    exists i :: 0 <= i <= |s| && StartsWith(s[i..], part)
  }

  // ------------------------------------------------------------------ lemmas

  /** Without a wildcard, the compiled atoms match exactly the pattern itself. */
  lemma {:induction false} LiteralFullMatch(p: string, t: MatchType, s: string)
    requires t == IndividualUrl || '*' !in p
    ensures FullMatch(CompileAtoms(p, t), s) <==> s == p
  {
    if p != [] {
      var atoms := CompileAtoms(p, t);
      assert atoms[0] == Lit(p[0]) && atoms[1..] == CompileAtoms(p[1..], t);
      if s != [] {
        LiteralFullMatch(p[1..], t, s[1..]);
        assert s == [s[0]] + s[1..] && p == [p[0]] + p[1..];
      }
    }
  }

  /** An individual-url pattern matches exactly the urls that end with it. */
  lemma IndividualMatchesSuffix(p: string, url: string)
    ensures Matches(p, IndividualUrl, url) <==> EndsWith(url, p)
  {
    var r := Compile(p, IndividualUrl);
    if EndsWith(url, p) {
      var t := url[|url| - |p|..];
      LiteralFullMatch(p, IndividualUrl, t);
      assert url[|url| - |p|..|url|] == t;
      assert FullMatch(r.atoms, url[|url| - |p|..|url|]);
    }
    if Matches(p, IndividualUrl, url) {
      var i, j :| 0 <= i <= j <= |url| && j == |url| && FullMatch(r.atoms, url[i..j]);
      LiteralFullMatch(p, IndividualUrl, url[i..j]);
    }
  }

  /** A multi-url pattern without `*` matches exactly the urls that contain it. */
  lemma MultiWithoutWildcardMatchesSubstring(p: string, url: string)
    requires '*' !in p
    ensures Matches(p, MultiUrlPattern, url) <==> Contains(url, p)
  {
    var r := Compile(p, MultiUrlPattern);
    if Contains(url, p) {
      var i :| 0 <= i <= |url| && StartsWith(url[i..], p);
      assert url[i..][..|p|] == url[i..i + |p|];
      LiteralFullMatch(p, MultiUrlPattern, url[i..i + |p|]);
    }
    if Matches(p, MultiUrlPattern, url) {
      var i, j :| 0 <= i <= j <= |url| && FullMatch(r.atoms, url[i..j]);
      LiteralFullMatch(p, MultiUrlPattern, url[i..j]);
      assert url[i..][..|p|] == url[i..j];
      assert StartsWith(url[i..], p);
    }
  }

  lemma CompileAppend(a: string, b: string, t: MatchType)
    ensures CompileAtoms(a + b, t) == CompileAtoms(a, t) + CompileAtoms(b, t)
  {
    if a != [] {
      assert (a + b)[0] == a[0] && (a + b)[1..] == a[1..] + b;
      CompileAppend(a[1..], b, t);
    } else {
      assert a + b == b;
    }
  }

  /** A match of a concatenation splits the string in two. */
  lemma {:induction false} ConcatSplits(x: seq<Atom>, y: seq<Atom>, s: string)
    requires FullMatch(x + y, s)
    ensures exists k :: 0 <= k <= |s| && FullMatch(x, s[..k]) && FullMatch(y, s[k..])
    decreases |x|
  {
    if x == [] {
      assert x + y == y && FullMatch(x, s[..0]) && s[0..] == s;
    } else {
      assert (x + y)[0] == x[0] && (x + y)[1..] == x[1..] + y;
      match x[0]
      case Lit(c) =>
        ConcatSplits(x[1..], y, s[1..]);
        var k' :| 0 <= k' <= |s| - 1 && FullMatch(x[1..], s[1..][..k']) && FullMatch(y, s[1..][k'..]);
        var k := k' + 1;
        assert s[..k][1..] == s[1..][..k'] && s[k..] == s[1..][k'..];
        assert FullMatch(x, s[..k]);
      case AnyRun =>
        var m :| 0 <= m <= |s| && FullMatch(x[1..] + y, s[m..]);
        ConcatSplits(x[1..], y, s[m..]);
        var k' :| 0 <= k' <= |s| - m && FullMatch(x[1..], s[m..][..k']) && FullMatch(y, s[m..][k'..]);
        var k := m + k';
        assert s[..k][m..] == s[m..][..k'] && s[k..] == s[m..][k'..];
        assert FullMatch(x, s[..k]);
    }
  }

  /** Matches of two parts of a string join into a match of the concatenation. */
  lemma {:induction false} ConcatJoins(x: seq<Atom>, y: seq<Atom>, s: string, k: int)
    requires 0 <= k <= |s| && FullMatch(x, s[..k]) && FullMatch(y, s[k..])
    ensures FullMatch(x + y, s)
    decreases |x|
  {
    if x == [] {
      assert x + y == y && s[..k] == [] && k == 0 && s[k..] == s;
    } else {
      assert (x + y)[0] == x[0] && (x + y)[1..] == x[1..] + y;
      match x[0]
      case Lit(c) =>
        assert k >= 1 && s[0] == c;
        assert s[..k][1..] == s[1..][..k - 1] && s[k..] == s[1..][k - 1..];
        ConcatJoins(x[1..], y, s[1..], k - 1);
      case AnyRun =>
        var m :| 0 <= m <= k && FullMatch(x[1..], s[..k][m..]);
        assert s[..k][m..] == s[m..][..k - m] && s[k..] == s[m..][k - m..];
        ConcatJoins(x[1..], y, s[m..], k - m);
        assert FullMatch(x[1..] + y, s[m..]);
    }
  }

  /** Matching a concatenation splits the string in two. */
  lemma FullMatchConcat(x: seq<Atom>, y: seq<Atom>, s: string)
    ensures FullMatch(x + y, s) <==> exists k :: 0 <= k <= |s| && FullMatch(x, s[..k]) && FullMatch(y, s[k..])
  {
    if FullMatch(x + y, s) {
      ConcatSplits(x, y, s);
    }
    if exists k :: 0 <= k <= |s| && FullMatch(x, s[..k]) && FullMatch(y, s[k..]) {
      var k :| 0 <= k <= |s| && FullMatch(x, s[..k]) && FullMatch(y, s[k..]);
      ConcatJoins(x, y, s, k);
    }
  }

  lemma WildcardAtoms(a: string, b: string)
    requires '*' !in a && '*' !in b
    ensures CompileAtoms(a + "*" + b, MultiUrlPattern)
         == CompileAtoms(a, MultiUrlPattern) + ([AnyRun] + CompileAtoms(b, MultiUrlPattern))
  {
    CompileAppend(a + "*", b, MultiUrlPattern);
    CompileAppend(a, "*", MultiUrlPattern);
    assert CompileAtoms("*", MultiUrlPattern) == [AnyRun];
  }

  /** `.*b` matches the strings that end with b. */
  lemma {:induction false} RunThenLiteral(b: string, s: string)
    requires '*' !in b
    ensures FullMatch([AnyRun] + CompileAtoms(b, MultiUrlPattern), s) <==> EndsWith(s, b)
  {
    var B := CompileAtoms(b, MultiUrlPattern);
    assert ([AnyRun] + B)[0] == AnyRun && ([AnyRun] + B)[1..] == B;
    if FullMatch([AnyRun] + B, s) {
      var m :| 0 <= m <= |s| && FullMatch(B, s[m..]);
      LiteralFullMatch(b, MultiUrlPattern, s[m..]);
    }
    if EndsWith(s, b) {
      LiteralFullMatch(b, MultiUrlPattern, s[|s| - |b|..]);
    }
  }

  /** `a*b` (with no other `*`) matches a string that starts with a and ends with b, after it. */
  lemma WildcardMeaning(a: string, b: string, s: string)
    requires '*' !in a && '*' !in b
    ensures FullMatch(CompileAtoms(a + "*" + b, MultiUrlPattern), s)
        <==> |a| + |b| <= |s| && StartsWith(s, a) && EndsWith(s, b)
  {
    var A, B := CompileAtoms(a, MultiUrlPattern), CompileAtoms(b, MultiUrlPattern);
    WildcardAtoms(a, b);
    FullMatchConcat(A, [AnyRun] + B, s);
    if FullMatch(A + ([AnyRun] + B), s) {
      var k :| 0 <= k <= |s| && FullMatch(A, s[..k]) && FullMatch([AnyRun] + B, s[k..]);
      LiteralFullMatch(a, MultiUrlPattern, s[..k]);
      RunThenLiteral(b, s[k..]);
      assert s[k..][|s[k..]| - |b|..] == s[|s| - |b|..];
    }
    if |a| + |b| <= |s| && StartsWith(s, a) && EndsWith(s, b) {
      var k := |a|;
      LiteralFullMatch(a, MultiUrlPattern, s[..k]);
      RunThenLiteral(b, s[k..]);
      assert s[k..][|s[k..]| - |b|..] == s[|s| - |b|..];
    }
  }

  /** The multi-url pattern `*` matches every url. */
  lemma StarMatchesEverything(url: string)
    ensures Matches("*", MultiUrlPattern, url)
  {
    var atoms := CompileAtoms("*", MultiUrlPattern);
    assert atoms == [AnyRun];
    assert FullMatch(atoms[1..], url[0..0][0..]);
    assert FullMatch(atoms, url[0..0]);
  }

  /** A multi-url pattern's matches survive anything added around the url. */
  lemma MultiMatchSurvivesContext(p: string, url: string, before: string, after: string)
    requires Matches(p, MultiUrlPattern, url)
    ensures Matches(p, MultiUrlPattern, before + url + after)
  {
    var r := Compile(p, MultiUrlPattern);
    var i, j :| 0 <= i <= j <= |url| && FullMatch(r.atoms, url[i..j]);
    var s := before + url + after;
    assert s[|before| + i..|before| + j] == url[i..j];
  }
}
