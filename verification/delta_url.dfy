/**
 * The URL tiers of one collection -- the raw dump, the pending deltas and the
 * curated (production) urls -- with the tables that record resolved titles and
 * title errors for delta urls, and the helpers every url offers (its file
 * extension, its path and the cumulative splits of that path).
 *
 * A row is keyed by its url; the collection it belongs to is implicit, since one
 * `Tables` object holds the rows of one collection.
 */
module DeltaUrls {
  import opened Wrappers

  // ------------------------------------------------------------------ records

  /** The fields the three tiers share, besides the url and the collection. */
  datatype UrlRecord = UrlRecord(
    scrapedTitle: string,
    generatedTitle: string,
    visited: bool,
    documentType: Option<int>,
    division: Option<int>)

  /** The field values of a row created without any of them given. */
  const BlankRecord: UrlRecord := UrlRecord("", "", false, None, None)

  /** A delta row: the shared fields plus the flag that marks a pending deletion. */
  datatype DeltaRecord = DeltaRecord(rec: UrlRecord, toDelete: bool)

  /** The shared fields, in their declaration order. */
  datatype Field = ScrapedTitle | GeneratedTitle | Visited | DocumentType | Division

  const AllFields: seq<Field> := [ScrapedTitle, GeneratedTitle, Visited, DocumentType, Division]

  /** A field value, as the generic field loops of the curation code see it. */
  datatype FieldValue = Text(text: string) | Flag(flag: bool) | Number(number: Option<int>)

  /** Python's `value in [None, ""]`: an empty string or a null; a boolean is never blank. */
  predicate IsBlank(v: FieldValue)
  {
    v == Text("") || v == Number(None)
  }

  /** The kind of value a field holds. */
  predicate Fits(f: Field, v: FieldValue)
  {
    match f
    case ScrapedTitle => v.Text?
    case GeneratedTitle => v.Text?
    case Visited => v.Flag?
    case DocumentType => v.Number?
    case Division => v.Number?
  }

  /** `getattr(record, field)`. */
  function Get(r: UrlRecord, f: Field): (v: FieldValue)
    ensures Fits(f, v)
  {
    match f
    case ScrapedTitle => Text(r.scrapedTitle)
    case GeneratedTitle => Text(r.generatedTitle)
    case Visited => Flag(r.visited)
    case DocumentType => Number(r.documentType)
    case Division => Number(r.division)
  }

  /** `setattr(record, field, value)`: that field changes and no other. */
  function Set(r: UrlRecord, f: Field, v: FieldValue): (r': UrlRecord)
    requires Fits(f, v)
    ensures Get(r', f) == v
    ensures forall g :: g != f ==> Get(r', g) == Get(r, g)
  {
    match f
    case ScrapedTitle => r.(scrapedTitle := v.text)
    case GeneratedTitle => r.(generatedTitle := v.text)
    case Visited => r.(visited := v.flag)
    case DocumentType => r.(documentType := v.number)
    case Division => r.(division := v.number)
  }

  /** A record is nothing but its field values. */
  lemma SameFieldsSameRecord(a: UrlRecord, b: UrlRecord)
    requires forall f :: Get(a, f) == Get(b, f)
    ensures a == b
  {
    assert Get(a, ScrapedTitle) == Get(b, ScrapedTitle);
    assert Get(a, GeneratedTitle) == Get(b, GeneratedTitle);
    assert Get(a, Visited) == Get(b, Visited);
    assert Get(a, DocumentType) == Get(b, DocumentType);
    assert Get(a, Division) == Get(b, Division);
  }

  /** Every field is listed once in `AllFields`. */
  lemma AllFieldsListed(f: Field)
    ensures f in AllFields
  {
    match f
    case ScrapedTitle => assert AllFields[0] == f;
    case GeneratedTitle => assert AllFields[1] == f;
    case Visited => assert AllFields[2] == f;
    case DocumentType => assert AllFields[3] == f;
    case Division => assert AllFields[4] == f;
  }

  // ------------------------------------------------------------------- tables

  /** A resolved title row: the title pattern (by its match pattern) and the title. */
  datatype ResolvedTitle = ResolvedTitle(pattern: string, title: string)

  /** A title error row: the title pattern, the message and the HTTP status it names. */
  datatype TitleError = TitleError(pattern: string, message: string, httpStatusCode: Option<int>)

  /** A snapshot of all rows of one collection, keyed by url. */
  datatype Rows = Rows(
    dump: map<string, UrlRecord>,
    delta: map<string, DeltaRecord>,
    curated: map<string, UrlRecord>,
    resolved: map<string, ResolvedTitle>,
    errors: map<string, TitleError>)
  {
    /** Resolved titles and title errors belong to delta rows, one of each at most. */
    predicate Valid()
    {
      resolved.Keys <= delta.Keys && errors.Keys <= delta.Keys
    }
  }

  /** The database tables of one collection's urls. */
  class Tables {
    const collectionName: string
    var dump: map<string, UrlRecord>
    var delta: map<string, DeltaRecord>
    var curated: map<string, UrlRecord>
    var resolved: map<string, ResolvedTitle>
    var errors: map<string, TitleError>

    function Snapshot(): Rows
      reads this
    {
      Rows(dump, delta, curated, resolved, errors)
    }

    predicate Valid()
      reads this
    {
      Snapshot().Valid()
    }

    constructor (name: string)
      ensures collectionName == name && Valid()
      ensures dump == map[] && delta == map[] && curated == map[]
      ensures resolved == map[] && errors == map[]
    {
      collectionName := name;
      dump, delta, curated := map[], map[], map[];
      resolved, errors := map[], map[];
    }
  }

  // --------------------------------------------------------- exclusion status

  /** The url is in one of the given url lists. */
  predicate InSomeList(u: string, lists: seq<set<string>>)
  {
    exists i :: 0 <= i < |lists| && u in lists[i]
  }

  /**
   * The `excluded` annotation the default managers attach to every delta and
   * curated row: true exactly when some exclude pattern lists the row.
   */
  function WithExclusionStatus<V>(rows: map<string, V>, excludeLists: seq<set<string>>): (r: map<string, (V, bool)>)
    ensures r.Keys == rows.Keys
    ensures forall u :: u in r ==> r[u].0 == rows[u] && (r[u].1 <==> InSomeList(u, excludeLists))
  {
    map u | u in rows :: (rows[u], InSomeList(u, excludeLists))
  }

  /** As written, an include pattern listing the url does not lift its exclusion. */
  lemma ExclusionIgnoresIncludes()
    ensures exists rows: map<string, bool>, ex: seq<set<string>>, inc: seq<set<string>>, u ::
      u in rows && InSomeList(u, inc) && WithExclusionStatus(rows, ex)[u].1
  {
    var rows, ex, inc := map["a" := true], [{"a"}], [{"a"}];
    assert "a" in inc[0] && "a" in ex[0];
    assert InSomeList("a", inc) && InSomeList("a", ex);
    assert WithExclusionStatus(rows, ex)["a"].1;
  }

  /** The exclusion status the include patterns are meant to override. */
  predicate ExcludedUnlessIncluded(u: string, excludeLists: seq<set<string>>, includeLists: seq<set<string>>)
  {
    InSomeList(u, excludeLists) && !InSomeList(u, includeLists)
  }

  /**
   * The annotation as the include patterns intend it: a row is flagged when some
   * exclude pattern lists it and no include pattern does.
   */
  function WithIncludeAwareStatus<V>(rows: map<string, V>, excludeLists: seq<set<string>>, includeLists: seq<set<string>>): (r: map<string, (V, bool)>)
    ensures r.Keys == rows.Keys
    ensures forall u :: u in r ==> r[u].0 == rows[u]
  {
    map u | u in rows :: (rows[u], ExcludedUnlessIncluded(u, excludeLists, includeLists))
  }

  /**
   * Against the annotation as written: a flagged row stays flagged exactly when no
   * include list holds it, an included row is never flagged, and without include
   * patterns the two annotations agree.
   */
  lemma IncludeOverridesExclude<V>(rows: map<string, V>, ex: seq<set<string>>, inc: seq<set<string>>)
    ensures var fixed, written := WithIncludeAwareStatus(rows, ex, inc), WithExclusionStatus(rows, ex);
      && (forall u :: u in rows ==> (fixed[u].1 <==> written[u].1 && !InSomeList(u, inc)))
      && (forall u :: u in rows && InSomeList(u, inc) ==> !fixed[u].1)
      && (inc == [] ==> fixed == written)
  {
    var fixed, written := WithIncludeAwareStatus(rows, ex, inc), WithExclusionStatus(rows, ex);
    if inc == [] {
      forall u | u in rows
        ensures fixed[u] == written[u]
      {
        assert !InSomeList(u, inc);
      }
    }
  }

  // ---------------------------------------------------------- file extension

  predicate EndsWith(s: string, suffix: string)
  {
    |suffix| <= |s| && s[|s| - |suffix|..] == suffix
  }

  /** Position of the last `c` in `s`, or -1. */
  function LastIndexOf(s: string, c: char): (i: int)
    ensures -1 <= i < |s|
    ensures i >= 0 ==> s[i] == c
    ensures forall k :: i < k < |s| ==> s[k] != c
  {
    if s == [] then -1
    else if s[|s| - 1] == c then |s| - 1
    else LastIndexOf(s[..|s| - 1], c)
  }

  /**
   * The extension `os.path.splitext` splits off: from the last dot of the last
   * path component on, when a character other than a dot comes before that dot
   * within the component; otherwise nothing.
   */
  function Extension(path: string): (ext: string)
    ensures ext == [] || (ext[0] == '.' && '/' !in ext && '.' !in ext[1..])
    ensures EndsWith(path, ext)
  {
    var slash := LastIndexOf(path, '/');
    var dot := LastIndexOf(path, '.');
    if dot > slash && exists k :: slash < k < dot && path[k] != '.' then path[dot..] else []
  }

  /** The file extension of a url's path, "html" for a directory or a bare name. */
  function Fileext(path: string): (ext: string)
    ensures path == [] || path[|path| - 1] == '/' ==> ext == "html"
    ensures '/' !in ext && '.' !in ext
    ensures ext != "html" ==> EndsWith(path, "." + ext)
  {
    if path == [] || path[|path| - 1] == '/' then "html"
    else
      var e := Extension(path);
      if e == [] then "html" else e[1..]
  }

  /** A file name with a stem and an extension yields that extension. */
  lemma FileextOfFileName(dir: string, stem: string, x: string)
    requires dir == [] || dir[|dir| - 1] == '/'
    requires '/' !in stem && '/' !in x && '.' !in x && x != []
    requires exists k :: 0 <= k < |stem| && stem[k] != '.'
    ensures Fileext(dir + stem + "." + x) == x
  {
    var p := dir + stem + "." + x;
    var slash := LastIndexOf(p, '/');
    var dot := LastIndexOf(p, '.');
    var d := |dir| + |stem|;
    assert p[d] == '.';
    assert forall k :: d < k < |p| ==> p[k] == x[k - d - 1];
    assert dot == d;
    assert forall k :: |dir| <= k < |p| ==> p[k] != '/' by {
      forall k | |dir| <= k < |p| ensures p[k] != '/' {
        if k < d { assert p[k] == stem[k - |dir|]; } else if k > d { assert p[k] == x[k - d - 1]; }
      }
    }
    assert slash < |dir|;
    var j :| 0 <= j < |stem| && stem[j] != '.';
    assert p[|dir| + j] == stem[j];
    assert slash < |dir| + j < dot && p[|dir| + j] != '.';
    assert Extension(p) == p[d..];
    assert p[d..][1..] == x;
  }

  // --------------------------------------------------------------------- path

  /** The url's path followed by `?query` when the query is not empty. */
  function UrlPath(path: string, query: string): string
  {
    if query != [] then path + "?" + query else path
  }

  /** Split a string at its first '?' (the query is empty when there is none). */
  function PathAndQuery(s: string): (string, string)
  {
    if s == [] then ([], [])
    else if s[0] == '?' then ([], s[1..])
    else var rest := PathAndQuery(s[1..]); ([s[0]] + rest.0, rest.1)
  }

  /** A parsed url's path never holds a '?', so the path and query come back out. */
  lemma {:induction false} UrlPathRoundTrip(path: string, query: string)
    requires '?' !in path
    ensures PathAndQuery(UrlPath(path, query)) == (path, query)
  {
    var s := UrlPath(path, query);
    if path == [] {
      if query != [] {
        assert s == "?" + query && s[0] == '?' && s[1..] == query;
      }
    } else {
      UrlPathRoundTrip(path[1..], query);
      assert s == [path[0]] + UrlPath(path[1..], query);
      assert s[0] == path[0] && s[0] != '?';
      assert s[1..] == UrlPath(path[1..], query);
      assert [path[0]] + path[1..] == path;
    }
  }

  // ------------------------------------------------------------------- splits

  /** Python's `str.split(sep)`. */
  function SplitOn(s: string, sep: char): (parts: seq<string>)
    ensures |parts| >= 1
    ensures forall i :: 0 <= i < |parts| ==> sep !in parts[i]
    ensures JoinWith(parts, sep) == s
    decreases |s|
  {
    if s == [] then [""]
    else
      var rest := SplitOn(s[1..], sep);
      if s[0] == sep then
        assert ([""] + rest)[1..] == rest;
        [""] + rest
      else
        var parts := [[s[0]] + rest[0]] + rest[1..];
        assert |rest| > 1 ==> JoinWith(parts, sep) == [s[0]] + JoinWith(rest, sep) by {
          if |rest| > 1 {
            assert parts[1..] == rest[1..];
            assert ([s[0]] + rest[0]) + [sep] + JoinWith(rest[1..], sep)
                == [s[0]] + (rest[0] + [sep] + JoinWith(rest[1..], sep));
          }
        }
        assert s == [s[0]] + s[1..];
        parts
  }

  /** Python's `sep.join(parts)`. */
  function JoinWith(parts: seq<string>, sep: char): string
  {
    if parts == [] then []
    else if |parts| == 1 then parts[0]
    else parts[0] + [sep] + JoinWith(parts[1..], sep)
  }

  /** The non-empty parts, in order. */
  function NonEmpty(parts: seq<string>): seq<string>
  {
    if parts == [] then []
    else (if parts[0] == [] then [] else [parts[0]]) + NonEmpty(parts[1..])
  }

  /** `NonEmpty` keeps exactly the non-empty parts. */
  lemma {:induction false} NonEmptyShape(parts: seq<string>)
    ensures forall i :: 0 <= i < |NonEmpty(parts)| ==> NonEmpty(parts)[i] != [] && NonEmpty(parts)[i] in parts
    ensures forall x :: x in parts && x != [] ==> x in NonEmpty(parts)
  {
    if parts != [] {
      NonEmptyShape(parts[1..]);
      var r := NonEmpty(parts);
      var head := if parts[0] == [] then [] else [parts[0]];
      assert r == head + NonEmpty(parts[1..]);
      forall x | x in parts && x != [] ensures x in r {
        if x != parts[0] {
          var j :| 0 <= j < |parts| && parts[j] == x;
          assert parts[1..][j - 1] == x;
        }
      }
    }
  }

  /** The non-empty components of a path between its slashes. */
  function PathSegments(path: string): seq<string>
  {
    NonEmpty(SplitOn(path, '/'))
  }

  /** "/s1/s2/.../sn", the path made of the first n segments. */
  function JoinedPrefix(segs: seq<string>, n: nat): string
    requires n <= |segs|
  {
    if n == 0 then [] else JoinedPrefix(segs, n - 1) + "/" + segs[n - 1]
  }

  lemma {:induction false} NonEmptyAppend(a: seq<string>, b: seq<string>)
    ensures NonEmpty(a + b) == NonEmpty(a) + NonEmpty(b)
  {
    if a != [] {
      assert (a + b)[1..] == a[1..] + b;
      NonEmptyAppend(a[1..], b);
    } else {
      assert a + b == b;
    }
  }

  lemma {:induction false} JoinedPrefixExtend(segs: seq<string>, more: seq<string>, n: nat)
    requires n <= |segs|
    ensures JoinedPrefix(segs + more, n) == JoinedPrefix(segs, n)
  {
    if n > 0 {
      JoinedPrefixExtend(segs, more, n - 1);
    }
  }

  /** The cumulative splits of a segment list: each prefix path with its last segment. */
  function SplitsOf(segs: seq<string>): seq<(string, string)>
  {
    if segs == [] then []
    else SplitsOf(segs[..|segs| - 1]) + [(JoinedPrefix(segs, |segs|), segs[|segs| - 1])]
  }

  /** The i-th split is the path of the first i + 1 segments, paired with segment i. */
  lemma {:induction false} SplitsOfAt(segs: seq<string>, i: nat)
    requires i < |segs|
    ensures |SplitsOf(segs)| == |segs|
    ensures SplitsOf(segs)[i] == (JoinedPrefix(segs, i + 1), segs[i])
    decreases |segs|
  {
    var init := segs[..|segs| - 1];
    if i < |segs| - 1 {
      SplitsOfAt(init, i);
      JoinedPrefixExtend(init, [segs[|segs| - 1]], i + 1);
      assert init + [segs[|segs| - 1]] == segs;
    } else if init != [] {
      SplitsOfAt(init, 0);
    }
  }

  /**
   * The cumulative splits of the url's path: for each non-empty segment, the path
   * up to and including it, and the segment itself.
   */
  method Splits(path: string) returns (parts: seq<(string, string)>)
    ensures parts == SplitsOf(PathSegments(path))
  {
    var pieces := SplitOn(path, '/');
    parts := [];
    var partString := "";
    ghost var segs: seq<string> := [];
    for k := 0 to |pieces|
      invariant segs == NonEmpty(pieces[..k])
      invariant partString == JoinedPrefix(segs, |segs|)
      invariant parts == SplitsOf(segs)
    {
      NonEmptyStep(pieces, k);
      if pieces[k] != [] {
        var x := pieces[k];
        SplitsStep(segs, x);
        partString := partString + "/" + x;
        parts := parts + [(partString, x)];
        segs := segs + [x];
      }
    }
    assert pieces[..|pieces|] == pieces;
  }

  lemma SplitsStep(segs: seq<string>, x: string)
    ensures JoinedPrefix(segs + [x], |segs| + 1) == JoinedPrefix(segs, |segs|) + "/" + x
    ensures SplitsOf(segs + [x]) == SplitsOf(segs) + [(JoinedPrefix(segs, |segs|) + "/" + x, x)]
  {
    JoinedPrefixExtend(segs, [x], |segs|);
    assert (segs + [x])[..|segs|] == segs;
  }

  lemma NonEmptyStep(pieces: seq<string>, k: nat)
    requires k < |pieces|
    ensures NonEmpty(pieces[..k + 1]) == NonEmpty(pieces[..k]) + (if pieces[k] == [] then [] else [pieces[k]])
  {
    assert pieces[..k + 1] == pieces[..k] + [pieces[k]];
    NonEmptyAppend(pieces[..k], [pieces[k]]);
    assert NonEmpty([pieces[k]]) == (if pieces[k] == [] then [] else [pieces[k]]) + NonEmpty([]);
  }

  lemma {:induction false} SplitAppend(a: string, b: string, sep: char)
    ensures SplitOn(a + [sep] + b, sep) == SplitOn(a, sep) + SplitOn(b, sep)
    decreases |a|
  {
    if a == [] {
      assert a + [sep] + b == [sep] + b;
      assert ([sep] + b)[1..] == b;
    } else {
      var s := a + [sep] + b;
      assert s[0] == a[0] && s[1..] == a[1..] + [sep] + b;
      SplitAppend(a[1..], b, sep);
    }
  }

  lemma {:induction false} SplitWithoutSeparator(s: string, sep: char)
    requires sep !in s
    ensures SplitOn(s, sep) == [s]
    decreases |s|
  {
    if s != [] {
      SplitWithoutSeparator(s[1..], sep);
      assert [s[0]] + s[1..] == s;
    }
  }

  lemma {:induction false} SplitJoinedPrefix(segs: seq<string>, n: nat)
    requires n <= |segs|
    requires forall i :: 0 <= i < |segs| ==> '/' !in segs[i]
    ensures SplitOn(JoinedPrefix(segs, n), '/') == [""] + segs[..n]
  {
    if n > 0 {
      SplitJoinedPrefix(segs, n - 1);
      SplitWithoutSeparator(segs[n - 1], '/');
      SplitAppend(JoinedPrefix(segs, n - 1), segs[n - 1], '/');
      assert JoinedPrefix(segs, n) == JoinedPrefix(segs, n - 1) + ['/'] + segs[n - 1];
      assert segs[..n] == segs[..n - 1] + [segs[n - 1]];
    }
  }

  lemma {:induction false} NonEmptyKeepsNonEmpty(segs: seq<string>)
    requires forall i :: 0 <= i < |segs| ==> segs[i] != []
    ensures NonEmpty(segs) == segs
  {
    if segs != [] {
      NonEmptyKeepsNonEmpty(segs[1..]);
    }
  }

  /** The segments of the path that `Splits` rebuilds last are the segments it was given. */
  lemma SegmentsOfJoinedPath(segs: seq<string>)
    requires forall i :: 0 <= i < |segs| ==> segs[i] != [] && '/' !in segs[i]
    ensures PathSegments(JoinedPrefix(segs, |segs|)) == segs
  {
    SplitJoinedPrefix(segs, |segs|);
    assert segs[..|segs|] == segs;
    NonEmptyKeepsNonEmpty(segs);
    assert NonEmpty([""] + segs) == NonEmpty(segs);
  }

  /** Every split names one non-empty segment, free of slashes, and ends with it. */
  lemma PathSegmentsShape(path: string)
    ensures forall i :: 0 <= i < |PathSegments(path)| ==>
      PathSegments(path)[i] != [] && '/' !in PathSegments(path)[i]
  {
    var pieces := SplitOn(path, '/');
    NonEmptyShape(pieces);
    forall i | 0 <= i < |PathSegments(path)|
      ensures PathSegments(path)[i] != [] && '/' !in PathSegments(path)[i]
    {
      var s := PathSegments(path)[i];
      assert s in pieces;
      var j :| 0 <= j < |pieces| && pieces[j] == s;
    }
  }
}
