/**
 * The serializers of the REST API: the display fallbacks of the url API
 * serializer, and the create path of the pattern serializers -- the field checks,
 * the unique (collection, match pattern) check and the `validate_match_pattern`
 * hook of the title, document-type and division serializers, which first deletes
 * an individual-url pattern with the same match pattern, in any collection.
 *
 * The display label of a document type or a division comes from choice tables
 * that are not part of this model, so it is a parameter.
 */
module Serializers {
  import opened Wrappers
  import opened DeltaUrls
  import opened PatternRegex

  // ------------------------------------------------------- display fallbacks

  /** `get_title`: the generated title when it is not empty, else the scraped one. */
  function ApiTitle(rec: UrlRecord): (t: string)
    ensures t == rec.generatedTitle || (rec.generatedTitle == "" && t == rec.scrapedTitle)
    ensures t == "" <==> rec.generatedTitle == "" && rec.scrapedTitle == ""
  {
    if rec.generatedTitle != "" then rec.generatedTitle else rec.scrapedTitle
  }

  /**
   * `get_document_type`: the label of the url's own document type, else that of its
   * collection's, else "Unknown".
   */
  function ApiDocumentType(rec: UrlRecord, collectionType: Option<int>, labelOf: int -> string): (s: string)
    ensures rec.documentType.Some? ==> s == labelOf(rec.documentType.value)
    ensures rec.documentType.None? && collectionType.Some? ==> s == labelOf(collectionType.value)
    ensures rec.documentType.None? && collectionType.None? ==> s == "Unknown"
  {
    match rec.documentType
    case Some(t) => labelOf(t)
    case None =>
      match collectionType
      case Some(t) => labelOf(t)
      case None => "Unknown"
  }

  /** The fields of a collection that its tree root is built from. */
  datatype CollectionInfo = CollectionInfo(name: string, division: int, isMultiDivision: bool)

  /** `Collection.tree_root`: the division label and the name, between slashes. */
  function CollectionTreeRoot(c: CollectionInfo, labelOf: int -> string): (s: string)
    ensures |s| == |labelOf(c.division)| + |c.name| + 3 && s[0] == '/' && s[|s| - 1] == '/'
    ensures s[1..1 + |labelOf(c.division)|] == labelOf(c.division)
  {
    "/" + labelOf(c.division) + "/" + c.name + "/"
  }

  /** Python's truth value of a nullable integer field. */
  predicate Truthy(v: Option<int>)
  {
    v.Some? && v.value != 0
  }

  /**
   * `get_tree_root`: a url of a multi-division collection that has a division of its
   * own is filed under that division; every other url under its collection's root.
   */
  function ApiTreeRoot(rec: UrlRecord, c: CollectionInfo, labelOf: int -> string): (s: string)
    ensures !(c.isMultiDivision && Truthy(rec.division)) ==> s == CollectionTreeRoot(c, labelOf)
    ensures c.isMultiDivision && Truthy(rec.division) ==> s == CollectionTreeRoot(c.(division := rec.division.value), labelOf)
  {
    if c.isMultiDivision then
      if Truthy(rec.division) then "/" + labelOf(rec.division.value) + "/" + c.name + "/"
      else "/" + labelOf(c.division) + "/" + c.name + "/"
    else CollectionTreeRoot(c, labelOf)
  }

  /** Two urls of one collection share a tree root unless one has a division of its own in a multi-division collection. */
  lemma SharedTreeRoot(a: UrlRecord, b: UrlRecord, c: CollectionInfo, labelOf: int -> string)
    requires !(c.isMultiDivision && Truthy(a.division)) && !(c.isMultiDivision && Truthy(b.division))
    ensures ApiTreeRoot(a, c, labelOf) == ApiTreeRoot(b, c, labelOf)
  {
  }

  /** The document types the document-type pattern serializer accepts: the model's, and 0 for "None". */
  function DocumentTypeChoices(modelChoices: set<int>): (cs: set<int>)
    ensures 0 in cs && modelChoices <= cs && |cs - modelChoices| <= 1
  {
    modelChoices + {0}
  }

  // ----------------------------------------------------------- pattern rows

  /** A row of one of the pattern tables; `value` is the document type or the division, 0 for the others. */
  datatype PatternRow = PatternRow(collection: int, matchPattern: string, matchType: MatchType, value: int)

  /** No two rows share a collection and a match pattern (the tables' `unique_together`). */
  predicate UniquePairs(rows: seq<PatternRow>)
  {
    forall i, j :: 0 <= i < j < |rows| ==>
      rows[i].collection != rows[j].collection || rows[i].matchPattern != rows[j].matchPattern
  }

  predicate HasPair(rows: seq<PatternRow>, c: int, p: string)
  {
    exists i :: 0 <= i < |rows| && rows[i].collection == c && rows[i].matchPattern == p
  }

  /** The row the hook deletes: an individual-url pattern with the given match pattern. */
  predicate Replaced(q: PatternRow, p: string)
  {
    q.matchType == IndividualUrl && q.matchPattern == p
  }

  /** The rows the hook would delete, in table order. */
  function Matching(rows: seq<PatternRow>, p: string): (m: seq<PatternRow>)
    ensures |m| <= |rows|
    ensures forall q :: q in m ==> q in rows && Replaced(q, p)
  {
    if rows == [] then []
    else
      var last := rows[|rows| - 1];
      Matching(rows[..|rows| - 1], p) + (if Replaced(last, p) then [last] else [])
  }

  /** The rows the hook keeps, in table order. */
  function Kept(rows: seq<PatternRow>, p: string): (k: seq<PatternRow>)
    ensures |k| + |Matching(rows, p)| == |rows|
    ensures forall q :: q in k ==> q in rows && !Replaced(q, p)
  {
    if rows == [] then []
    else
      var last := rows[|rows| - 1];
      Kept(rows[..|rows| - 1], p) + (if Replaced(last, p) then [] else [last])
  }

  lemma {:induction false} KeepsOthers(rows: seq<PatternRow>, p: string, q: PatternRow)
    requires q in rows && !Replaced(q, p)
    ensures q in Kept(rows, p)
  {
    var last := rows[|rows| - 1];
    if q != last {
      assert rows == rows[..|rows| - 1] + [last];
      KeepsOthers(rows[..|rows| - 1], p, q);
    }
  }

  lemma {:induction false} KeptNoMatch(rows: seq<PatternRow>, p: string)
    requires Matching(rows, p) == []
    ensures Kept(rows, p) == rows
  {
    if rows != [] {
      KeptNoMatch(rows[..|rows| - 1], p);
      assert rows == rows[..|rows| - 1] + [rows[|rows| - 1]];
    }
  }

  lemma {:induction false} NoneMatching(rows: seq<PatternRow>, p: string)
    requires forall q :: q in rows ==> !Replaced(q, p)
    ensures Matching(rows, p) == []
  {
    if rows != [] {
      assert rows[|rows| - 1] in rows;
      forall q | q in rows[..|rows| - 1] ensures !Replaced(q, p) {
        assert q in rows;
      }
      NoneMatching(rows[..|rows| - 1], p);
    }
  }

  lemma UniquePrefix(rows: seq<PatternRow>, x: PatternRow)
    requires UniquePairs(rows + [x])
    ensures UniquePairs(rows) && !HasPair(rows, x.collection, x.matchPattern)
  {
    var all := rows + [x];
    forall i, j | 0 <= i < j < |rows|
      ensures rows[i].collection != rows[j].collection || rows[i].matchPattern != rows[j].matchPattern
    {
      assert all[i] == rows[i] && all[j] == rows[j];
    }
    forall i | 0 <= i < |rows|
      ensures rows[i].collection != x.collection || rows[i].matchPattern != x.matchPattern
    {
      assert all[i] == rows[i] && all[|rows|] == x;
    }
  }

  lemma UniqueAppend(rows: seq<PatternRow>, x: PatternRow)
    requires UniquePairs(rows) && !HasPair(rows, x.collection, x.matchPattern)
    ensures UniquePairs(rows + [x])
  {
    var all := rows + [x];
    forall i, j | 0 <= i < j < |all|
      ensures all[i].collection != all[j].collection || all[i].matchPattern != all[j].matchPattern
    {
      if j == |rows| {
        assert all[i] == rows[i];
      } else {
        assert all[i] == rows[i] && all[j] == rows[j];
      }
    }
  }

  /** A pair occurs in a subsequence only if it occurs in the whole. */
  lemma PairFromKept(rows: seq<PatternRow>, p: string, c: int, m: string)
    requires HasPair(Kept(rows, p), c, m)
    ensures HasPair(rows, c, m)
  {
    var k := Kept(rows, p);
    var i :| 0 <= i < |k| && k[i].collection == c && k[i].matchPattern == m;
    assert k[i] in rows;
    var j :| 0 <= j < |rows| && rows[j] == k[i];
  }

  /** The hook keeps the table free of duplicate pairs. */
  lemma {:induction false} KeptUnique(rows: seq<PatternRow>, p: string)
    requires UniquePairs(rows)
    ensures UniquePairs(Kept(rows, p))
  {
    if rows != [] {
      var init, last := rows[..|rows| - 1], rows[|rows| - 1];
      assert rows == init + [last];
      UniquePrefix(init, last);
      KeptUnique(init, p);
      if !Replaced(last, p) {
        if HasPair(Kept(init, p), last.collection, last.matchPattern) {
          PairFromKept(init, p, last.collection, last.matchPattern);
        }
        UniqueAppend(Kept(init, p), last);
      }
    }
  }

  /**
   * After the hook no individual-url pattern with the match pattern is left, in
   * any collection, and every other row is still there.
   */
  lemma HookDeletes(rows: seq<PatternRow>, p: string)
    ensures Matching(Kept(rows, p), p) == []
    ensures forall q :: q in rows && !Replaced(q, p) ==> q in Kept(rows, p)
    ensures forall q :: q in rows && Replaced(q, p) ==> q !in Kept(rows, p)
  {
    var k := Kept(rows, p);
    NoneMatching(k, p);
    forall q | q in rows && !Replaced(q, p) ensures q in k {
      KeepsOthers(rows, p, q);
    }
  }

  /**
   * The replace-on-create rule: when the pair named by a create is held by an
   * individual-url pattern, the hook deletes that row and the unique check passes.
   */
  lemma ReplaceOnCreate(rows: seq<PatternRow>, i: nat)
    requires UniquePairs(rows) && i < |rows| && rows[i].matchType == IndividualUrl
    ensures !HasPair(Kept(rows, rows[i].matchPattern), rows[i].collection, rows[i].matchPattern)
  {
    var c, p := rows[i].collection, rows[i].matchPattern;
    var k := Kept(rows, p);
    forall j | 0 <= j < |k| ensures k[j].collection != c || k[j].matchPattern != p {
      assert k[j] in k;
      if k[j].matchPattern == p {
        var l :| 0 <= l < |rows| && rows[l] == k[j];
        assert rows[l].matchType != rows[i].matchType;
        if l < i {
          assert rows[l].collection != rows[i].collection;
        } else {
          assert rows[i].collection != rows[l].collection;
        }
      }
    }
  }

  // ------------------------------------------------------------ the create path

  /** Python's truth value of an optional request string. */
  predicate NonBlank(s: Option<string>)
  {
    s.Some? && s.value != ""
  }

  /** The outcome of a request against a pattern table: the result and the rows afterwards. */
  datatype Outcome = Outcome(result: Result<Response, PyError>, rows: seq<PatternRow>)

  /** An HTTP response: its status code and message. */
  datatype Response = Response(status: nat, message: string)

  const Created := Response(201, "")

  /** The rows after the `validate_match_pattern` hook ran (if the serializer has one and the pattern is given). */
  function Hooked(rows: seq<PatternRow>, p: Option<string>, hook: bool): seq<PatternRow>
  {
    if hook && NonBlank(p) then Kept(rows, p.value) else rows
  }

  /** The field checks pass: a known collection, a non-blank match pattern and an accepted value. */
  predicate FieldsValid(collections: set<int>, c: Option<int>, p: Option<string>, valueValid: bool)
  {
    c.Some? && c.value in collections && NonBlank(p) && valueValid
  }

  /**
   * A serializer create: the hook (when `hook`), which raises when the match pattern
   * names more than one individual-url pattern; then the field checks and the
   * unique check, which raise a validation error; then the new row.
   */
  function CreateOutcome(rows: seq<PatternRow>, collections: set<int>, c: Option<int>, p: Option<string>,
                         t: MatchType, value: int, valueValid: bool, hook: bool): Outcome
  {
    if hook && NonBlank(p) && |Matching(rows, p.value)| >= 2 then Outcome(Err(MultipleObjectsReturned), rows)
    else
      var mid := Hooked(rows, p, hook);
      if !FieldsValid(collections, c, p, valueValid) || HasPair(mid, c.value, p.value) then Outcome(Err(ValidationError), mid)
      else Outcome(Ok(Created), mid + [PatternRow(c.value, p.value, t, value)])
  }

  /**
   * A create keeps the pairs unique; it adds a row exactly when the fields are valid
   * and the pair is free after the hook, and otherwise leaves at most the hook's
   * deletion behind.
   */
  lemma CreateOutcomeMeaning(rows: seq<PatternRow>, collections: set<int>, c: Option<int>, p: Option<string>,
                             t: MatchType, value: int, valueValid: bool, hook: bool)
    requires UniquePairs(rows)
    ensures var o := CreateOutcome(rows, collections, c, p, t, value, valueValid, hook);
      && UniquePairs(o.rows)
      && (o.result.Ok? <==> FieldsValid(collections, c, p, valueValid)
                            && !(hook && |Matching(rows, p.value)| >= 2)
                            && !HasPair(Hooked(rows, p, hook), c.value, p.value))
      && (o.result.Ok? ==> o.rows[|o.rows| - 1] == PatternRow(c.value, p.value, t, value) && HasPair(o.rows, c.value, p.value))
      && (o.result.Err? ==> o.rows == Hooked(rows, p, hook) || o.rows == rows)
  {
    var o := CreateOutcome(rows, collections, c, p, t, value, valueValid, hook);
    var mid := Hooked(rows, p, hook);
    if hook && NonBlank(p) {
      KeptUnique(rows, p.value);
    }
    if o.result.Ok? {
      UniqueAppend(mid, PatternRow(c.value, p.value, t, value));
      assert o.rows[|o.rows| - 1] == PatternRow(c.value, p.value, t, value);
    }
  }

  // ------------------------------------------------------------ the table

  /** One pattern table of the database, in the order it returns rows. */
  class PatternTable {
    var rows: seq<PatternRow>

    constructor (rows: seq<PatternRow>)
      requires UniquePairs(rows)
      ensures Valid() && this.rows == rows
    {
      this.rows := rows;
    }

    predicate Valid()
      reads this
    {
      UniquePairs(rows)
    }

    /**
     * `validate_match_pattern`: looks up the individual-url pattern with the match
     * pattern, in every collection; deletes it when there is exactly one and raises
     * `MultipleObjectsReturned` when there are more. The value is returned unchanged.
     */
    method ValidateMatchPattern(p: string) returns (r: Result<string, PyError>)
      requires Valid()
      modifies this
      ensures Valid()
      ensures r.Err? <==> |Matching(old(rows), p)| >= 2
      ensures r.Err? ==> r.error == MultipleObjectsReturned && rows == old(rows)
      ensures r.Ok? ==> r.value == p && rows == Kept(old(rows), p) && |old(rows)| - |rows| <= 1
    {
      var found := 0;
      var kept: seq<PatternRow> := [];
      for i := 0 to |rows|
        invariant found == |Matching(rows[..i], p)|
        invariant kept == Kept(rows[..i], p)
      {
        assert rows[..i + 1][..i] == rows[..i];
        if Replaced(rows[i], p) {
          found := found + 1;
        } else {
          kept := kept + [rows[i]];
        }
      }
      assert rows[..|rows|] == rows;
      if found >= 2 {
        return Err(MultipleObjectsReturned);
      }
      KeptUnique(rows, p);
      rows := kept;
      return Ok(p);
    }

    /** A serializer's `create` through `is_valid(raise_exception=True)` and `save()`. */
    method Create(collections: set<int>, c: Option<int>, p: Option<string>, t: MatchType,
                  value: int, valueValid: bool, hook: bool) returns (r: Result<Response, PyError>)
      requires Valid()
      modifies this
      ensures Valid()
      ensures Outcome(r, rows) == CreateOutcome(old(rows), collections, c, p, t, value, valueValid, hook)
    {
      if hook && NonBlank(p) {
        var checked := ValidateMatchPattern(p.value);
        if checked.Err? {
          return Err(checked.error);
        }
      }
      if !FieldsValid(collections, c, p, valueValid) || HasPair(rows, c.value, p.value) {
        return Err(ValidationError);
      }
      UniqueAppend(rows, PatternRow(c.value, p.value, t, value));
      rows := rows + [PatternRow(c.value, p.value, t, value)];
      return Ok(Created);
    }
  }
}
