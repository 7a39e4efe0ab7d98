/**
 * The API views that change state: the indexing hand-shake with the indexer
 * (which collection to index next, and the two status notices it sends back), the
 * create handlers of the pattern tables (an exclude or include create toggles the
 * pattern, a document type of 0 deletes an individual-url pattern, a division is
 * required), and the GitHub issue link posted on a collection's detail page.
 */
module Views {
  import opened Wrappers
  import opened Workflow
  import opened PatternRegex
  import opened Serializers
  import Collections

  const OkResponse := Response(200, "")
  const NoContent := Response(204, "")
  const Redirect := Response(302, "")
  const NotFound := Response(404, "")

  // ------------------------------------------------------------ issue links

  predicate IsDigit(c: char)
  {
    '0' <= c <= '9'
  }

  predicate AllDigits(s: string)
  {
    forall i :: 0 <= i < |s| ==> IsDigit(s[i])
  }

  /** The number a string of decimal digits spells (Python's `int`). */
  function DigitsValue(d: string): nat
  {
    if d == [] then 0 else DigitsValue(d[..|d| - 1]) * 10 + DigitValue(d[|d| - 1])
  }

  function DigitValue(c: char): nat
  {
    if IsDigit(c) then c as int - '0' as int else 0
  }

  /** The length of the run of digits that ends the string. */
  function TrailingDigits(s: string): (k: nat)
    ensures k <= |s| && forall i :: |s| - k <= i < |s| ==> IsDigit(s[i])
    ensures k < |s| ==> !IsDigit(s[|s| - k - 1])
  {
    if s != [] && IsDigit(s[|s| - 1]) then TrailingDigits(s[..|s| - 1]) + 1 else 0
  }

  /** The string without its last character, when that is `c`. */
  function DropLast(s: string, c: char): (r: string)
    ensures r == s || (s == r + [c])
  {
    if s != [] && s[|s| - 1] == c then s[..|s| - 1] else s
  }

  const IssuesMarker := "/issues/"

  /**
   * `re.search(r"/issues/(\d+)/?$", link)` and `int` of the group: the digits
   * after the last "/issues/", which end the link but for an optional "/" and
   * then the one newline that `$` may precede.
   */
  function IssueNumber(link: string): Option<nat>
  {
    var t := DropLast(DropLast(link, '\n'), '/');
    var k := TrailingDigits(t);
    var head := t[..|t| - k];
    if k > 0 && |head| >= |IssuesMarker| && head[|head| - |IssuesMarker|..] == IssuesMarker
    then Some(DigitsValue(t[|t| - k..]))
    else None
  }

  /** A link the pattern accepts, built from its parts. */
  function IssueLink(prefix: string, digits: string, slash: bool, newline: bool): string
  {
    prefix + IssuesMarker + digits + (if slash then "/" else "") + (if newline then "\n" else "")
  }

  /** Every link built from digits parses to their value. */
  lemma IssueLinkParses(prefix: string, digits: string, slash: bool, newline: bool)
    requires digits != [] && AllDigits(digits)
    ensures IssueNumber(IssueLink(prefix, digits, slash, newline)) == Some(DigitsValue(digits))
  {
    var body := prefix + IssuesMarker + digits;
    var withSlash := body + (if slash then "/" else "");
    var link := withSlash + (if newline then "\n" else "");
    assert link == IssueLink(prefix, digits, slash, newline);
    assert DropLast(link, '\n') == withSlash by {
      if !newline {
        if slash {
          assert withSlash[|withSlash| - 1] == '/';
        } else {
          assert withSlash[|withSlash| - 1] == digits[|digits| - 1];
        }
      }
    }
    assert DropLast(withSlash, '/') == body by {
      if !slash {
        assert body[|body| - 1] == digits[|digits| - 1];
      }
    }
    DigitRunOfLink(prefix + IssuesMarker, digits);
  }

  /** The trailing run of digits after a marker ending in '/' is exactly the digits. */
  lemma DigitRunOfLink(head: string, digits: string)
    requires digits != [] && AllDigits(digits) && head != [] && head[|head| - 1] == '/'
    ensures TrailingDigits(head + digits) == |digits|
    decreases |digits|
  {
    var s := head + digits;
    if |digits| == 1 {
      assert s[..|s| - 1] == head;
    } else {
      assert s[..|s| - 1] == head + digits[..|digits| - 1];
      DigitRunOfLink(head, digits[..|digits| - 1]);
    }
  }

  /** Every link that parses is one built from digits, and parses to their value. */
  lemma IssueNumberSound(link: string) returns (prefix: string, digits: string, slash: bool, newline: bool)
    requires IssueNumber(link).Some?
    ensures link == IssueLink(prefix, digits, slash, newline)
    ensures digits != [] && AllDigits(digits) && IssueNumber(link) == Some(DigitsValue(digits))
  {
    var n := DropLast(link, '\n');
    var t := DropLast(n, '/');
    var k := TrailingDigits(t);
    var head := t[..|t| - k];
    prefix := head[..|head| - |IssuesMarker|];
    digits := t[|t| - k..];
    assert forall i :: 0 <= i < |digits| ==> digits[i] == t[|t| - k + i];
    slash := t != n;
    newline := n != link;
    assert head == prefix + IssuesMarker;
    assert t == prefix + IssuesMarker + digits;
  }

  // ------------------------------------------------------------ collections

  /** The fields of a collection row the views read or write. */
  datatype CollectionRow = CollectionRow(
    id: int,
    name: string,
    configFolder: string,
    workflowStatus: WorkflowStatus,
    githubIssueNumber: int)

  /** The rows in primary-key order, which `first()` follows. */
  predicate IdsAscending(rows: seq<CollectionRow>)
  {
    forall i, j :: 0 <= i < j < |rows| ==> rows[i].id < rows[j].id
  }

  /** `config_folder` is unique. */
  predicate FoldersUnique(rows: seq<CollectionRow>)
  {
    forall i, j :: 0 <= i < j < |rows| ==> rows[i].configFolder != rows[j].configFolder
  }

  /** The position of the first CURATED collection. */
  function FirstCurated(rows: seq<CollectionRow>): (r: Option<nat>)
    ensures r.Some? ==> r.value < |rows| && rows[r.value].workflowStatus == Curated
    ensures r.Some? ==> forall j :: 0 <= j < r.value ==> rows[j].workflowStatus != Curated
    ensures r.None? ==> forall j :: 0 <= j < |rows| ==> rows[j].workflowStatus != Curated
  {
    if rows == [] then None
    else if rows[0].workflowStatus == Curated then Some(0)
    else match FirstCurated(rows[1..])
      case None => None
      case Some(i) => Some(i + 1)
  }

  /** The position of the row satisfying a key lookup, or none. */
  function FindFolder(rows: seq<CollectionRow>, folder: string): (r: Option<nat>)
    ensures r.Some? ==> r.value < |rows| && rows[r.value].configFolder == folder
    ensures r.None? ==> forall j :: 0 <= j < |rows| ==> rows[j].configFolder != folder
  {
    if rows == [] then None
    else if rows[0].configFolder == folder then Some(0)
    else match FindFolder(rows[1..], folder)
      case None => None
      case Some(i) => Some(i + 1)
  }

  function FindId(rows: seq<CollectionRow>, id: int): (r: Option<nat>)
    ensures r.Some? ==> r.value < |rows| && rows[r.value].id == id
    ensures r.None? ==> forall j :: 0 <= j < |rows| ==> rows[j].id != id
  {
    if rows == [] then None
    else if rows[0].id == id then Some(0)
    else match FindId(rows[1..], id)
      case None => None
      case Some(i) => Some(i + 1)
  }

  /** The indexer job file of a collection. */
  function IndexerJob(folder: string): string
  {
    "collection.indexer." + folder + ".xml"
  }

  /**
   * The status an indexing notice moves a collection to: STARTED_INDEXING takes a
   * CURATED collection to SECRET_DEPLOYMENT_STARTED, FINISHED_INDEXING takes that to
   * READY_FOR_LRM_QUALITY_CHECK; any other pair is refused. A refused notice stays
   * refused when sent again, and neither new status triggers a config effect on save.
   */
  function IndexingTransition(notice: string, current: WorkflowStatus): (r: Option<WorkflowStatus>)
    ensures r.Some? <==> (notice == "STARTED_INDEXING" && current == Curated)
                         || (notice == "FINISHED_INDEXING" && current == SecretDeploymentStarted)
    ensures r.Some? ==> r.value != current
    ensures r.Some? ==> Collections.StatusChangeEffect(true, r.value) == Collections.NoEffect
  {
    if notice == "STARTED_INDEXING" && current == Curated then Some(SecretDeploymentStarted)
    else if notice == "FINISHED_INDEXING" && current == SecretDeploymentStarted then Some(ReadyForLrmQualityCheck)
    else None
  }

  /**
   * Two notices in order take a CURATED collection to READY_FOR_LRM_QUALITY_CHECK,
   * and a notice that was accepted is refused when it is sent again.
   */
  lemma IndexingSequence(notice: string, s: WorkflowStatus)
    ensures IndexingTransition("STARTED_INDEXING", Curated) == Some(SecretDeploymentStarted)
    ensures IndexingTransition("FINISHED_INDEXING", SecretDeploymentStarted) == Some(ReadyForLrmQualityCheck)
    ensures IndexingTransition(notice, s).Some? ==> IndexingTransition(notice, IndexingTransition(notice, s).value).None?
  {
  }

  function IndexingMessage(name: string, s: WorkflowStatus): string
  {
    "Status for collection '" + name + "' updated to "
      + (if s == SecretDeploymentStarted then "Secret Deployment Started." else "Ready For LRM Quality Check.")
  }

  const InvalidIndexing := Response(400, "Invalid indexing or workflow status.")

  const InvalidIssueLink := "Invalid GitHub issue link format"

  /** The largest value of a Django `IntegerField`, a signed 32-bit column. */
  const MaxIntegerField := 2147483647

  /** The collections table. */
  class CollectionTable {
    var rows: seq<CollectionRow>

    constructor (rows: seq<CollectionRow>)
      requires IdsAscending(rows) && FoldersUnique(rows)
      ensures Valid() && this.rows == rows
    {
      this.rows := rows;
    }

    predicate Valid()
      reads this
    {
      IdsAscending(rows) && FoldersUnique(rows)
    }

    /** `IndexingInstructionsView.get`: the job of the first CURATED collection, or "". */
    function JobName(): (name: string)
      reads this
      ensures FirstCurated(rows).None? <==> name == ""
      ensures FirstCurated(rows).Some? ==> name == IndexerJob(rows[FirstCurated(rows).value].configFolder)
    {
      match FirstCurated(rows)
      case None => ""
      case Some(i) => IndexerJob(rows[i].configFolder)
    }

    /**
     * `IndexingInstructionsView.post`: a notice without a collection or a status is
     * refused; an unknown collection is a 404; otherwise the collection moves as
     * `IndexingTransition` says, or the request gets a 400 and nothing changes.
     */
    method PostIndexingStatus(folder: Option<string>, notice: Option<string>) returns (r: Result<Response, PyError>)
      requires Valid()
      modifies this
      ensures Valid()
      ensures !NonBlank(folder) || !NonBlank(notice) ==> r == Err(ValidationError) && rows == old(rows)
      ensures NonBlank(folder) && NonBlank(notice) && FindFolder(old(rows), folder.value).None? ==>
                r == Ok(NotFound) && rows == old(rows)
      ensures NonBlank(folder) && NonBlank(notice) && FindFolder(old(rows), folder.value).Some? ==>
                var i := FindFolder(old(rows), folder.value).value;
                var next := IndexingTransition(notice.value, old(rows)[i].workflowStatus);
                && (next.None? ==> r == Ok(InvalidIndexing) && rows == old(rows))
                && (next.Some? ==> r == Ok(Response(200, IndexingMessage(old(rows)[i].name, next.value)))
                                   && rows == old(rows)[i := old(rows)[i].(workflowStatus := next.value)])
    {
      if !NonBlank(folder) || !NonBlank(notice) {
        return Err(ValidationError);
      }
      var found := FindFolder(rows, folder.value);
      if found.None? {
        return Ok(NotFound);
      }
      var i := found.value;
      var next := IndexingTransition(notice.value, rows[i].workflowStatus);
      if next.None? {
        return Ok(InvalidIndexing);
      }
      rows := rows[i := rows[i].(workflowStatus := next.value)];
      return Ok(Response(200, IndexingMessage(rows[i].name, next.value)));
    }

    /**
     * The GitHub issue branch of `CollectionDetailView.post`: a link that parses sets
     * the collection's issue number and redirects; any other link re-renders the form
     * with an error and saves nothing. The issue number is a 32-bit integer column,
     * so saving a larger number is refused by the database and the row is unchanged.
     */
    method PostGithubIssueLink(id: int, link: string) returns (r: Result<Response, PyError>)
      requires Valid()
      modifies this
      ensures Valid()
      ensures FindId(old(rows), id).None? ==> r == Ok(NotFound) && rows == old(rows)
      ensures FindId(old(rows), id).Some? && IssueNumber(link).None? ==>
                r == Ok(Response(200, InvalidIssueLink)) && rows == old(rows)
      ensures FindId(old(rows), id).Some? && IssueNumber(link).Some? && IssueNumber(link).value > MaxIntegerField ==>
                r == Err(DataError) && rows == old(rows)
      ensures FindId(old(rows), id).Some? && IssueNumber(link).Some? && IssueNumber(link).value <= MaxIntegerField ==>
                var i := FindId(old(rows), id).value;
                r == Ok(Redirect) && rows == old(rows)[i := old(rows)[i].(githubIssueNumber := IssueNumber(link).value)]
    {
      var found := FindId(rows, id);
      if found.None? {
        return Ok(NotFound);
      }
      var i := found.value;
      var number := IssueNumber(link);
      if number.None? {
        return Ok(Response(200, InvalidIssueLink));
      }
      if number.value > MaxIntegerField {
        return Err(DataError);
      }
      rows := rows[i := rows[i].(githubIssueNumber := number.value)];
      return Ok(Redirect);
    }
  }

  // --------------------------------------------------------------- patterns

  /** The row holding a (collection, match pattern) pair. */
  function FindPair(rows: seq<PatternRow>, c: int, p: string): (r: Option<nat>)
    ensures r.Some? ==> r.value < |rows| && rows[r.value].collection == c && rows[r.value].matchPattern == p
    ensures r.None? <==> !HasPair(rows, c, p)
  {
    if rows == [] then None
    else if rows[0].collection == c && rows[0].matchPattern == p then Some(0)
    else match FindPair(rows[1..], c, p)
      case None =>
        assert forall j :: 1 <= j < |rows| ==> rows[j] == rows[1..][j - 1];
        None
      case Some(i) => Some(i + 1)
  }

  function RemoveAt(rows: seq<PatternRow>, i: nat): (r: seq<PatternRow>)
    requires i < |rows|
    ensures |r| == |rows| - 1
  {
    rows[..i] + rows[i + 1..]
  }

  /** Deleting a row keeps the pairs unique and frees its pair. */
  lemma RemoveAtUnique(rows: seq<PatternRow>, i: nat)
    requires UniquePairs(rows) && i < |rows|
    ensures UniquePairs(RemoveAt(rows, i))
    ensures !HasPair(RemoveAt(rows, i), rows[i].collection, rows[i].matchPattern)
    ensures forall q :: q in RemoveAt(rows, i) ==> q in rows
  {
    var r := RemoveAt(rows, i);
    forall a, b | 0 <= a < b < |r| ensures r[a].collection != r[b].collection || r[a].matchPattern != r[b].matchPattern {
      var a', b' := if a < i then a else a + 1, if b < i then b else b + 1;
      assert r[a] == rows[a'] && r[b] == rows[b'];
    }
    forall a | 0 <= a < |r| ensures r[a].collection != rows[i].collection || r[a].matchPattern != rows[i].matchPattern {
      if a < i {
        assert r[a] == rows[a];
      } else {
        assert r[a] == rows[a + 1];
      }
    }
    forall q | q in r ensures q in rows {
      var a :| 0 <= a < |r| && r[a] == q;
      if a < i {
        assert r[a] == rows[a];
      } else {
        assert r[a] == rows[a + 1];
      }
    }
  }

  /** Deleting the last row gives the rows before it back. */
  lemma RemoveLast(rows: seq<PatternRow>, x: PatternRow)
    ensures RemoveAt(rows + [x], |rows|) == rows
  {
    assert (rows + [x])[..|rows|] == rows;
  }

  /**
   * The exclude and include `create`: an unknown collection raises; a pair that is
   * already there is deleted (200); anything else goes to the serializer, which has
   * no hook on these two tables.
   */
  function ToggleOutcome(rows: seq<PatternRow>, collections: set<int>, c: Option<int>, p: Option<string>, t: MatchType): Outcome
  {
    if c.None? || c.value !in collections then Outcome(Err(DoesNotExist), rows)
    else if p.Some? && HasPair(rows, c.value, p.value) then Outcome(Ok(OkResponse), RemoveAt(rows, FindPair(rows, c.value, p.value).value))
    else CreateOutcome(rows, collections, c, p, t, 0, true, false)
  }

  /**
   * The toggle keeps the pairs unique; a second toggle of a pattern the first one
   * created deletes it again and restores the table; a toggle of a present pair
   * leaves it absent.
   */
  lemma ToggleMeaning(rows: seq<PatternRow>, collections: set<int>, c: Option<int>, p: Option<string>, t: MatchType)
    requires UniquePairs(rows)
    ensures var o := ToggleOutcome(rows, collections, c, p, t);
      && UniquePairs(o.rows)
      && (o.result == Ok(Created) ==> ToggleOutcome(o.rows, collections, c, p, t) == Outcome(Ok(OkResponse), rows))
      && (o.result == Ok(OkResponse) ==> !HasPair(o.rows, c.value, p.value) && |o.rows| == |rows| - 1)
  {
    var o := ToggleOutcome(rows, collections, c, p, t);
    if c.None? || c.value !in collections {
    } else if p.Some? && HasPair(rows, c.value, p.value) {
      RemoveAtUnique(rows, FindPair(rows, c.value, p.value).value);
    } else {
      CreateOutcomeMeaning(rows, collections, c, p, t, 0, true, false);
      if o.result == Ok(Created) {
        var x := PatternRow(c.value, p.value, t, 0);
        assert o.rows == rows + [x];
        assert FindPair(o.rows, c.value, p.value) == Some(|rows|) by {
          UniquePrefix(rows, x);
          var f := FindPair(o.rows, c.value, p.value);
          assert f.Some? by {
            assert o.rows[|rows|] == x;
          }
          forall j | 0 <= j < |rows| ensures o.rows[j].collection != c.value || o.rows[j].matchPattern != p.value {
            assert o.rows[j] == rows[j];
          }
        }
        RemoveLast(rows, x);
      }
    }
  }

  /** `ExcludePatternViewSet.create` and `IncludePatternViewSet.create`. */
  method CreateToggled(table: PatternTable, collections: set<int>, c: Option<int>, p: Option<string>, t: MatchType)
    returns (r: Result<Response, PyError>)
    requires table.Valid()
    modifies table
    ensures table.Valid()
    ensures Outcome(r, table.rows) == ToggleOutcome(old(table.rows), collections, c, p, t)
  {
    if c.None? || c.value !in collections {
      return Err(DoesNotExist);
    }
    var found := if p.Some? then FindPair(table.rows, c.value, p.value) else None;
    if found.Some? {
      RemoveAtUnique(table.rows, found.value);
      table.rows := RemoveAt(table.rows, found.value);
      return Ok(OkResponse);
    }
    r := table.Create(collections, c, p, t, 0, true, false);
  }

  /**
   * `DocumentTypePatternViewSet.create`: the type is read with `int`; a type other
   * than 0 goes to the serializer (with its hook); type 0 deletes the collection's
   * individual-url pattern for the match pattern (200), or answers 204 when there
   * is none.
   */
  function DocumentTypeOutcome(rows: seq<PatternRow>, collections: set<int>, modelChoices: set<int>,
                               c: Option<int>, p: Option<string>, t: MatchType, documentType: Option<int>): Outcome
  {
    if documentType.None? then Outcome(Err(TypeError), rows)
    else if documentType.value != 0 then
      CreateOutcome(rows, collections, c, p, t, documentType.value, documentType.value in DocumentTypeChoices(modelChoices), true)
    else if c.None? || c.value !in collections then Outcome(Err(DoesNotExist), rows)
    else
      var found := if p.Some? then FindPair(rows, c.value, p.value) else None;
      if found.Some? && rows[found.value].matchType == IndividualUrl then Outcome(Ok(OkResponse), RemoveAt(rows, found.value))
      else Outcome(Ok(NoContent), rows)
  }

  /**
   * The document-type handler keeps the pairs unique and never stores a type of 0:
   * the serializer's extra "None" choice is not reachable through it. Type 0 only
   * ever deletes, and only an individual-url pattern.
   */
  lemma DocumentTypeMeaning(rows: seq<PatternRow>, collections: set<int>, modelChoices: set<int>,
                            c: Option<int>, p: Option<string>, t: MatchType, documentType: Option<int>)
    requires UniquePairs(rows)
    ensures var o := DocumentTypeOutcome(rows, collections, modelChoices, c, p, t, documentType);
      && UniquePairs(o.rows)
      && (forall q :: q in o.rows && q.value == 0 ==> q in rows)
      && (documentType == Some(0) ==> |o.rows| >= |rows| - 1 && (forall q :: q in o.rows ==> q in rows))
      && (documentType == Some(0) && |o.rows| < |rows| ==>
            exists q :: q in rows && q !in o.rows && q.matchType == IndividualUrl)
  {
    var o := DocumentTypeOutcome(rows, collections, modelChoices, c, p, t, documentType);
    if documentType.None? {
    } else if documentType.value != 0 {
      CreateOutcomeMeaning(rows, collections, c, p, t, documentType.value, documentType.value in DocumentTypeChoices(modelChoices), true);
      var mid := Hooked(rows, p, true);
      forall q | q in o.rows && q.value == 0 ensures q in rows {
        if o.result.Ok? {
          assert o.rows == mid + [PatternRow(c.value, p.value, t, documentType.value)];
          assert q in mid;
        }
      }
    } else if c.None? || c.value !in collections {
    } else {
      var found := if p.Some? then FindPair(rows, c.value, p.value) else None;
      if found.Some? && rows[found.value].matchType == IndividualUrl {
        RemoveAtUnique(rows, found.value);
        forall a | 0 <= a < |o.rows| ensures o.rows[a] != rows[found.value] {
        }
        assert rows[found.value] !in o.rows;
      }
    }
  }

  const DivisionRequired := Response(400, "Division is required.")

  /**
   * `DivisionPatternViewSet.create`: a request without a division is refused;
   * otherwise the serializer (with its hook) checks the division against the codes
   * its choices accept.
   */
  function DivisionOutcome(rows: seq<PatternRow>, collections: set<int>, divisionCodes: map<string, int>,
                           c: Option<int>, p: Option<string>, t: MatchType, division: Option<string>): Outcome
  {
    if !NonBlank(division) then Outcome(Ok(DivisionRequired), rows)
    else
      var known := division.value in divisionCodes;
      CreateOutcome(rows, collections, c, p, t, if known then divisionCodes[division.value] else 0, known, true)
  }

  /** A division pattern is stored only with a division the choices accept. */
  lemma DivisionMeaning(rows: seq<PatternRow>, collections: set<int>, divisionCodes: map<string, int>,
                        c: Option<int>, p: Option<string>, t: MatchType, division: Option<string>)
    requires UniquePairs(rows)
    ensures var o := DivisionOutcome(rows, collections, divisionCodes, c, p, t, division);
      && UniquePairs(o.rows)
      && (!NonBlank(division) ==> o.rows == rows)
      && (o.result == Ok(Created) ==> division.value in divisionCodes
                                      && o.rows[|o.rows| - 1].value == divisionCodes[division.value])
  {
    if NonBlank(division) {
      var known := division.value in divisionCodes;
      CreateOutcomeMeaning(rows, collections, c, p, t, if known then divisionCodes[division.value] else 0, known, true);
    }
  }

  /** Deletes one row of a pattern table. */
  method DeleteRow(table: PatternTable, i: nat)
    requires table.Valid() && i < |table.rows|
    modifies table
    ensures table.Valid() && table.rows == RemoveAt(old(table.rows), i)
  {
    RemoveAtUnique(table.rows, i);
    table.rows := RemoveAt(table.rows, i);
  }

  /** `DocumentTypePatternViewSet.create`. */
  method CreateDocumentType(table: PatternTable, collections: set<int>, modelChoices: set<int>,
                            c: Option<int>, p: Option<string>, t: MatchType, documentType: Option<int>)
    returns (r: Result<Response, PyError>)
    requires table.Valid()
    modifies table
    ensures table.Valid()
    ensures Outcome(r, table.rows) == DocumentTypeOutcome(old(table.rows), collections, modelChoices, c, p, t, documentType)
  {
    if documentType.None? {
      return Err(TypeError);
    }
    if documentType.value != 0 {
      r := table.Create(collections, c, p, t, documentType.value, documentType.value in DocumentTypeChoices(modelChoices), true);
      return;
    }
    if c.None? || c.value !in collections {
      return Err(DoesNotExist);
    }
    var found := if p.Some? then FindPair(table.rows, c.value, p.value) else None;
    if found.Some? && table.rows[found.value].matchType == IndividualUrl {
      DeleteRow(table, found.value);
      return Ok(OkResponse);
    }
    return Ok(NoContent);
  }

  /** `DivisionPatternViewSet.create`. */
  method CreateDivision(table: PatternTable, collections: set<int>, divisionCodes: map<string, int>,
                        c: Option<int>, p: Option<string>, t: MatchType, division: Option<string>)
    returns (r: Result<Response, PyError>)
    requires table.Valid()
    modifies table
    ensures table.Valid()
    ensures Outcome(r, table.rows) == DivisionOutcome(old(table.rows), collections, divisionCodes, c, p, t, division)
  {
    if !NonBlank(division) {
      return Ok(DivisionRequired);
    }
    var known := division.value in divisionCodes;
    r := table.Create(collections, c, p, t, if known then divisionCodes[division.value] else 0, known, true);
  }
}
