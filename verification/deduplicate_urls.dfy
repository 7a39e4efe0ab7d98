/**
 * The candidate-url deduplication command: first every (collection, url) group is
 * cut down to its row with the smallest id, then every url still held by several
 * rows keeps one row, preferring collections whose workflow has reached curation
 * and, among those, the collection with the fewest candidate urls.
 *
 * The rows are listed in the order the database returns them; that order breaks
 * the ties between equally small collections.
 */
module DeduplicateUrls {
  import opened Wrappers
  import opened Workflow

  /** A candidate url row: its id, its collection's id and its url. */
  datatype CandidateRow = CandidateRow(id: int, collection: int, url: string)

  /** `is_priority_collection`: the workflow has reached curation or gone past it. */
  predicate IsPriorityCollection(status: WorkflowStatus)
  {
    status in {
      Curated, QualityFixed, SecretDeploymentStarted, SecretDeploymentFailed,
      ReadyForLrmQualityCheck, ReadyForFinalQualityCheck, QualityCheckFailed,
      QualityCheckMinor, QualityCheckPerfect, ProdPerfect, ProdMinor, ProdMajor}
  }

  /** Primary keys: no id occurs twice. */
  predicate UniqueIds(rows: seq<CandidateRow>)
  {
    rows == [] || ((forall x :: x in rows[1..] ==> x.id != rows[0].id) && UniqueIds(rows[1..]))
  }

  /** The queries the command groups and counts by. */
  datatype Key = GroupKey(collection: int, url: string) | UrlKey(url: string) | CollectionKey(of: int)

  predicate Matches(r: CandidateRow, k: Key)
  {
    match k
    case GroupKey(c, u) => r.collection == c && r.url == u
    case UrlKey(u) => r.url == u
    case CollectionKey(c) => r.collection == c
  }

  /** The rows a filter on the key returns, in order. */
  function Select(rows: seq<CandidateRow>, k: Key): (s: seq<CandidateRow>)
    ensures forall x :: x in s <==> x in rows && Matches(x, k)
    ensures |s| <= |rows|
  {
    if rows == [] then [] else (if Matches(rows[0], k) then [rows[0]] else []) + Select(rows[1..], k)
  }

  /** `filter(id__in=ids).delete()`: the rows whose id is not listed, in order. */
  function Without(rows: seq<CandidateRow>, ids: set<int>): (s: seq<CandidateRow>)
    ensures forall x :: x in s <==> x in rows && x.id !in ids
  {
    if rows == [] then [] else (if rows[0].id in ids then [] else [rows[0]]) + Without(rows[1..], ids)
  }

  // -------------------------------------------------------- phase 1: groups

  /** `Min("id")` over a (collection, url) group; None for an empty group. */
  function MinIdOf(rows: seq<CandidateRow>, c: int, u: string): Option<int>
  {
    if rows == [] then None
    else
      var rest := MinIdOf(rows[1..], c, u);
      if !Matches(rows[0], GroupKey(c, u)) then rest
      else if rest.Some? && rest.value < rows[0].id then rest
      else Some(rows[0].id)
  }

  /** The minimum is the id of a row of the group and no row of the group has a smaller one. */
  lemma {:induction false} MinIdOfMeaning(rows: seq<CandidateRow>, c: int, u: string)
    ensures MinIdOf(rows, c, u).Some? <==> exists x :: x in rows && Matches(x, GroupKey(c, u))
    ensures MinIdOf(rows, c, u).Some? ==> exists x :: x in rows && Matches(x, GroupKey(c, u)) && x.id == MinIdOf(rows, c, u).value
    ensures MinIdOf(rows, c, u).Some? ==> forall x :: x in rows && Matches(x, GroupKey(c, u)) ==> MinIdOf(rows, c, u).value <= x.id
  {
    if rows != [] {
      MinIdOfMeaning(rows[1..], c, u);
      assert forall x :: x in rows ==> x == rows[0] || x in rows[1..];
    }
  }

  /** The (collection, url) groups with more than one row. */
  function DupeGroups(rows: seq<CandidateRow>): set<(int, string)>
  {
    set r | r in rows && |Select(rows, GroupKey(r.collection, r.url))| > 1 :: (r.collection, r.url)
  }

  /** The ids phase 1 collects for the listed groups: every row but the group's smallest id. */
  function IntraFrom(rows: seq<CandidateRow>, groups: set<(int, string)>): set<int>
  {
    set r | r in rows && (r.collection, r.url) in groups && MinIdOf(rows, r.collection, r.url) != Some(r.id) :: r.id
  }

  /** `intra_ids_to_delete`. */
  function IntraDeleted(rows: seq<CandidateRow>): set<int>
  {
    IntraFrom(rows, DupeGroups(rows))
  }

  /** The rows left after phase 1. */
  function AfterIntra(rows: seq<CandidateRow>): seq<CandidateRow>
  {
    Without(rows, IntraDeleted(rows))
  }

  // -------------------------------------------------------- phase 2: urls

  /** `collection_counts`: each collection's number of candidate urls. */
  function CountsOf(rows: seq<CandidateRow>, collections: map<int, WorkflowStatus>): map<int, nat>
  {
    map c | c in collections :: |Select(rows, CollectionKey(c))|
  }

  /** `collection_status`: whether each collection is a priority collection. */
  function StatusOf(collections: map<int, WorkflowStatus>): map<int, bool>
  {
    map c | c in collections :: IsPriorityCollection(collections[c])
  }

  predicate IsPriorityRow(r: CandidateRow, status: map<int, bool>)
  {
    r.collection in status && status[r.collection]
  }

  /** The rows of priority collections (`priority_instances`), in order. */
  function PriorityRows(xs: seq<CandidateRow>, status: map<int, bool>): (s: seq<CandidateRow>)
    ensures forall x :: x in s <==> x in xs && IsPriorityRow(x, status)
  {
    if xs == [] then [] else (if IsPriorityRow(xs[0], status) then [xs[0]] else []) + PriorityRows(xs[1..], status)
  }

  /** The rows of the other collections (`non_priority_instances`), in order. */
  function OtherRows(xs: seq<CandidateRow>, status: map<int, bool>): (s: seq<CandidateRow>)
    ensures forall x :: x in s <==> x in xs && !IsPriorityRow(x, status)
  {
    if xs == [] then [] else (if IsPriorityRow(xs[0], status) then [] else [xs[0]]) + OtherRows(xs[1..], status)
  }

  /** The rows the survivor is chosen from: the priority ones when there are any. */
  function Eligible(xs: seq<CandidateRow>, status: map<int, bool>): seq<CandidateRow>
  {
    if PriorityRows(xs, status) != [] then PriorityRows(xs, status) else OtherRows(xs, status)
  }

  function CountOf(counts: map<int, nat>, c: int): nat
  {
    if c in counts then counts[c] else 0
  }

  /** `min(xs, key=collection count)`: the first row whose collection count is smallest. */
  function FirstFewest(xs: seq<CandidateRow>, counts: map<int, nat>): Option<CandidateRow>
  {
    if xs == [] then None
    else
      var rest := FirstFewest(xs[1..], counts);
      if rest.None? || CountOf(counts, xs[0].collection) <= CountOf(counts, rest.value.collection) then Some(xs[0])
      else rest
  }

  /**
   * The row `min` picks: one of the rows, with a count no larger than any other's,
   * and every row before it has a strictly larger count.
   */
  lemma {:induction false} FirstFewestMeaning(xs: seq<CandidateRow>, counts: map<int, nat>)
    ensures FirstFewest(xs, counts).None? <==> xs == []
    ensures FirstFewest(xs, counts).Some? ==> var m := FirstFewest(xs, counts).value;
      exists k :: (0 <= k < |xs| && xs[k] == m
        && forall j :: 0 <= j < k ==> CountOf(counts, xs[j].collection) > CountOf(counts, m.collection))
    ensures FirstFewest(xs, counts).Some? ==> var m := FirstFewest(xs, counts).value;
      forall x :: x in xs ==> CountOf(counts, m.collection) <= CountOf(counts, x.collection)
  {
    if xs != [] {
      var rest := FirstFewest(xs[1..], counts);
      FirstFewestMeaning(xs[1..], counts);
      assert forall x :: x in xs ==> x == xs[0] || x in xs[1..];
      if !(rest.None? || CountOf(counts, xs[0].collection) <= CountOf(counts, rest.value.collection)) {
        var k :| 0 <= k < |xs[1..]| && xs[1..][k] == rest.value
          && (forall j :: 0 <= j < k ==> CountOf(counts, xs[1..][j].collection) > CountOf(counts, rest.value.collection));
        assert xs[k + 1] == rest.value;
        assert forall j :: 1 <= j < k + 1 ==> xs[j] == xs[1..][j - 1];
      } else {
        assert xs[0] == FirstFewest(xs, counts).value;
      }
    }
  }

  /** `keep_instance` for a url. */
  function Keeper(rows: seq<CandidateRow>, u: string, status: map<int, bool>, counts: map<int, nat>): Option<CandidateRow>
  {
    FirstFewest(Eligible(Select(rows, UrlKey(u)), status), counts)
  }

  /** Whether a row is its url's survivor. */
  predicate IsKept(rows: seq<CandidateRow>, r: CandidateRow, status: map<int, bool>, counts: map<int, nat>)
  {
    Keeper(rows, r.url, status, counts).Some? && Keeper(rows, r.url, status, counts).value.id == r.id
  }

  /** The urls held by more than one row. */
  function DupeUrls(rows: seq<CandidateRow>): set<string>
  {
    set r | r in rows && |Select(rows, UrlKey(r.url))| > 1 :: r.url
  }

  /** The ids phase 2 collects for the listed urls: every row but the url's survivor. */
  function CrossFrom(rows: seq<CandidateRow>, urls: set<string>, status: map<int, bool>, counts: map<int, nat>): set<int>
  {
    set r | r in rows && r.url in urls && !IsKept(rows, r, status, counts) :: r.id
  }

  /** `cross_ids_to_delete`, for the rows phase 1 left. */
  function CrossDeleted(rows: seq<CandidateRow>, status: map<int, bool>, counts: map<int, nat>): set<int>
  {
    CrossFrom(rows, DupeUrls(rows), status, counts)
  }

  /** The rows left by `deduplicate_candidate_urls`. */
  function Deduplicated(rows: seq<CandidateRow>, collections: map<int, WorkflowStatus>): seq<CandidateRow>
  {
    var left := AfterIntra(rows);
    Without(left, CrossDeleted(left, StatusOf(collections), CountsOf(rows, collections)))
  }

  // ----------------------------------------------------------------- lemmas

  lemma {:induction false} UniqueIdsSame(rows: seq<CandidateRow>, x: CandidateRow, y: CandidateRow)
    requires UniqueIds(rows) && x in rows && y in rows && x.id == y.id
    ensures x == y
  {
    if x != rows[0] && y != rows[0] {
      UniqueIdsSame(rows[1..], x, y);
    }
  }

  lemma {:induction false} WithoutUnique(rows: seq<CandidateRow>, ids: set<int>)
    requires UniqueIds(rows)
    ensures UniqueIds(Without(rows, ids))
  {
    if rows != [] {
      WithoutUnique(rows[1..], ids);
      var s := Without(rows, ids);
      if rows[0].id !in ids {
        assert s == [rows[0]] + Without(rows[1..], ids);
        assert s[1..] == Without(rows[1..], ids);
      } else {
        assert s == Without(rows[1..], ids);
      }
    }
  }

  /** Two different rows in a list make it at least two long. */
  lemma TwoDistinct(s: seq<CandidateRow>, x: CandidateRow, y: CandidateRow)
    requires x in s && y in s && x != y
    ensures |s| >= 2
  {
  }

  /** Whether phase 1 collects a row's id, in terms of the row's own group. */
  lemma InIntraDeleted(rows: seq<CandidateRow>, x: CandidateRow)
    requires UniqueIds(rows) && x in rows
    ensures x.id in IntraDeleted(rows)
        <==> |Select(rows, GroupKey(x.collection, x.url))| > 1 && MinIdOf(rows, x.collection, x.url) != Some(x.id)
  {
    if |Select(rows, GroupKey(x.collection, x.url))| > 1 {
      assert (x.collection, x.url) in DupeGroups(rows);
    }
    if x.id in IntraDeleted(rows) {
      var r :| r in rows && (r.collection, r.url) in DupeGroups(rows) && MinIdOf(rows, r.collection, r.url) != Some(r.id) && r.id == x.id;
      UniqueIdsSame(rows, r, x);
      var w :| w in rows && |Select(rows, GroupKey(w.collection, w.url))| > 1 && (w.collection, w.url) == (x.collection, x.url);
    }
  }

  /** Whether phase 2 collects a row's id, in terms of the row's own url. */
  lemma InCrossDeleted(rows: seq<CandidateRow>, x: CandidateRow, status: map<int, bool>, counts: map<int, nat>)
    requires UniqueIds(rows) && x in rows
    ensures x.id in CrossDeleted(rows, status, counts)
        <==> |Select(rows, UrlKey(x.url))| > 1 && !IsKept(rows, x, status, counts)
  {
    if |Select(rows, UrlKey(x.url))| > 1 {
      assert x.url in DupeUrls(rows);
    }
    if x.id in CrossDeleted(rows, status, counts) {
      var r :| r in rows && r.url in DupeUrls(rows) && !IsKept(rows, r, status, counts) && r.id == x.id;
      UniqueIdsSame(rows, r, x);
      var w :| w in rows && |Select(rows, UrlKey(w.url))| > 1 && w.url == x.url;
    }
  }

  /**
   * Phase 1 deletes a row exactly when its (collection, url) group holds a row
   * with a smaller id: each group keeps its row with the smallest id.
   */
  lemma IntraDeletedMeaning(rows: seq<CandidateRow>, x: CandidateRow)
    requires UniqueIds(rows) && x in rows
    ensures x.id in IntraDeleted(rows)
        <==> exists y :: y in rows && y.collection == x.collection && y.url == x.url && y.id < x.id
  {
    var k := GroupKey(x.collection, x.url);
    InIntraDeleted(rows, x);
    MinIdOfMeaning(rows, x.collection, x.url);
    var m := MinIdOf(rows, x.collection, x.url).value;
    if exists y :: y in rows && y.collection == x.collection && y.url == x.url && y.id < x.id {
      var y :| y in rows && y.collection == x.collection && y.url == x.url && y.id < x.id;
      assert x in Select(rows, k) && y in Select(rows, k);
      TwoDistinct(Select(rows, k), x, y);
      assert m <= y.id;
    }
    if x.id in IntraDeleted(rows) {
      var y :| y in rows && Matches(y, k) && y.id == m;
      assert m <= x.id;
      assert y.id < x.id;
    }
  }

  /** Among the rows of a url, the survivor is eligible; it is a priority row whenever one exists. */
  lemma KeeperChoice(rows: seq<CandidateRow>, u: string, status: map<int, bool>, counts: map<int, nat>)
    requires exists x :: x in rows && x.url == u
    ensures var k := Keeper(rows, u, status, counts);
      && k.Some? && k.value in rows && k.value.url == u
      && ((exists x :: x in rows && x.url == u && IsPriorityRow(x, status)) ==> IsPriorityRow(k.value, status))
      && (forall x :: x in Eligible(Select(rows, UrlKey(u)), status) ==>
            CountOf(counts, k.value.collection) <= CountOf(counts, x.collection))
  {
    var x :| x in rows && x.url == u;
    var inst := Select(rows, UrlKey(u));
    var xs := Eligible(inst, status);
    assert x in inst;
    if PriorityRows(inst, status) == [] {
      assert x in OtherRows(inst, status);
    }
    assert xs != [];
    FirstFewestMeaning(xs, counts);
    var k := FirstFewest(xs, counts).value;
    assert k in xs;
    assert k in inst;
    if exists y :: y in rows && y.url == u && IsPriorityRow(y, status) {
      var y :| y in rows && y.url == u && IsPriorityRow(y, status);
      assert y in PriorityRows(inst, status);
    }
  }

  /** Phase 1 keeps, for every (collection, url) group, the row with the smallest id. */
  lemma {:induction false} IntraKeepsGroupMinimum(rows: seq<CandidateRow>, x: CandidateRow)
    requires UniqueIds(rows) && x in rows
    ensures exists y :: y in AfterIntra(rows) && y.collection == x.collection && y.url == x.url
  {
    MinIdOfMeaning(rows, x.collection, x.url);
    var y :| y in rows && Matches(y, GroupKey(x.collection, x.url)) && y.id == MinIdOf(rows, x.collection, x.url).value;
    InIntraDeleted(rows, y);
    assert y in AfterIntra(rows);
  }

  /** After both phases every url of the table is held by exactly one row. */
  lemma DeduplicatedOnePerUrl(rows: seq<CandidateRow>, collections: map<int, WorkflowStatus>, u: string)
    requires UniqueIds(rows) && exists x :: x in rows && x.url == u
    ensures exists x :: x in Deduplicated(rows, collections) && x.url == u
    ensures forall x, y :: x in Deduplicated(rows, collections) && y in Deduplicated(rows, collections) && x.url == u && y.url == u ==> x == y
  {
    var x0 :| x0 in rows && x0.url == u;
    IntraKeepsGroupMinimum(rows, x0);
    WithoutUnique(rows, IntraDeleted(rows));
    CrossOnePerUrl(AfterIntra(rows), StatusOf(collections), CountsOf(rows, collections), u);
  }

  /** A row that survives phase 2 while its url is shared is that url's survivor. */
  lemma SurvivorIsKeeper(rows: seq<CandidateRow>, x: CandidateRow, status: map<int, bool>, counts: map<int, nat>)
    requires UniqueIds(rows) && x in rows && x.id !in CrossDeleted(rows, status, counts)
    requires |Select(rows, UrlKey(x.url))| > 1
    ensures x == Keeper(rows, x.url, status, counts).value
  {
    InCrossDeleted(rows, x, status, counts);
    KeeperChoice(rows, x.url, status, counts);
    UniqueIdsSame(rows, x, Keeper(rows, x.url, status, counts).value);
  }

  /** Phase 2 leaves exactly one row for every url it sees. */
  lemma CrossOnePerUrl(rows: seq<CandidateRow>, status: map<int, bool>, counts: map<int, nat>, u: string)
    requires UniqueIds(rows) && exists x :: x in rows && x.url == u
    ensures var result := Without(rows, CrossDeleted(rows, status, counts));
      && (exists x :: x in result && x.url == u)
      && (forall x, y :: x in result && y in result && x.url == u && y.url == u ==> x == y)
  {
    var result := Without(rows, CrossDeleted(rows, status, counts));
    if |Select(rows, UrlKey(u))| > 1 {
      KeeperChoice(rows, u, status, counts);
      var k := Keeper(rows, u, status, counts).value;
      InCrossDeleted(rows, k, status, counts);
      assert k in result;
      forall x, y | x in result && y in result && x.url == u && y.url == u
        ensures x == y
      {
        SurvivorIsKeeper(rows, x, status, counts);
        SurvivorIsKeeper(rows, y, status, counts);
      }
    } else {
      var y0 :| y0 in rows && y0.url == u;
      InCrossDeleted(rows, y0, status, counts);
      assert y0 in result;
      forall x, y | x in result && y in result && x.url == u && y.url == u
        ensures x == y
      {
        if x != y {
          assert x in Select(rows, UrlKey(u)) && y in Select(rows, UrlKey(u));
          TwoDistinct(Select(rows, UrlKey(u)), x, y);
        }
      }
    }
  }

  /** A (collection, url) group is part of the url's rows. */
  lemma {:induction false} GroupWithinUrl(rows: seq<CandidateRow>, c: int, u: string)
    ensures |Select(rows, GroupKey(c, u))| <= |Select(rows, UrlKey(u))|
  {
    if rows != [] {
      GroupWithinUrl(rows[1..], c, u);
    }
  }

  /** Deleting rows never adds rows to a filter. */
  lemma {:induction false} WithoutSelect(rows: seq<CandidateRow>, ids: set<int>, k: Key)
    ensures |Select(Without(rows, ids), k)| <= |Select(rows, k)|
  {
    if rows != [] {
      WithoutSelect(rows[1..], ids, k);
      var s := Without(rows, ids);
      if rows[0].id in ids {
        assert s == Without(rows[1..], ids);
      } else {
        assert s == [rows[0]] + Without(rows[1..], ids);
        assert s[0] == rows[0] && s[1..] == Without(rows[1..], ids);
      }
    }
  }

  /** A row whose url no other row holds is never deleted. */
  lemma SingletonSurvives(rows: seq<CandidateRow>, collections: map<int, WorkflowStatus>, x: CandidateRow)
    requires UniqueIds(rows) && x in rows && |Select(rows, UrlKey(x.url))| == 1
    ensures x in Deduplicated(rows, collections)
  {
    GroupWithinUrl(rows, x.collection, x.url);
    InIntraDeleted(rows, x);
    var left := AfterIntra(rows);
    assert x in left;
    WithoutUnique(rows, IntraDeleted(rows));
    WithoutSelect(rows, IntraDeleted(rows), UrlKey(x.url));
    var status, counts := StatusOf(collections), CountsOf(rows, collections);
    InCrossDeleted(left, x, status, counts);
  }

  // ----------------------------------------------------------------- phases

  lemma IntraFromStep(rows: seq<CandidateRow>, done: set<(int, string)>, g: (int, string), m: Option<int>)
    requires m == MinIdOf(rows, g.0, g.1)
    ensures IntraFrom(rows, done + {g})
         == IntraFrom(rows, done) + set r | r in rows && r.collection == g.0 && r.url == g.1 && Some(r.id) != m :: r.id
  {
  }

  lemma CrossFromStep(rows: seq<CandidateRow>, done: set<string>, u: string, status: map<int, bool>, counts: map<int, nat>, keep: Option<CandidateRow>)
    requires keep == Keeper(rows, u, status, counts)
    ensures CrossFrom(rows, done + {u}, status, counts)
         == CrossFrom(rows, done, status, counts) + set r | r in rows && r.url == u && !(keep.Some? && keep.value.id == r.id) :: r.id
  {
    forall r | r in rows && r.url == u
      ensures IsKept(rows, r, status, counts) <==> keep.Some? && keep.value.id == r.id
    {
    }
  }

  /** Phase 1: the ids of every row but the smallest of each duplicated (collection, url) group. */
  method IntraCollectionIds(rows: seq<CandidateRow>) returns (ids: set<int>)
    ensures ids == IntraDeleted(rows)
  {
    var todo := DupeGroups(rows);
    ghost var done: set<(int, string)> := {};
    ids := {};
    while todo != {}
      invariant done + todo == DupeGroups(rows) && done !! todo
      invariant ids == IntraFrom(rows, done)
      decreases |todo|
    {
      var g :| g in todo;
      var minId := MinIdOf(rows, g.0, g.1);
      var dupeIds := set r | r in rows && r.collection == g.0 && r.url == g.1 && Some(r.id) != minId :: r.id;
      IntraFromStep(rows, done, g, minId);
      ids := ids + dupeIds;
      MoveOne(done, todo, g);
      done, todo := done + {g}, todo - {g};
    }
  }

  /** Phase 2: the ids of every row but the survivor of each url still held by several rows. */
  method CrossCollectionIds(rows: seq<CandidateRow>, status: map<int, bool>, counts: map<int, nat>) returns (ids: set<int>)
    ensures ids == CrossDeleted(rows, status, counts)
  {
    var todo := DupeUrls(rows);
    ghost var done: set<string> := {};
    ids := {};
    while todo != {}
      invariant done + todo == DupeUrls(rows) && done !! todo
      invariant ids == CrossFrom(rows, done, status, counts)
      decreases |todo|
    {
      var u :| u in todo;
      var instances := Select(rows, UrlKey(u));
      var priorityInstances := PriorityRows(instances, status);
      var keep := if priorityInstances != [] then FirstFewest(priorityInstances, counts)
                  else FirstFewest(OtherRows(instances, status), counts);
      var deleteIds := set r | r in rows && r.url == u && !(keep.Some? && keep.value.id == r.id) :: r.id;
      CrossFromStep(rows, done, u, status, counts, keep);
      ids := ids + deleteIds;
      MoveOne(done, todo, u);
      done, todo := done + {u}, todo - {u};
    }
  }

  /** The candidate url table. */
  class CandidateTable {
    var rows: seq<CandidateRow>

    /**
     * `deduplicate_candidate_urls`: both phases, each deleting the ids it collected;
     * the counts reported are the numbers of ids each phase collected.
     */
    method DeduplicateCandidateUrls(collections: map<int, WorkflowStatus>) returns (intraCount: nat, crossCount: nat)
      requires forall r :: r in rows ==> r.collection in collections
      modifies this
      ensures rows == Deduplicated(old(rows), collections)
      ensures intraCount == |IntraDeleted(old(rows))|
      ensures crossCount == |CrossDeleted(AfterIntra(old(rows)), StatusOf(collections), CountsOf(old(rows), collections))|
    {
      var counts := map c | c in collections :: |Select(rows, CollectionKey(c))|;
      var status := map c | c in collections :: IsPriorityCollection(collections[c]);
      var intraIds := IntraCollectionIds(rows);
      rows := Without(rows, intraIds);
      var crossIds := CrossCollectionIds(rows, status, counts);
      rows := Without(rows, crossIds);
      intraCount, crossCount := |intraIds|, |crossIds|;
    }
  }
}
