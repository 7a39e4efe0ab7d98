/**
 * The candidate-url cleanup script. Two candidate urls are duplicates when
 * they belong to the same collection and agree on every other field but the
 * id. `analyze_duplicates` reports, collection by collection, how many urls
 * there are and how many the cleanup would delete; `delete_duplicates` then
 * keeps the first url of every group of duplicates and deletes the others.
 */
module UrlDuplicates {
  import opened Wrappers
  import opened KeepFirst

  /**
   * What a candidate url is grouped on: its collection, and the values of all
   * its other fields except the id, in field order.
   */
  datatype CandidateKey = CandidateKey(collection: int, values: seq<string>)

  /** A collection: its id and its config folder, the name the reports use. */
  datatype CollectionRef = CollectionRef(id: int, configFolder: string)

  type UrlRow = Keyed<CandidateKey>

  /** Two distinct rows are duplicates: same collection, same values. */
  predicate Duplicates(x: UrlRow, y: UrlRow)
  {
    x.id != y.id && x.key.collection == y.key.collection && x.key.values == y.key.values
  }

  /** `filter(collection=collection).count()`. */
  function CountIn(rows: seq<UrlRow>, c: int): (n: nat)
    ensures n <= |rows|
  {
    if rows == [] then 0 else (if rows[0].key.collection == c then 1 else 0) + CountIn(rows[1..], c)
  }

  /** The groups of duplicates of the listed collections. */
  function DupesIn(rows: seq<UrlRow>, cs: set<int>): set<CandidateKey>
  {
    set r | r in rows && r.key.collection in cs && |Group(rows, r.key)| > 1 :: r.key
  }

  /** The number of urls the cleanup deletes from one collection. */
  function ToDelete(rows: seq<UrlRow>, c: int): nat
  {
    |Removed(rows, DupesIn(rows, {c}))|
  }

  /** The collections' ids. */
  function IdsUpTo(cs: seq<CollectionRef>, n: nat): set<int>
    requires n <= |cs|
  {
    set j | 0 <= j < n :: cs[j].id
  }

  /** Collections have unique ids and unique config folders. */
  predicate DistinctCollections(cs: seq<CollectionRef>)
  {
    forall i, j :: 0 <= i < j < |cs| ==> cs[i].id != cs[j].id && cs[i].configFolder != cs[j].configFolder
  }

  /** `deletion_stats` of `analyze_duplicates` after the first `n` collections. */
  function AnalysisUpTo(rows: seq<UrlRow>, cs: seq<CollectionRef>, n: nat): map<string, (nat, nat)>
    requires n <= |cs|
  {
    if n == 0 then map[]
    else AnalysisUpTo(rows, cs, n - 1)[cs[n - 1].configFolder := (CountIn(rows, cs[n - 1].id), ToDelete(rows, cs[n - 1].id))]
  }

  /** What the cleanup deletes from each collection, in collection order. */
  function DeleteCounts(rows: seq<UrlRow>, cs: seq<CollectionRef>): (counts: seq<nat>)
    ensures |counts| == |cs|
    ensures forall j :: 0 <= j < |cs| ==> counts[j] == ToDelete(rows, cs[j].id)
  {
    seq(|cs|, j requires 0 <= j < |cs| => ToDelete(rows, cs[j].id))
  }

  /**
   * `deletion_stats` of `delete_duplicates` after the first `n` collections,
   * given what is deleted from each: only those that lost urls.
   */
  function DeletionsUpTo(cs: seq<CollectionRef>, counts: seq<nat>, n: nat): map<string, nat>
    requires n <= |cs| == |counts|
  {
    if n == 0 then map[]
    else if counts[n - 1] > 0 then DeletionsUpTo(cs, counts, n - 1)[cs[n - 1].configFolder := counts[n - 1]]
    else DeletionsUpTo(cs, counts, n - 1)
  }

  /** What the cleanup would delete from one collection: its duplicate groups, summed. */
  method CountDuplicates(rows: seq<UrlRow>, c: int) returns (toDelete: nat)
    requires UniqueIds(rows)
    ensures toDelete == ToDelete(rows, c)
  {
    DupesAreGroups(rows, {c});
    toDelete := SumSurplus(rows, DupesIn(rows, {c}));
  }

  /** Every group of duplicates adds its size minus one. */
  method SumSurplus(rows: seq<UrlRow>, groups: set<CandidateKey>) returns (toDelete: nat)
    requires UniqueIds(rows)
    requires forall k :: k in groups ==> |Group(rows, k)| > 1
    ensures toDelete == |Removed(rows, groups)|
  {
    var todo := groups;
    ghost var done: set<CandidateKey> := {};
    toDelete := 0;
    assert Removed(rows, {}) == {};
    while todo != {}
      invariant done + todo == groups && done !! todo
      invariant toDelete == |Removed(rows, done)|
      decreases |todo|
    {
      var k :| k in todo;
      var duplicatesCount := |Group(rows, k)|;
      RemovedCount(rows, done, k);
      toDelete := toDelete + duplicatesCount - 1;
      MoveOne(done, todo, k);
      done, todo := done + {k}, todo - {k};
    }
  }

  /**
   * `analyze_duplicates`: for every collection, its number of urls and the
   * number the cleanup would delete from it. Nothing is changed.
   */
  method AnalyzeDuplicates(rows: seq<UrlRow>, collections: seq<CollectionRef>) returns (stats: map<string, (nat, nat)>)
    requires UniqueIds(rows)
    ensures stats == AnalysisUpTo(rows, collections, |collections|)
  {
    stats := map[];
    for i := 0 to |collections|
      invariant stats == AnalysisUpTo(rows, collections, i)
    {
      var collection := collections[i];
      var totalUrls := CountIn(rows, collection.id);
      var toDelete := CountDuplicates(rows, collection.id);
      stats := stats[collection.configFolder := (totalUrls, toDelete)];
    }
  }

  /**
   * `delete_duplicates`: collection by collection, every group of duplicates
   * is cut down to its first url; the report lists the collections that lost
   * urls, with how many.
   */
  method DeleteDuplicates(table: Table<CandidateKey>, collections: seq<CollectionRef>) returns (stats: map<string, nat>)
    requires UniqueIds(table.rows) && DistinctCollections(collections)
    modifies table
    ensures table.rows == Without(old(table.rows), Removed(old(table.rows), DupesIn(old(table.rows), IdsUpTo(collections, |collections|))))
    ensures stats == DeletionsUpTo(collections, DeleteCounts(old(table.rows), collections), |collections|)
  {
    ghost var start := table.rows;
    stats := map[];
    NothingRemovedYet(start, collections);
    for i := 0 to |collections|
      invariant table.rows == Without(start, Removed(start, DupesIn(start, IdsUpTo(collections, i))))
      invariant stats == DeletionsUpTo(collections, DeleteCounts(start, collections), i)
    {
      stats := DeleteCollectionDuplicates(table, start, collections, i, stats);
    }
  }

  /**
   * One collection's turn of `delete_duplicates`, after the collections before
   * it: the collection's groups are cut down to their first urls, one url at a
   * time, and the deletions counted.
   */
  method DeleteCollectionDuplicates(table: Table<CandidateKey>, ghost start: seq<UrlRow>, collections: seq<CollectionRef>, i: nat,
                                    stats: map<string, nat>)
    returns (newStats: map<string, nat>)
    requires UniqueIds(start) && DistinctCollections(collections) && i < |collections|
    requires table.rows == Without(start, Removed(start, DupesIn(start, IdsUpTo(collections, i))))
    requires stats == DeletionsUpTo(collections, DeleteCounts(start, collections), i)
    modifies table
    ensures table.rows == Without(start, Removed(start, DupesIn(start, IdsUpTo(collections, i + 1))))
    ensures newStats == DeletionsUpTo(collections, DeleteCounts(start, collections), i + 1)
  {
    CollectionStep(start, collections, i, table.rows);
    var deleted := table.DeleteDuplicateGroups(DupesIn(table.rows, {collections[i].id}));
    DeletionsStep(collections, DeleteCounts(start, collections), i);
    newStats := stats;
    if deleted > 0 {
      newStats := stats[collections[i].configFolder := deleted];
    }
  }

  // ----------------------------------------------------------------- lemmas

  /** A duplicate group of the listed collections holds several urls. */
  lemma DupesAreGroups(rows: seq<UrlRow>, cs: set<int>)
    ensures forall k :: k in DupesIn(rows, cs) ==> |Group(rows, k)| > 1
  {
  }

  /** One more collection in the deletion report. */
  lemma DeletionsStep(cs: seq<CollectionRef>, counts: seq<nat>, i: nat)
    requires i < |cs| == |counts|
    ensures DeletionsUpTo(cs, counts, i + 1) ==
      if counts[i] > 0 then DeletionsUpTo(cs, counts, i)[cs[i].configFolder := counts[i]] else DeletionsUpTo(cs, counts, i)
  {
  }

  /** Before the first collection nothing is deleted. */
  lemma NothingRemovedYet(rows: seq<UrlRow>, cs: seq<CollectionRef>)
    ensures Without(rows, Removed(rows, DupesIn(rows, IdsUpTo(cs, 0)))) == rows
  {
    assert IdsUpTo(cs, 0) == {};
    assert DupesIn(rows, {}) == {};
    assert Removed(rows, {}) == {};
    WithoutNone(rows);
  }

  /** The groups of several collections are those of each. */
  lemma DupesInUnion(rows: seq<UrlRow>, a: set<int>, b: set<int>)
    ensures DupesIn(rows, a + b) == DupesIn(rows, a) + DupesIn(rows, b)
    ensures a !! b ==> DupesIn(rows, a) !! DupesIn(rows, b)
  {
  }

  /**
   * One collection's cleanup, after the collections before it: it sees its
   * own groups as they were, and it deletes what the analysis counted.
   */
  lemma CollectionStep(start: seq<UrlRow>, cs: seq<CollectionRef>, i: nat, cur: seq<UrlRow>)
    requires UniqueIds(start) && DistinctCollections(cs) && i < |cs|
    requires cur == Without(start, Removed(start, DupesIn(start, IdsUpTo(cs, i))))
    ensures UniqueIds(cur)
    ensures DupesIn(cur, {cs[i].id}) == DupesIn(start, {cs[i].id})
    ensures |Removed(cur, DupesIn(cur, {cs[i].id}))| == ToDelete(start, cs[i].id)
    ensures Without(cur, Removed(cur, DupesIn(cur, {cs[i].id}))) == Without(start, Removed(start, DupesIn(start, IdsUpTo(cs, i + 1))))
  {
    var seen := IdsUpTo(cs, i);
    var c := cs[i].id;
    assert c !in seen;
    assert IdsUpTo(cs, i + 1) == seen + {c};
    DupesInUnion(start, seen, {c});
    var done, ks := DupesIn(start, seen), DupesIn(start, {c});
    PassStep(start, done, ks, cur);
    forall r | r in start && r.key.collection == c ensures r.key !in done {
    }
    assert DupesIn(cur, {c}) == ks;
  }

  /** The analysis entry of every listed collection: its size and what the cleanup deletes. */
  lemma {:induction false} AnalysisMeaning(rows: seq<UrlRow>, cs: seq<CollectionRef>, n: nat)
    requires DistinctCollections(cs) && n <= |cs|
    ensures forall j :: 0 <= j < n ==> (cs[j].configFolder in AnalysisUpTo(rows, cs, n)
      && AnalysisUpTo(rows, cs, n)[cs[j].configFolder] == (CountIn(rows, cs[j].id), ToDelete(rows, cs[j].id)))
    ensures forall f :: f in AnalysisUpTo(rows, cs, n) ==> exists j :: 0 <= j < n && cs[j].configFolder == f
  {
    if n > 0 {
      AnalysisMeaning(rows, cs, n - 1);
    }
  }

  /**
   * The deletion report lists exactly the collections the cleanup deletes
   * urls from, each with the number the analysis gives it.
   */
  lemma {:induction false} DeletionsMeaning(cs: seq<CollectionRef>, counts: seq<nat>, n: nat)
    requires DistinctCollections(cs) && n <= |cs| == |counts|
    ensures forall j :: 0 <= j < n ==>
      (cs[j].configFolder in DeletionsUpTo(cs, counts, n) <==> counts[j] > 0)
    ensures forall j :: 0 <= j < n && cs[j].configFolder in DeletionsUpTo(cs, counts, n) ==>
      DeletionsUpTo(cs, counts, n)[cs[j].configFolder] == counts[j]
    ensures forall f :: f in DeletionsUpTo(cs, counts, n) ==> exists j :: 0 <= j < n && cs[j].configFolder == f
  {
    if n > 0 {
      DeletionsMeaning(cs, counts, n - 1);
    }
  }

  /**
   * When every url belongs to a listed collection, the cleanup leaves no two
   * duplicates, keeps every (collection, values) it found, by its first url,
   * and deletes only urls that had a duplicate before them.
   */
  lemma CleanupLeavesNoDuplicates(rows: seq<UrlRow>, cs: seq<CollectionRef>)
    requires UniqueIds(rows)
    requires forall r :: r in rows ==> r.key.collection in IdsUpTo(cs, |cs|)
    ensures Without(rows, Removed(rows, DupesIn(rows, IdsUpTo(cs, |cs|)))) == Deduplicated(rows)
    ensures forall x, y :: x in Deduplicated(rows) && y in Deduplicated(rows) ==> !Duplicates(x, y)
    ensures Keys(Deduplicated(rows)) == Keys(rows)
  {
    assert DupesIn(rows, IdsUpTo(cs, |cs|)) == DupeKeys(rows);
    DeduplicatedOnePerKey(rows);
  }
}
