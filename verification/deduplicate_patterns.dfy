/**
 * The pattern deduplication command: for each of the five pattern models, every
 * (collection, match_pattern) pair held by more than one pattern is cut down to
 * the first of those patterns, and the deletions are counted per model.
 */
module DeduplicatePatterns {
  import opened KeepFirst

  /** The value patterns are grouped on: the collection's id and the match pattern. */
  type PatternKey = (int, string)

  datatype PatternModel = ExcludePattern | IncludePattern | TitlePattern | DocumentTypePattern | DivisionPattern

  /** `pattern_models`, in the order the command visits them. */
  const PatternModels: seq<PatternModel> := [ExcludePattern, IncludePattern, TitlePattern, DocumentTypePattern, DivisionPattern]

  /** A model's place in `pattern_models`. */
  function Index(m: PatternModel): (i: nat)
    ensures i < |PatternModels| && PatternModels[i] == m
  {
    match m
    case ExcludePattern => 0
    case IncludePattern => 1
    case TitlePattern => 2
    case DocumentTypePattern => 3
    case DivisionPattern => 4
  }

  /** `sum(deletion_counts.values())` over the first `n` models; a missing model counts 0. */
  function SumCounts(counts: map<PatternModel, nat>, n: nat): nat
    requires n <= |PatternModels|
  {
    if n == 0 then 0
    else SumCounts(counts, n - 1) + (if PatternModels[n - 1] in counts then counts[PatternModels[n - 1]] else 0)
  }

  /** The patterns the command deletes from the first `n` tables, in all. */
  function TotalSurplus(rows: seq<seq<Keyed<PatternKey>>>, n: nat): nat
    requires n <= |rows|
  {
    if n == 0 then 0 else TotalSurplus(rows, n - 1) + Surplus(rows[n - 1])
  }

  /** `deletion_counts` after the first `n` tables: only models that lost patterns get an entry. */
  function CountsUpTo(rows: seq<seq<Keyed<PatternKey>>>, n: nat): map<PatternModel, nat>
    requires n <= |rows| <= |PatternModels|
  {
    if n == 0 then map[]
    else if Surplus(rows[n - 1]) > 0 then CountsUpTo(rows, n - 1)[PatternModels[n - 1] := Surplus(rows[n - 1])]
    else CountsUpTo(rows, n - 1)
  }

  /** The rows of every table. */
  function RowsOf(tables: seq<Table<PatternKey>>): (rows: seq<seq<Keyed<PatternKey>>>)
    reads tables
    ensures |rows| == |tables| && forall j :: 0 <= j < |tables| ==> rows[j] == tables[j].rows
  {
    seq(|tables|, j reads tables requires 0 <= j < |tables| => tables[j].rows)
  }

  /** One table per model, in `pattern_models` order, each its own, with unique ids. */
  predicate Tables(tables: seq<Table<PatternKey>>)
    reads tables
  {
    && |tables| == |PatternModels|
    && (forall i, j :: 0 <= i < j < |tables| ==> tables[i] != tables[j])
    && (forall j :: 0 <= j < |tables| ==> UniqueIds(tables[j].rows))
  }

  /**
   * `Command.handle`: each table is left with one pattern per (collection,
   * match_pattern) pair, its first; `deletion_counts` holds the models that
   * lost patterns, with how many; the total is their sum.
   */
  method Handle(tables: seq<Table<PatternKey>>) returns (counts: map<PatternModel, nat>, total: nat)
    requires Tables(tables)
    modifies tables
    ensures forall j :: 0 <= j < |tables| ==> tables[j].rows == Deduplicated(old(tables[j].rows))
    ensures forall m :: m in counts <==> Surplus(old(tables[Index(m)].rows)) > 0
    ensures forall m :: m in counts ==> counts[m] == Surplus(old(tables[Index(m)].rows))
    ensures total == SumCounts(counts, |PatternModels|) == TotalSurplus(old(RowsOf(tables)), |PatternModels|)
  {
    ghost var before := RowsOf(tables);
    counts := map[];
    var i := 0;
    while i < |tables|
      invariant 0 <= i <= |tables|
      invariant forall a, b :: 0 <= a < b < |tables| ==> tables[a] != tables[b]
      invariant forall j :: 0 <= j < i ==> tables[j].rows == Deduplicated(before[j])
      invariant forall j :: i <= j < |tables| ==> tables[j].rows == before[j]
      invariant counts == CountsUpTo(before, i)
    {
      assert tables[i].rows == before[i];
      var deleted := tables[i].Deduplicate();
      assert deleted == Surplus(before[i]);
      if deleted > 0 {
        counts := counts[PatternModels[i] := deleted];
      }
      i := i + 1;
    }
    CountsUpToMeaning(before, i);
    total := SumCounts(counts, |PatternModels|);
  }

  // ----------------------------------------------------------------- lemmas

  /**
   * `deletion_counts` after the first `n` tables holds exactly the models among
   * them that lost patterns, each with its number, and its values sum to the
   * number of patterns deleted from those tables.
   */
  lemma {:induction false} CountsUpToMeaning(rows: seq<seq<Keyed<PatternKey>>>, n: nat)
    requires n <= |rows| == |PatternModels|
    ensures forall m :: m in CountsUpTo(rows, n) <==> Index(m) < n && Surplus(rows[Index(m)]) > 0
    ensures forall m :: m in CountsUpTo(rows, n) ==> CountsUpTo(rows, n)[m] == Surplus(rows[Index(m)])
    ensures SumCounts(CountsUpTo(rows, n), n) == TotalSurplus(rows, n)
  {
    if n > 0 {
      CountsUpToMeaning(rows, n - 1);
      var m := PatternModels[n - 1];
      IndexAt(n - 1);
      if Surplus(rows[n - 1]) > 0 {
        SumCountsOther(CountsUpTo(rows, n - 1), n - 1, m, Surplus(rows[n - 1]));
      }
    }
  }

  lemma IndexAt(i: int)
    requires 0 <= i < |PatternModels|
    ensures Index(PatternModels[i]) == i
  {
    if i == 0 {
    } else if i == 1 {
    } else if i == 2 {
    } else if i == 3 {
    } else {
    }
  }

  /** Setting the count of a later model leaves the sum over the first `n` alone. */
  lemma {:induction false} SumCountsOther(counts: map<PatternModel, nat>, n: nat, m: PatternModel, v: nat)
    requires n <= Index(m)
    ensures SumCounts(counts[m := v], n) == SumCounts(counts, n)
  {
    if n > 0 {
      IndexAt(n - 1);
      SumCountsOther(counts, n - 1, m, v);
    }
  }
}
