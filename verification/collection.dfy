/**
 * A collection: its url tiers, its match patterns and its workflow status, with
 * the operations that move urls between the tiers -- the migration of a fresh
 * dump into deltas, the promotion of deltas to curated urls -- and the effect a
 * change of workflow status triggers.
 */
module Collections {
  import opened Wrappers
  import opened Workflow
  import opened DeltaUrls
  import opened DeltaPatterns
  import opened PatternRegex

  // ------------------------------------------------------------ dump to delta

  /** `DELTA_COMPARISON_FIELDS`: a dump url with a curated counterpart yields a delta only when they differ on one of these. */
  const DeltaComparisonFields: seq<Field> := [ScrapedTitle]

  predicate DiffersOn(a: UrlRecord, b: UrlRecord, fields: seq<Field>)
  {
    exists f :: f in fields && Get(a, f) != Get(b, f)
  }

  /** The delta `migrate_dump_to_delta` creates for a url, if any. */
  function MigratedDelta(dump: map<string, UrlRecord>, curated: map<string, UrlRecord>, u: string): Option<DeltaRecord>
  {
    if u in dump then
      if u !in curated || DiffersOn(curated[u], dump[u], DeltaComparisonFields) then Some(DeltaRecord(dump[u], false))
      else None
    else if u in curated then Some(DeltaRecord(curated[u], true))
    else None
  }

  /** The deltas created for the urls in `us`. */
  function MigratedFrom(dump: map<string, UrlRecord>, curated: map<string, UrlRecord>, us: set<string>): map<string, DeltaRecord>
  {
    map u | u in us && MigratedDelta(dump, curated, u).Some? :: MigratedDelta(dump, curated, u).value
  }

  /** All deltas `migrate_dump_to_delta` creates. */
  function MigratedDeltas(dump: map<string, UrlRecord>, curated: map<string, UrlRecord>): map<string, DeltaRecord>
  {
    MigratedFrom(dump, curated, dump.Keys + curated.Keys)
  }

  /** The rows after the diff of `migrate_dump_to_delta`, before the patterns run. */
  function MigratedRows(rows: Rows): Rows
  {
    Rows(map[], MigratedDeltas(rows.dump, rows.curated), rows.curated, map[], map[])
  }

  lemma MigratedFromEmpty(dump: map<string, UrlRecord>, curated: map<string, UrlRecord>)
    ensures MigratedFrom(dump, curated, {}) == map[]
  {
    assert MigratedFrom(dump, curated, {}).Keys == {};
  }

  lemma MigratedFromStep(dump: map<string, UrlRecord>, curated: map<string, UrlRecord>, us: set<string>, u: string)
    ensures u !in us ==> u !in MigratedFrom(dump, curated, us)
    ensures MigratedFrom(dump, curated, us + {u})
         == if u in us then MigratedFrom(dump, curated, us)
            else Put(MigratedFrom(dump, curated, us), u, MigratedDelta(dump, curated, u))
  {
    if u in us {
      assert us + {u} == us;
    } else {
      var a := MigratedFrom(dump, curated, us + {u});
      var b := Put(MigratedFrom(dump, curated, us), u, MigratedDelta(dump, curated, u));
      assert a.Keys == b.Keys;
    }
  }

  /**
   * A dump url yields a non-deleting copy of itself exactly when it has no curated
   * counterpart or differs from it on the scraped title; an identical url yields none.
   */
  lemma MigratedDumpUrl(dump: map<string, UrlRecord>, curated: map<string, UrlRecord>, u: string)
    requires u in dump
    ensures var d := MigratedDeltas(dump, curated);
      && (u in d <==> u !in curated || curated[u].scrapedTitle != dump[u].scrapedTitle)
      && (u in d ==> d[u] == DeltaRecord(dump[u], false))
  {
    assert DeltaComparisonFields[0] == ScrapedTitle;
    if u in curated && curated[u].scrapedTitle != dump[u].scrapedTitle {
      assert Get(curated[u], ScrapedTitle) != Get(dump[u], ScrapedTitle);
    }
  }

  /** A curated url missing from the dump yields a deleting delta carrying the curated fields. */
  lemma MigratedMissingUrl(dump: map<string, UrlRecord>, curated: map<string, UrlRecord>, u: string)
    requires u in curated && u !in dump
    ensures u in MigratedDeltas(dump, curated)
    ensures MigratedDeltas(dump, curated)[u] == DeltaRecord(curated[u], true)
  {
  }

  /** No earlier delta survives: every delta left comes from the dump or is a deletion of a curated url. */
  lemma MigratedDeltaSources(dump: map<string, UrlRecord>, curated: map<string, UrlRecord>, u: string)
    requires u in MigratedDeltas(dump, curated)
    ensures u in dump || u in curated
    ensures MigratedDeltas(dump, curated)[u].toDelete <==> u !in dump
  {
  }

  // ---------------------------------------------------------------- promotion

  /** The curated record a delta leaves behind, given the curated record it meets, if any. */
  function PromotedRecord(d: DeltaRecord, c: Option<UrlRecord>): Option<UrlRecord>
  {
    if d.toDelete then None
    else Some(FillBlanks(d.rec, if c.Some? then c.value else BlankRecord, AllFields))
  }

  /** The curated record of u after the deltas in `us` were promoted. */
  function PromotedEntry(delta: map<string, DeltaRecord>, curated: map<string, UrlRecord>, us: set<string>, u: string): Option<UrlRecord>
  {
    if u in us && u in delta then PromotedRecord(delta[u], Lookup(curated, u)) else Lookup(curated, u)
  }

  /** The curated rows after the deltas in `us` were promoted. */
  function PromotedUrls(delta: map<string, DeltaRecord>, curated: map<string, UrlRecord>, us: set<string>): map<string, UrlRecord>
  {
    map u | u in curated.Keys + (us * delta.Keys) && PromotedEntry(delta, curated, us, u).Some?
      :: PromotedEntry(delta, curated, us, u).value
  }

  /** The curated rows after `promote_to_curated`. */
  function PromotedCurated(delta: map<string, DeltaRecord>, curated: map<string, UrlRecord>): map<string, UrlRecord>
  {
    PromotedUrls(delta, curated, delta.Keys)
  }

  lemma PromotedUrlsEmpty(delta: map<string, DeltaRecord>, curated: map<string, UrlRecord>)
    ensures PromotedUrls(delta, curated, {}) == curated
  {
    assert PromotedUrls(delta, curated, {}).Keys == curated.Keys;
  }

  lemma PromotedUrlsStep(delta: map<string, DeltaRecord>, curated: map<string, UrlRecord>, us: set<string>, u: string)
    requires u in delta && u !in us
    ensures Lookup(PromotedUrls(delta, curated, us), u) == Lookup(curated, u)
    ensures PromotedUrls(delta, curated, us + {u})
         == Put(PromotedUrls(delta, curated, us), u, PromotedRecord(delta[u], Lookup(curated, u)))
  {
    var a := PromotedUrls(delta, curated, us + {u});
    var b := Put(PromotedUrls(delta, curated, us), u, PromotedRecord(delta[u], Lookup(curated, u)));
    forall v ensures Lookup(a, v) == Lookup(b, v) {
      PromotedUrlsAt(delta, curated, us + {u}, v);
      PromotedUrlsAt(delta, curated, us, v);
    }
    SameLookupsSameMap(a, b);
  }

  lemma PromotedUrlsAt(delta: map<string, DeltaRecord>, curated: map<string, UrlRecord>, us: set<string>, v: string)
    ensures Lookup(PromotedUrls(delta, curated, us), v) == PromotedEntry(delta, curated, us, v)
  {
  }

  lemma SameLookupsSameMap<T>(a: map<string, T>, b: map<string, T>)
    requires forall v :: Lookup(a, v) == Lookup(b, v)
    ensures a == b
  {
    forall v ensures v in a <==> v in b {
      assert Lookup(a, v) == Lookup(b, v);
    }
    forall v | v in a ensures a[v] == b[v] {
      assert Lookup(a, v) == Lookup(b, v);
    }
  }

  /** Filling a record's blanks from the defaults changes nothing: blank values are the defaults. */
  lemma FilledFromDefaults(r: UrlRecord)
    ensures FillBlanks(r, BlankRecord, AllFields) == r
  {
    forall g ensures Get(FillBlanks(r, BlankRecord, AllFields), g) == Get(r, g) {
      FillBlanksAt(r, BlankRecord, AllFields, g);
    }
    SameFieldsSameRecord(FillBlanks(r, BlankRecord, AllFields), r);
  }

  /** A deleting delta removes its curated counterpart and never creates one. */
  lemma PromoteDeletes(delta: map<string, DeltaRecord>, curated: map<string, UrlRecord>, u: string)
    requires u in delta && delta[u].toDelete
    ensures u !in PromotedCurated(delta, curated)
  {
  }

  /**
   * A curated record met by a delta takes the delta's value on every field where
   * that value is neither null nor empty, and keeps its own value elsewhere.
   */
  lemma PromoteMerges(delta: map<string, DeltaRecord>, curated: map<string, UrlRecord>, u: string, f: Field)
    requires u in delta && !delta[u].toDelete && u in curated
    ensures u in PromotedCurated(delta, curated)
    ensures Get(PromotedCurated(delta, curated)[u], f)
         == if IsBlank(Get(delta[u].rec, f)) then Get(curated[u], f) else Get(delta[u].rec, f)
  {
    AllFieldsListed(f);
    FillBlanksAt(delta[u].rec, curated[u], AllFields, f);
  }

  /** A delta with no curated counterpart becomes a curated record with the delta's field values. */
  lemma PromoteCreates(delta: map<string, DeltaRecord>, curated: map<string, UrlRecord>, u: string)
    requires u in delta && !delta[u].toDelete && u !in curated
    ensures u in PromotedCurated(delta, curated)
    ensures PromotedCurated(delta, curated)[u] == delta[u].rec
  {
    FilledFromDefaults(delta[u].rec);
  }

  /** A curated url without a delta keeps its record, and no url without a delta appears. */
  lemma PromoteKeepsOthers(delta: map<string, DeltaRecord>, curated: map<string, UrlRecord>, u: string)
    requires u !in delta
    ensures Lookup(PromotedCurated(delta, curated), u) == Lookup(curated, u)
  {
  }

  // ------------------------------------------------------ apply_all_patterns

  /** The five pattern models. */
  datatype PatternKind = ExcludeKind | IncludeKind | TitleKind | DocumentTypeKind | DivisionKind

  /** The order `apply_all_patterns` runs the pattern models in. */
  const KindOrder: seq<PatternKind> := [ExcludeKind, IncludeKind, TitleKind, DocumentTypeKind, DivisionKind]

  function KindOf(e: Effect): PatternKind
  {
    match e
    case ExcludeUrls(_) => ExcludeKind
    case IncludeUrls => IncludeKind
    case SetTitle(_) => TitleKind
    case SetDocumentType(_) => DocumentTypeKind
    case SetDivision(_) => DivisionKind
  }

  /** The position of a kind in `KindOrder`. */
  function Rank(k: PatternKind): (n: nat)
    ensures n < |KindOrder| && KindOrder[n] == k
  {
    match k
    case ExcludeKind => 0
    case IncludeKind => 1
    case TitleKind => 2
    case DocumentTypeKind => 3
    case DivisionKind => 4
  }

  /** The rules of one kind, in their order. */
  function OfKind(rules: seq<Rule>, k: PatternKind): (r: seq<Rule>)
    ensures forall x :: x in r ==> KindOf(x.effect) == k
  {
    if rules == [] then []
    else
      var last := rules[|rules| - 1];
      OfKind(rules[..|rules| - 1], k) + if KindOf(last.effect) == k then [last] else []
  }

  /** The rules of the listed kinds, one kind after the other. */
  function Grouped(rules: seq<Rule>, kinds: seq<PatternKind>): seq<Rule>
  {
    if kinds == [] then [] else Grouped(rules, kinds[..|kinds| - 1]) + OfKind(rules, kinds[|kinds| - 1])
  }

  /** The rules in the order `apply_all_patterns` applies them. */
  function ByKind(rules: seq<Rule>): seq<Rule>
  {
    Grouped(rules, KindOrder)
  }

  /** Each rule's `apply`, one after the other; None as soon as one raises. */
  function ApplyRules(rows: Rows, rules: seq<Rule>, collection: string, resolve: TitleResolver): Option<Rows>
  {
    if rules == [] then Some(rows)
    else match ApplyRules(rows, rules[..|rules| - 1], collection, resolve)
      case None => None
      case Some(r) => ApplySpec(r, rules[|rules| - 1], collection, resolve)
  }

  /** Continue applying `rules` after an outcome. */
  function ThenApply(o: Option<Rows>, rules: seq<Rule>, collection: string, resolve: TitleResolver): Option<Rows>
  {
    match o
    case None => None
    case Some(r) => ApplyRules(r, rules, collection, resolve)
  }

  /** `apply_all_patterns` on the rows, given the collection's pattern rows. */
  function ApplyAll(rows: Rows, rules: seq<Rule>, collection: string, resolve: TitleResolver): Option<Rows>
  {
    ApplyRules(rows, ByKind(rules), collection, resolve)
  }

  lemma {:induction false} ApplyRulesAppend(rows: Rows, a: seq<Rule>, b: seq<Rule>, collection: string, resolve: TitleResolver)
    ensures ApplyRules(rows, a + b, collection, resolve) == ThenApply(ApplyRules(rows, a, collection, resolve), b, collection, resolve)
    decreases |b|
  {
    if b == [] {
      assert a + b == a;
    } else {
      var b' := b[..|b| - 1];
      assert (a + b)[..|a + b| - 1] == a + b';
      assert (a + b)[|a + b| - 1] == b[|b| - 1];
      ApplyRulesAppend(rows, a, b', collection, resolve);
    }
  }

  lemma {:induction false} OfKindAppend(a: seq<Rule>, b: seq<Rule>, k: PatternKind)
    ensures OfKind(a + b, k) == OfKind(a, k) + OfKind(b, k)
    decreases |b|
  {
    if b == [] {
      assert a + b == a;
    } else {
      var b' := b[..|b| - 1];
      assert (a + b)[..|a + b| - 1] == a + b';
      assert (a + b)[|a + b| - 1] == b[|b| - 1];
      OfKindAppend(a, b', k);
    }
  }

  lemma {:induction false} GroupedAppend(rules: seq<Rule>, a: seq<PatternKind>, b: seq<PatternKind>)
    ensures Grouped(rules, a + b) == Grouped(rules, a) + Grouped(rules, b)
    decreases |b|
  {
    if b == [] {
      assert a + b == a;
    } else {
      var b', last := b[..|b| - 1], b[|b| - 1];
      assert (a + b)[..|a + b| - 1] == a + b';
      assert (a + b)[|a + b| - 1] == last;
      calc {
        Grouped(rules, a + b);
        Grouped(rules, a + b') + OfKind(rules, last);
        { GroupedAppend(rules, a, b'); }
        (Grouped(rules, a) + Grouped(rules, b')) + OfKind(rules, last);
        Grouped(rules, a) + (Grouped(rules, b') + OfKind(rules, last));
        Grouped(rules, a) + Grouped(rules, b);
      }
    }
  }

  /** How often a rule occurs among the rules of one kind. */
  lemma {:induction false} OfKindCount(rules: seq<Rule>, k: PatternKind, x: Rule)
    ensures multiset(OfKind(rules, k))[x] == if KindOf(x.effect) == k then multiset(rules)[x] else 0
    decreases |rules|
  {
    if rules != [] {
      var init, last := rules[..|rules| - 1], rules[|rules| - 1];
      OfKindCount(init, k, x);
      assert rules == init + [last];
      assert multiset(rules)[x] == multiset(init)[x] + multiset{last}[x];
      if KindOf(last.effect) == k {
        assert OfKind(rules, k) == OfKind(init, k) + [last];
        assert multiset(OfKind(rules, k))[x] == multiset(OfKind(init, k))[x] + multiset{last}[x];
      } else {
        assert OfKind(rules, k) == OfKind(init, k);
      }
    }
  }

  lemma {:induction false} GroupedCount(rules: seq<Rule>, kinds: seq<PatternKind>, x: Rule)
    requires forall i, j :: 0 <= i < j < |kinds| ==> kinds[i] != kinds[j]
    ensures multiset(Grouped(rules, kinds))[x] == if KindOf(x.effect) in kinds then multiset(rules)[x] else 0
    decreases |kinds|
  {
    if kinds != [] {
      var init, last := kinds[..|kinds| - 1], kinds[|kinds| - 1];
      GroupedCount(rules, init, x);
      OfKindCount(rules, last, x);
      assert kinds == init + [last];
      assert last !in init;
    }
  }

  /** `apply_all_patterns` applies every pattern once: its order is a permutation of the pattern rows. */
  lemma ByKindIsPermutation(rules: seq<Rule>)
    ensures multiset(ByKind(rules)) == multiset(rules)
  {
    forall x ensures multiset(ByKind(rules))[x] == multiset(rules)[x] {
      GroupedCount(rules, KindOrder, x);
      assert KindOrder[Rank(KindOf(x.effect))] == KindOf(x.effect);
    }
  }

  /** No rule of a later kind comes before a rule of an earlier kind. */
  predicate SortedByKind(rs: seq<Rule>)
  {
    forall i, j :: 0 <= i < j < |rs| ==> Rank(KindOf(rs[i].effect)) <= Rank(KindOf(rs[j].effect))
  }

  lemma {:induction false} GroupedSorted(rules: seq<Rule>, kinds: seq<PatternKind>)
    requires forall i :: 0 <= i < |kinds| ==> Rank(kinds[i]) == i
    ensures SortedByKind(Grouped(rules, kinds))
    ensures forall x :: x in Grouped(rules, kinds) ==> KindOf(x.effect) in kinds
    decreases |kinds|
  {
    if kinds != [] {
      var init, last := kinds[..|kinds| - 1], kinds[|kinds| - 1];
      GroupedSorted(rules, init);
      var g0, o := Grouped(rules, init), OfKind(rules, last);
      var g := g0 + o;
      forall i, j | 0 <= i < j < |g| ensures Rank(KindOf(g[i].effect)) <= Rank(KindOf(g[j].effect)) {
        if j < |g0| {
          assert g[i] == g0[i] && g[j] == g0[j];
          assert SortedByKind(g0);
        } else if i >= |g0| {
          assert g[i] == o[i - |g0|] && g[j] == o[j - |g0|];
          assert g[i] in o && g[j] in o;
        } else {
          assert g[i] == g0[i] && g[i] in g0;
          var n :| 0 <= n < |init| && init[n] == KindOf(g[i].effect);
          assert kinds[n] == init[n] && Rank(kinds[n]) == n;
          assert g[j] == o[j - |g0|] && g[j] in o;
          assert Rank(kinds[|kinds| - 1]) == |kinds| - 1;
        }
      }
      forall x | x in g ensures KindOf(x.effect) in kinds {
        if x in g0 {
          var n :| 0 <= n < |init| && init[n] == KindOf(x.effect);
          assert kinds[n] == init[n];
        } else {
          assert x in o;
          assert kinds[|kinds| - 1] == last;
        }
      }
    }
  }

  /** Exclude patterns run first, then include, title, document-type and division patterns. */
  lemma ByKindSorted(rules: seq<Rule>)
    ensures SortedByKind(ByKind(rules))
  {
    forall i | 0 <= i < |KindOrder| ensures Rank(KindOrder[i]) == i {
      assert i == 0 || i == 1 || i == 2 || i == 3 || i == 4;
    }
    GroupedSorted(rules, KindOrder);
  }

  /** The rules of a sequence of pattern rows. */
  function RulesOf(ps: seq<MatchPattern>): (r: seq<Rule>)
    ensures |r| == |ps| && forall i :: 0 <= i < |ps| ==> r[i] == ps[i].CurrentRule()
  {
    if ps == [] then [] else RulesOf(ps[..|ps| - 1]) + [ps[|ps| - 1].CurrentRule()]
  }

  // ------------------------------------------------------ exclusion status

  /** The delta (or curated) memberships of the pattern rows of one kind, in row order. */
  function MembershipLists(ps: seq<MatchPattern>, k: PatternKind, ofCurated: bool): seq<set<string>>
    reads ps
  {
    if ps == [] then []
    else
      var q := ps[|ps| - 1];
      MembershipLists(ps[..|ps| - 1], k, ofCurated) + if KindOf(q.effect) == k then [if ofCurated then q.curatedUrls else q.deltaUrls] else []
  }

  /** A url is in one of the lists exactly when some row of the kind lists it. */
  lemma {:induction false} MembershipListsMeaning(ps: seq<MatchPattern>, k: PatternKind, ofCurated: bool, u: string)
    ensures InSomeList(u, MembershipLists(ps, k, ofCurated)) <==>
      exists q :: q in ps && KindOf(q.effect) == k && u in (if ofCurated then q.curatedUrls else q.deltaUrls)
    decreases |ps|
  {
    if ps != [] {
      var init, q := ps[..|ps| - 1], ps[|ps| - 1];
      var lists, before := MembershipLists(ps, k, ofCurated), MembershipLists(init, k, ofCurated);
      var mine := if ofCurated then q.curatedUrls else q.deltaUrls;
      MembershipListsMeaning(init, k, ofCurated, u);
      assert ps == init + [q];
      if InSomeList(u, before) {
        var i :| 0 <= i < |before| && u in before[i];
        assert lists[i] == before[i];
      }
      if KindOf(q.effect) == k && u in mine {
        assert lists[|before|] == mine;
      }
      if InSomeList(u, lists) {
        var i :| 0 <= i < |lists| && u in lists[i];
        if i < |before| {
          assert lists[i] == before[i];
        } else {
          assert KindOf(q.effect) == k && lists[i] == mine;
        }
      }
    }
  }

  /** Some pattern row of the kind matches the url. */
  predicate MatchedByKind(ps: seq<MatchPattern>, k: PatternKind, u: string)
    reads ps
  {
    exists q :: q in ps && KindOf(q.effect) == k && Matches(q.matchPattern, q.matchType, u)
  }

  /**
   * Over a collection whose memberships are fresh, a delta or curated row is
   * flagged by the annotation as written exactly when an exclude pattern matches
   * it, and under the intended rule exactly when an exclude pattern matches it and
   * no include pattern does.
   */
  lemma ExcludedExactlyWhenMatched(c: Collection, u: string)
    requires c.Valid() && forall q :: q in c.patterns ==> q.MembershipFresh()
    ensures var ex, inc := MembershipLists(c.patterns, ExcludeKind, false), MembershipLists(c.patterns, IncludeKind, false);
      u in c.tables.delta ==>
        && (WithExclusionStatus(c.tables.delta, ex)[u].1 <==> MatchedByKind(c.patterns, ExcludeKind, u))
        && (WithIncludeAwareStatus(c.tables.delta, ex, inc)[u].1 <==>
              MatchedByKind(c.patterns, ExcludeKind, u) && !MatchedByKind(c.patterns, IncludeKind, u))
    ensures var ex, inc := MembershipLists(c.patterns, ExcludeKind, true), MembershipLists(c.patterns, IncludeKind, true);
      u in c.tables.curated ==>
        && (WithExclusionStatus(c.tables.curated, ex)[u].1 <==> MatchedByKind(c.patterns, ExcludeKind, u))
        && (WithIncludeAwareStatus(c.tables.curated, ex, inc)[u].1 <==>
              MatchedByKind(c.patterns, ExcludeKind, u) && !MatchedByKind(c.patterns, IncludeKind, u))
  {
    forall k: PatternKind, ofCurated: bool
      ensures u in (if ofCurated then c.tables.curated.Keys else c.tables.delta.Keys) ==>
        (InSomeList(u, MembershipLists(c.patterns, k, ofCurated)) <==> MatchedByKind(c.patterns, k, u))
    {
      MembershipListsMeaning(c.patterns, k, ofCurated, u);
    }
  }

  // ------------------------------------------------------ workflow effects

  /** What `create_configs_on_status_change` does after a save. */
  datatype StatusEffect =
    | NoEffect
    | CreatePluginConfig
    | PromoteCollection
    | CreateScraperAndIndexerConfigs
    | AddToPublicQuery

  /** The effect of saving a collection, given whether its workflow status changed and the new status. */
  function StatusChangeEffect(changed: bool, status: WorkflowStatus): StatusEffect
  {
    if !changed then NoEffect
    else match status
      case ReadyForCuration => CreatePluginConfig
      case Curated => PromoteCollection
      case ReadyForEngineering => CreateScraperAndIndexerConfigs
      case QualityCheckPerfect => AddToPublicQuery
      case QualityCheckMinor => AddToPublicQuery
      case _ => NoEffect
  }

  /** The status check that opens `add_to_public_query`. */
  function PublicQueryCheck(status: WorkflowStatus): Option<PyError>
  {
    if status == QualityCheckPerfect || status == QualityCheckMinor then None else Some(ValueError)
  }

  /**
   * A status change has an effect exactly for the four listed targets, and when
   * it adds the collection to the public query the status check there passes.
   */
  lemma StatusEffects(changed: bool, status: WorkflowStatus)
    ensures var e := StatusChangeEffect(changed, status);
      && (e == CreatePluginConfig <==> changed && status == ReadyForCuration)
      && (e == PromoteCollection <==> changed && status == Curated)
      && (e == CreateScraperAndIndexerConfigs <==> changed && status == ReadyForEngineering)
      && (e == AddToPublicQuery <==> changed && (status == QualityCheckPerfect || status == QualityCheckMinor))
      && (e == AddToPublicQuery ==> PublicQueryCheck(status).None?)
  {
  }

  // --------------------------------------------------------------- the class

  /** A collection row with its url tiers and its pattern rows. */
  class Collection {
    const tables: Tables
    var workflowStatus: WorkflowStatus
    /** The pattern rows of the collection, of all five models, in the order the database returns them. */
    var patterns: seq<MatchPattern>

    constructor (name: string, status: WorkflowStatus)
      ensures Valid() && tables.collectionName == name && workflowStatus == status && patterns == []
      ensures tables.Snapshot() == Rows(map[], map[], map[], map[], map[])
    {
      tables := new Tables(name);
      workflowStatus := status;
      patterns := [];
    }

    predicate Valid()
      reads this, tables
    {
      tables.Valid() && forall q :: q in patterns ==> q.tables == tables
    }

    function Rules(): seq<Rule>
      reads this
    {
      RulesOf(patterns)
    }

    /** `clear_delta_urls`; deleting the rows also empties every pattern's delta membership. */
    method ClearDeltaUrls()
      requires Valid()
      modifies tables`delta, tables`resolved, tables`errors, patterns
      ensures Valid()
      ensures tables.Snapshot() == old(tables.Snapshot()).(delta := map[], resolved := map[], errors := map[])
      ensures forall q :: q in patterns ==> q.deltaUrls == {} && q.curatedUrls == old(q.curatedUrls)
    {
      tables.delta, tables.resolved, tables.errors := map[], map[], map[];
      for i := 0 to |patterns|
        invariant forall j :: 0 <= j < i ==> patterns[j].deltaUrls == {}
        invariant forall q :: q in patterns ==> q.curatedUrls == old(q.curatedUrls)
        modifies patterns
      {
        patterns[i].deltaUrls := {};
      }
    }

    /** `clear_dump_urls`. */
    method ClearDumpUrls()
      modifies tables`dump
      ensures tables.Snapshot() == old(tables.Snapshot()).(dump := map[])
    {
      tables.dump := map[];
    }

    /** `create_or_update_delta_url`: the delta of the url becomes a copy of the record, with the deletion mark given. */
    method CreateOrUpdateDeltaUrl(url: string, rec: UrlRecord, toDelete: bool)
      requires tables.Valid()
      modifies tables`delta
      ensures tables.Valid()
      ensures tables.delta == old(tables.delta)[url := DeltaRecord(rec, toDelete)]
    {
      tables.delta := tables.delta[url := DeltaRecord(rec, toDelete)];
    }

    /** Step 3 of `migrate_dump_to_delta`: a delta for every dump url that is new or changed. */
    method MigrateDumpUrls(dump: map<string, UrlRecord>, curated: map<string, UrlRecord>)
      requires tables.Valid() && tables.delta == map[]
      modifies tables`delta
      ensures tables.Valid() && tables.delta == MigratedFrom(dump, curated, dump.Keys)
    {
      MigratedFromEmpty(dump, curated);
      var todo := dump.Keys;
      ghost var done: set<string> := {};
      while todo != {}
        invariant done + todo == dump.Keys && done !! todo
        invariant tables.Valid() && tables.delta == MigratedFrom(dump, curated, done)
        decreases |todo|
      {
        var u :| u in todo;
        MigratedFromStep(dump, curated, done, u);
        if u in curated {
          if DiffersOn(curated[u], dump[u], DeltaComparisonFields) {
            CreateOrUpdateDeltaUrl(u, dump[u], false);
          }
        } else {
          CreateOrUpdateDeltaUrl(u, dump[u], false);
        }
        MoveOne(done, todo, u);
        done, todo := done + {u}, todo - {u};
      }
      assert done == dump.Keys;
    }

    /** Step 4 of `migrate_dump_to_delta`: a deleting delta for every curated url missing from the dump. */
    method MarkMissingUrls(dump: map<string, UrlRecord>, curated: map<string, UrlRecord>)
      requires tables.Valid() && tables.delta == MigratedFrom(dump, curated, dump.Keys)
      modifies tables`delta
      ensures tables.Valid() && tables.delta == MigratedDeltas(dump, curated)
    {
      var todo := curated.Keys;
      ghost var seen := dump.Keys;
      while todo != {}
        invariant todo <= curated.Keys && seen + todo == dump.Keys + curated.Keys && dump.Keys <= seen
        invariant forall v :: v in seen ==> v in dump || v !in todo
        invariant tables.Valid() && tables.delta == MigratedFrom(dump, curated, seen)
        decreases |todo|
      {
        var u :| u in todo;
        MigratedFromStep(dump, curated, seen, u);
        if u !in dump {
          CreateOrUpdateDeltaUrl(u, curated[u], true);
        }
        MoveOneInto(seen, todo, u);
        seen, todo := seen + {u}, todo - {u};
      }
    }

    /** Steps 1 to 5 of `migrate_dump_to_delta`: the diff of the dump against the curated urls. */
    method MigrateUrls()
      requires Valid()
      modifies tables`dump, tables`delta, tables`resolved, tables`errors, patterns
      ensures Valid()
      ensures tables.Snapshot() == MigratedRows(old(tables.Snapshot()))
    {
      ClearDeltaUrls();
      var dump, curated := tables.dump, tables.curated;
      MigrateDumpUrls(dump, curated);
      MarkMissingUrls(dump, curated);
      ClearDumpUrls();
    }

    /** The pattern rows of one model, in their order, each `apply`ed; false as soon as one raises. */
    method ApplyPatternsOfKind(k: PatternKind, resolve: TitleResolver) returns (ok: bool)
      requires Valid()
      modifies tables`delta, tables`resolved, tables`errors, patterns
      ensures Valid()
      ensures ok == ApplyRules(old(tables.Snapshot()), OfKind(Rules(), k), tables.collectionName, resolve).Some?
      ensures ok ==> tables.Snapshot() == ApplyRules(old(tables.Snapshot()), OfKind(Rules(), k), tables.collectionName, resolve).value
    {
      ghost var start := tables.Snapshot();
      ok := true;
      for i := 0 to |patterns|
        invariant Valid()
        invariant ApplyRules(start, OfKind(RulesOf(patterns[..i]), k), tables.collectionName, resolve) == Some(tables.Snapshot())
      {
        var q := patterns[i];
        PatternPassStep(start, patterns, i, k, tables.collectionName, resolve, tables.Snapshot());
        if KindOf(q.effect) == k {
          ok := q.Apply(resolve);
          if !ok {
            RaisedPatternStops(start, patterns, i, k, tables.collectionName, resolve);
            return;
          }
        }
      }
      assert patterns[..|patterns|] == patterns;
    }

    /** `apply_all_patterns`: the exclude, include, title, document-type and division patterns, in that order. */
    method ApplyAllPatterns(resolve: TitleResolver) returns (ok: bool)
      requires Valid()
      modifies tables`delta, tables`resolved, tables`errors, patterns
      ensures Valid()
      ensures ok == ApplyAll(old(tables.Snapshot()), Rules(), tables.collectionName, resolve).Some?
      ensures ok ==> tables.Snapshot() == ApplyAll(old(tables.Snapshot()), Rules(), tables.collectionName, resolve).value
    {
      ghost var start := tables.Snapshot();
      ghost var rules := Rules();
      ok := true;
      for i := 0 to |KindOrder|
        invariant Valid()
        invariant ApplyRules(start, Grouped(rules, KindOrder[..i]), tables.collectionName, resolve) == Some(tables.Snapshot())
      {
        KindPassStep(start, rules, KindOrder, i, tables.collectionName, resolve, tables.Snapshot());
        ok := ApplyPatternsOfKind(KindOrder[i], resolve);
        if !ok {
          RaisedKindStops(start, rules, i, tables.collectionName, resolve);
          return;
        }
      }
      assert KindOrder[..|KindOrder|] == KindOrder;
    }

    /** `migrate_dump_to_delta`: the diff, then every pattern applied; false when a pattern raised. */
    method MigrateDumpToDelta(resolve: TitleResolver) returns (ok: bool)
      requires Valid()
      modifies tables`dump, tables`delta, tables`resolved, tables`errors, patterns
      ensures Valid() && tables.dump == map[] && tables.curated == old(tables.curated)
      ensures ok == ApplyAll(MigratedRows(old(tables.Snapshot())), Rules(), tables.collectionName, resolve).Some?
      ensures ok ==> tables.Snapshot() == ApplyAll(MigratedRows(old(tables.Snapshot())), Rules(), tables.collectionName, resolve).value
    {
      MigrateUrls();
      ok := ApplyAllPatterns(resolve);
    }

    /** Step 2 of `promote_to_curated` for one delta. */
    method PromoteDelta(url: string, d: DeltaRecord)
      modifies tables`curated
      ensures tables.curated == Put(old(tables.curated), url, PromotedRecord(d, Lookup(old(tables.curated), url)))
    {
      if d.toDelete {
        tables.curated := tables.curated - {url};
        return;
      }
      // an existing record is updated field by field; a new one starts from the defaults
      var base := if url in tables.curated then tables.curated[url] else BlankRecord;
      var rec := base;
      for i := 0 to |AllFields|
        invariant forall g :: Get(rec, g)
                           == if g in AllFields[..i] && !IsBlank(Get(d.rec, g)) then Get(d.rec, g) else Get(base, g)
      {
        var f := AllFields[i];
        var v := Get(d.rec, f);
        if !IsBlank(v) && Get(rec, f) != v {
          rec := Set(rec, f, v);
        }
        assert AllFields[..i + 1] == AllFields[..i] + [f];
      }
      assert AllFields[..|AllFields|] == AllFields;
      forall g ensures Get(rec, g) == Get(FillBlanks(d.rec, base, AllFields), g) {
        AllFieldsListed(g);
        FillBlanksAt(d.rec, base, AllFields, g);
      }
      SameFieldsSameRecord(rec, FillBlanks(d.rec, base, AllFields));
      tables.curated := tables.curated[url := rec];
    }

    /** `refresh_url_lists_for_all_patterns` as written: it calls methods no pattern model has. */
    method RefreshUrlListsForAllPatternsAsWritten() returns (raised: Option<PyError>)
      ensures raised == if patterns == [] then None else Some(AttributeError)
    {
      raised := None;
      if patterns != [] {
        raised := Some(AttributeError);
      }
    }

    /** `refresh_url_lists_for_all_patterns` as intended: every pattern's `refresh_url_lists`. */
    method RefreshUrlListsForAllPatterns()
      requires Valid()
      modifies patterns
      ensures forall q :: q in patterns ==> q.MembershipFresh()
    {
      for i := 0 to |patterns|
        invariant forall j :: 0 <= j < i ==> patterns[j].MembershipFresh()
      {
        patterns[i].RefreshUrlLists();
      }
    }

    /** Step 2 of `promote_to_curated`: every delta merged into the curated rows. */
    method PromoteDeltas()
      modifies tables`curated
      ensures tables.curated == PromotedCurated(tables.delta, old(tables.curated))
    {
      var delta, curated := tables.delta, tables.curated;
      PromotedUrlsEmpty(delta, curated);
      var todo := delta.Keys;
      ghost var done: set<string> := {};
      while todo != {}
        invariant done + todo == delta.Keys && done !! todo
        invariant tables.curated == PromotedUrls(delta, curated, done)
        decreases |todo|
      {
        var u :| u in todo;
        PromotedUrlsStep(delta, curated, done, u);
        PromoteDelta(u, delta[u]);
        MoveOne(done, todo, u);
        done, todo := done + {u}, todo - {u};
      }
      assert done == delta.Keys;
    }

    /** `promote_to_curated`, followed by the intended membership refresh. */
    method PromoteToCurated()
      requires Valid()
      modifies tables`curated, tables`delta, tables`resolved, tables`errors, patterns
      ensures Valid()
      ensures tables.Snapshot() == old(tables.Snapshot()).(
        curated := PromotedCurated(old(tables.delta), old(tables.curated)), delta := map[], resolved := map[], errors := map[])
      ensures forall q :: q in patterns ==> q.MembershipFresh()
    {
      PromoteDeltas();
      ClearDeltaUrls();
      RefreshUrlListsForAllPatterns();
    }

    /** Saving the collection with a new workflow status, and the effect the save triggers. */
    method SaveWorkflowStatus(status: WorkflowStatus) returns (effect: StatusEffect)
      requires Valid()
      modifies this`workflowStatus, tables`curated, tables`delta, tables`resolved, tables`errors, patterns
      ensures Valid() && workflowStatus == status
      ensures effect == StatusChangeEffect(old(workflowStatus) != status, status)
      ensures effect == PromoteCollection ==> tables.Snapshot() == old(tables.Snapshot()).(
        curated := PromotedCurated(old(tables.delta), old(tables.curated)), delta := map[], resolved := map[], errors := map[])
      ensures effect != PromoteCollection ==> tables.Snapshot() == old(tables.Snapshot())
    {
      var changed := workflowStatus != status;
      workflowStatus := status;
      effect := StatusChangeEffect(changed, status);
      if effect == PromoteCollection {
        PromoteToCurated();
      }
    }

    /** A pattern row of the same model with the same match pattern, which `unique_together` forbids. */
    predicate HasDuplicate(q: MatchPattern)
      reads this
    {
      exists p :: p in patterns && KindOf(p.effect) == KindOf(q.effect) && p.matchPattern == q.matchPattern
    }

    /** A pattern's `save` for a new row: the row is stored, then `apply`ed; false when either raised. */
    method SavePattern(q: MatchPattern, resolve: TitleResolver) returns (ok: bool)
      requires Valid() && q.tables == tables && q !in patterns
      modifies this`patterns, q`deltaUrls, q`curatedUrls, tables`delta, tables`resolved, tables`errors
      ensures Valid()
      ensures old(HasDuplicate(q)) ==> !ok && patterns == old(patterns) && tables.Snapshot() == old(tables.Snapshot())
      ensures !old(HasDuplicate(q)) ==> patterns == old(patterns) + [q]
      ensures !old(HasDuplicate(q)) ==> ok == ApplySpec(old(tables.Snapshot()), q.CurrentRule(), tables.collectionName, resolve).Some?
      ensures !old(HasDuplicate(q)) && ok ==>
        tables.Snapshot() == ApplySpec(old(tables.Snapshot()), q.CurrentRule(), tables.collectionName, resolve).value
      ensures !old(HasDuplicate(q)) && ok ==> q.MembershipFresh()
    {
      if HasDuplicate(q) {
        return false;
      }
      patterns := patterns + [q];
      ok := q.Apply(resolve);
    }

    /**
     * A pattern's `delete`: `unapply`, then the row is removed; a title pattern's
     * resolved-title and title-error rows cascade with it.
     */
    method DeletePattern(i: nat)
      requires Valid() && i < |patterns|
      modifies this`patterns, patterns, tables`delta, tables`resolved, tables`errors
      ensures Valid() && patterns == old(patterns[..i] + patterns[i + 1..])
      ensures tables.Snapshot() == DeleteRows(old(tables.Snapshot()), old(patterns[i]).CurrentRule(), old(patterns[i].deltaUrls))
    {
      var q := patterns[i];
      q.Unapply();
      if q.effect.SetTitle? {
        tables.resolved := ResolvedNotBy(tables.resolved, q.matchPattern);
        tables.errors := ErrorsNotBy(tables.errors, q.matchPattern);
      }
      patterns := patterns[..i] + patterns[i + 1..];
    }
  }

  lemma RulesOfAppend(a: seq<MatchPattern>, b: seq<MatchPattern>)
    ensures RulesOf(a + b) == RulesOf(a) + RulesOf(b)
  {
  }

  /** The pass over one kind, one pattern further: that pattern's `apply` when it is of the kind, nothing otherwise. */
  lemma PatternPassStep(start: Rows, ps: seq<MatchPattern>, i: nat, k: PatternKind, collection: string, resolve: TitleResolver, rows: Rows)
    requires i < |ps| && ApplyRules(start, OfKind(RulesOf(ps[..i]), k), collection, resolve) == Some(rows)
    ensures ApplyRules(start, OfKind(RulesOf(ps[..i + 1]), k), collection, resolve)
         == if KindOf(ps[i].effect) == k then ApplySpec(rows, ps[i].CurrentRule(), collection, resolve) else Some(rows)
  {
    OfKindStep(ps, i, k);
    if KindOf(ps[i].effect) == k {
      ApplyRulesLast(start, OfKind(RulesOf(ps[..i]), k), ps[i].CurrentRule(), collection, resolve);
    }
  }

  /** Once a pattern raised, the rest of its model's patterns cannot bring the pass back. */
  lemma RaisedPatternStops(rows: Rows, ps: seq<MatchPattern>, i: nat, k: PatternKind, collection: string, resolve: TitleResolver)
    requires i < |ps| && ApplyRules(rows, OfKind(RulesOf(ps[..i + 1]), k), collection, resolve).None?
    ensures ApplyRules(rows, OfKind(RulesOf(ps), k), collection, resolve).None?
  {
    assert ps == ps[..i + 1] + ps[i + 1..];
    RulesOfAppend(ps[..i + 1], ps[i + 1..]);
    OfKindAppend(RulesOf(ps[..i + 1]), RulesOf(ps[i + 1..]), k);
    ApplyRulesAppend(rows, OfKind(RulesOf(ps[..i + 1]), k), OfKind(RulesOf(ps[i + 1..]), k), collection, resolve);
  }

  /** The pass over one more kind continues from the rows the earlier kinds left. */
  lemma KindPassStep(start: Rows, rules: seq<Rule>, kinds: seq<PatternKind>, i: nat, collection: string, resolve: TitleResolver, rows: Rows)
    requires i < |kinds| && ApplyRules(start, Grouped(rules, kinds[..i]), collection, resolve) == Some(rows)
    ensures ApplyRules(start, Grouped(rules, kinds[..i + 1]), collection, resolve)
         == ApplyRules(rows, OfKind(rules, kinds[i]), collection, resolve)
  {
    var before, k := kinds[..i], kinds[i];
    assert kinds[..i + 1][..i] == before && kinds[..i + 1][i] == k;
    assert Grouped(rules, kinds[..i + 1]) == Grouped(rules, before) + OfKind(rules, k);
    ApplyRulesAppend(start, Grouped(rules, before), OfKind(rules, k), collection, resolve);
  }

  /** Once a pattern of one kind raised, the later kinds cannot bring the pass back. */
  lemma RaisedKindStops(start: Rows, rules: seq<Rule>, i: nat, collection: string, resolve: TitleResolver)
    requires i < |KindOrder| && ApplyRules(start, Grouped(rules, KindOrder[..i + 1]), collection, resolve).None?
    ensures ApplyAll(start, rules, collection, resolve).None?
  {
    assert KindOrder == KindOrder[..i + 1] + KindOrder[i + 1..];
    GroupedAppend(rules, KindOrder[..i + 1], KindOrder[i + 1..]);
    ApplyRulesAppend(start, Grouped(rules, KindOrder[..i + 1]), Grouped(rules, KindOrder[i + 1..]), collection, resolve);
  }

  lemma OfKindStep(ps: seq<MatchPattern>, i: nat, k: PatternKind)
    requires i < |ps|
    ensures KindOf(ps[i].effect) == k ==> OfKind(RulesOf(ps[..i + 1]), k) == OfKind(RulesOf(ps[..i]), k) + [ps[i].CurrentRule()]
    ensures KindOf(ps[i].effect) != k ==> OfKind(RulesOf(ps[..i + 1]), k) == OfKind(RulesOf(ps[..i]), k)
  {
    var r := RulesOf(ps[..i + 1]);
    assert r[..i] == RulesOf(ps[..i]);
  }

  lemma ApplyRulesLast(rows: Rows, a: seq<Rule>, x: Rule, collection: string, resolve: TitleResolver)
    ensures ApplyRules(rows, a + [x], collection, resolve) == ThenApply(ApplyRules(rows, a, collection, resolve), [x], collection, resolve)
    ensures forall r :: ApplyRules(r, [x], collection, resolve) == ApplySpec(r, x, collection, resolve)
  {
    assert (a + [x])[..|a|] == a;
    forall r ensures ApplyRules(r, [x], collection, resolve) == ApplySpec(r, x, collection, resolve) {
      assert [x][..0] == [];
    }
  }
}
