/**
 * The background tasks' url rules: the older dump-against-curated diff, the
 * collection of import rows from the search server's paged answers, and the
 * replacement of a collection's dump by freshly fetched documents.
 *
 * The search server is not modelled: its answers are parameters, one per page
 * requested, in the order the pages are requested.
 */
module Tasks {
  import opened Wrappers
  import opened DeltaUrls
  import opened DeltaPatterns
  import opened Collections

  // ------------------------------------------------------------ legacy diff

  /** The four fields the older diff compares and copies. */
  const LegacyComparisonFields: seq<Field> := [ScrapedTitle, GeneratedTitle, DocumentType, Division]

  /** A delta built from the four copied fields; every other field keeps its default. */
  function LegacyCopy(r: UrlRecord): (c: UrlRecord)
    ensures forall f :: f in LegacyComparisonFields ==> Get(c, f) == Get(r, f)
    ensures !c.visited
  {
    UrlRecord(r.scrapedTitle, r.generatedTitle, false, r.documentType, r.division)
  }

  /** The delta the older diff creates for a url, if any. */
  function LegacyDelta(dump: map<string, UrlRecord>, curated: map<string, UrlRecord>, u: string): Option<DeltaRecord>
  {
    if u in dump then
      if u !in curated || DiffersOn(curated[u], dump[u], LegacyComparisonFields) then Some(DeltaRecord(LegacyCopy(dump[u]), false))
      else None
    else if u in curated then Some(DeltaRecord(LegacyCopy(curated[u]), true))
    else None
  }

  /** The deltas the older diff creates for the urls in `us`. */
  function LegacyFrom(dump: map<string, UrlRecord>, curated: map<string, UrlRecord>, us: set<string>): map<string, DeltaRecord>
  {
    map u | u in us && LegacyDelta(dump, curated, u).Some? :: LegacyDelta(dump, curated, u).value
  }

  /** All deltas `_compare_and_populate_delta_urls` creates. */
  function LegacyDeltas(dump: map<string, UrlRecord>, curated: map<string, UrlRecord>): map<string, DeltaRecord>
  {
    LegacyFrom(dump, curated, dump.Keys + curated.Keys)
  }

  lemma LegacyFromEmpty(dump: map<string, UrlRecord>, curated: map<string, UrlRecord>)
    ensures LegacyFrom(dump, curated, {}) == map[]
  {
    assert LegacyFrom(dump, curated, {}).Keys == {};
  }

  lemma LegacyFromStep(dump: map<string, UrlRecord>, curated: map<string, UrlRecord>, us: set<string>, u: string)
    ensures u !in us ==> u !in LegacyFrom(dump, curated, us)
    ensures LegacyFrom(dump, curated, us + {u})
         == if u in us then LegacyFrom(dump, curated, us)
            else Put(LegacyFrom(dump, curated, us), u, LegacyDelta(dump, curated, u))
  {
    if u in us {
      assert us + {u} == us;
    } else {
      var a := LegacyFrom(dump, curated, us + {u});
      var b := Put(LegacyFrom(dump, curated, us), u, LegacyDelta(dump, curated, u));
      assert a.Keys == b.Keys;
    }
  }

  /**
   * A dump url yields a non-deleting delta exactly when it has no curated
   * counterpart or differs from it on one of the four fields; the delta carries
   * the dump url's four fields.
   */
  lemma LegacyDumpUrl(dump: map<string, UrlRecord>, curated: map<string, UrlRecord>, u: string)
    requires u in dump
    ensures var d := LegacyDeltas(dump, curated);
      && (u in d <==> u !in curated
                      || curated[u].scrapedTitle != dump[u].scrapedTitle
                      || curated[u].generatedTitle != dump[u].generatedTitle
                      || curated[u].documentType != dump[u].documentType
                      || curated[u].division != dump[u].division)
      && (u in d ==> !d[u].toDelete && d[u].rec == LegacyCopy(dump[u]))
  {
    if u in curated {
      var c, r := curated[u], dump[u];
      assert Get(c, ScrapedTitle) != Get(r, ScrapedTitle) <==> c.scrapedTitle != r.scrapedTitle;
      assert Get(c, GeneratedTitle) != Get(r, GeneratedTitle) <==> c.generatedTitle != r.generatedTitle;
      assert Get(c, DocumentType) != Get(r, DocumentType) <==> c.documentType != r.documentType;
      assert Get(c, Division) != Get(r, Division) <==> c.division != r.division;
      assert LegacyComparisonFields == [ScrapedTitle, GeneratedTitle, DocumentType, Division];
      if DiffersOn(c, r, LegacyComparisonFields) {
        var f :| f in LegacyComparisonFields && Get(c, f) != Get(r, f);
      }
    }
  }

  /** A curated url missing from the dump yields a deleting delta that carries its four fields. */
  lemma LegacyMissingUrl(dump: map<string, UrlRecord>, curated: map<string, UrlRecord>, u: string)
    requires u in curated && u !in dump
    ensures var d := LegacyDeltas(dump, curated);
      u in d && d[u] == DeltaRecord(LegacyCopy(curated[u]), true)
  {
  }

  /** Every delta of the older diff comes from the dump or the curated urls. */
  lemma LegacyDeltaSources(dump: map<string, UrlRecord>, curated: map<string, UrlRecord>)
    ensures LegacyDeltas(dump, curated).Keys <= dump.Keys + curated.Keys
  {
  }

  /**
   * The older diff compares more fields than `migrate_dump_to_delta`: every url the
   * migration marks gets a delta from the older diff too, with the same deletion flag.
   */
  lemma {:induction false} LegacyCoversMigrated(dump: map<string, UrlRecord>, curated: map<string, UrlRecord>)
    ensures forall u :: u in MigratedDeltas(dump, curated) ==>
      u in LegacyDeltas(dump, curated) && LegacyDeltas(dump, curated)[u].toDelete == MigratedDeltas(dump, curated)[u].toDelete
  {
    forall u | u in MigratedDeltas(dump, curated)
      ensures u in LegacyDeltas(dump, curated) && LegacyDeltas(dump, curated)[u].toDelete == MigratedDeltas(dump, curated)[u].toDelete
    {
      if u in dump {
        MigratedDumpUrl(dump, curated, u);
        LegacyDumpUrl(dump, curated, u);
      } else {
        MigratedMissingUrl(dump, curated, u);
        LegacyMissingUrl(dump, curated, u);
      }
    }
  }

  /** `DeltaUrl.objects.create`: a new delta row, for a url that has none. */
  method CreateDeltaUrl(t: Tables, url: string, d: DeltaRecord)
    requires t.Valid() && url !in t.delta
    modifies t`delta
    ensures t.Valid() && t.delta == old(t.delta)[url := d]
  {
    t.delta := t.delta[url := d];
  }

  /** The first loop of the older diff: a delta for every dump url that is new or changed. */
  method LegacyDumpPass(t: Tables, dump: map<string, UrlRecord>, curated: map<string, UrlRecord>)
    requires t.Valid() && t.delta == map[]
    modifies t`delta
    ensures t.Valid() && t.delta == LegacyFrom(dump, curated, dump.Keys)
  {
    LegacyFromEmpty(dump, curated);
    var todo := dump.Keys;
    ghost var done: set<string> := {};
    while todo != {}
      invariant done + todo == dump.Keys && done !! todo
      invariant t.Valid() && t.delta == LegacyFrom(dump, curated, done)
      decreases |todo|
    {
      var u :| u in todo;
      LegacyFromStep(dump, curated, done, u);
      if u !in curated || DiffersOn(curated[u], dump[u], LegacyComparisonFields) {
        CreateDeltaUrl(t, u, DeltaRecord(LegacyCopy(dump[u]), false));
      }
      MoveOne(done, todo, u);
      done, todo := done + {u}, todo - {u};
    }
  }

  /** The second loop of the older diff: a deleting delta for every curated url missing from the dump. */
  method LegacyMissingPass(t: Tables, dump: map<string, UrlRecord>, curated: map<string, UrlRecord>)
    requires t.Valid() && t.delta == LegacyFrom(dump, curated, dump.Keys)
    modifies t`delta
    ensures t.Valid() && t.delta == LegacyDeltas(dump, curated)
  {
    var todo := curated.Keys;
    ghost var seen := dump.Keys;
    while todo != {}
      invariant todo <= curated.Keys && seen + todo == dump.Keys + curated.Keys && dump.Keys <= seen
      invariant forall v :: v in seen ==> v in dump || v !in todo
      invariant t.Valid() && t.delta == LegacyFrom(dump, curated, seen)
      decreases |todo|
    {
      var u :| u in todo;
      LegacyFromStep(dump, curated, seen, u);
      if u !in dump {
        CreateDeltaUrl(t, u, DeltaRecord(LegacyCopy(curated[u]), true));
      }
      MoveOneInto(seen, todo, u);
      seen, todo := seen + {u}, todo - {u};
    }
  }

  /**
   * `_compare_and_populate_delta_urls`: every delta of the collection is deleted
   * (with the titles resolved for them and their pattern memberships), then the
   * older diff creates the new ones.
   */
  method CompareAndPopulateDeltaUrls(c: Collection)
    requires c.Valid()
    modifies c.tables`delta, c.tables`resolved, c.tables`errors, c.patterns
    ensures c.Valid()
    ensures c.tables.Snapshot() == old(c.tables.Snapshot()).(
      delta := LegacyDeltas(old(c.tables.dump), old(c.tables.curated)), resolved := map[], errors := map[])
    ensures forall q :: q in c.patterns ==> q.deltaUrls == {} && q.curatedUrls == old(q.curatedUrls)
  {
    var dump, curated := c.tables.dump, c.tables.curated;
    c.ClearDeltaUrls();
    LegacyDumpPass(c.tables, dump, curated);
    LegacyMissingPass(c.tables, dump, curated);
  }

  // ------------------------------------------------------------------ import

  /** One record of a search-server answer; a missing key is None. */
  datatype ApiRecord = ApiRecord(collection: Option<seq<string>>, downloadUrl: Option<string>, title: Option<string>)

  /** One page of answer: its row count and its records, if the key is present. */
  datatype ApiResponse = ApiResponse(cursorRowCount: int, records: Option<seq<ApiRecord>>)

  /** One row of the fixture built for import: the url and its scraped title. */
  datatype ImportRow = ImportRow(url: string, scrapedTitle: string)

  /** The api collections skipped on import, which have no urls. */
  const IgnoredCollections: seq<string> := [
    "/SMD/ASTRO_NAVO_HEASARC/",
    "/SMD/CASEI_Campaign/",
    "/SMD/CASEI_Deployment/",
    "/SMD/CASEI_Instrument/",
    "/SMD/CASEI_Platform/",
    "/SMD/CMR_API/",
    "/SMD/PDS_API_Legacy_All/"
  ]

  /**
   * What one record contributes: nothing when its first collection is ignored or
   * it has no download url, its row otherwise. A record without a collection list
   * raises TypeError (indexing None); an empty list raises IndexError.
   */
  function RecordRow(r: ApiRecord): Result<Option<ImportRow>, PyError>
  {
    if r.collection.None? then Err(TypeError)
    else if r.collection.value == [] then Err(IndexError)
    else if r.collection.value[0] in IgnoredCollections then Ok(None)
    else if r.downloadUrl.None? || r.downloadUrl.value == "" then Ok(None)
    else Ok(Some(ImportRow(r.downloadUrl.value, if r.title.Some? then r.title.value else "")))
  }

  /** A record is kept when it is well formed, not ignored, and has a download url. */
  predicate Kept(r: ApiRecord)
  {
    RecordRow(r).Ok? && RecordRow(r).value.Some?
  }

  /** The rows of one page's records, in order; the first error raised, if any. */
  function PageRows(recs: seq<ApiRecord>): Result<seq<ImportRow>, PyError>
  {
    if recs == [] then Ok([])
    else match PageRows(recs[..|recs| - 1])
      case Err(e) => Err(e)
      case Ok(rows) =>
        match RecordRow(recs[|recs| - 1])
        case Err(e) => Err(e)
        case Ok(row) => Ok(rows + if row.Some? then [row.value] else [])
  }

  /** `response.get("records", [])`. */
  function RecordsOf(p: ApiResponse): seq<ApiRecord>
  {
    if p.records.Some? then p.records.value else []
  }

  /** The rows of several pages, one page after the other. */
  function PagesRows(pages: seq<ApiResponse>): Result<seq<ImportRow>, PyError>
  {
    if pages == [] then Ok([])
    else match PagesRows(pages[..|pages| - 1])
      case Err(e) => Err(e)
      case Ok(rows) =>
        match PageRows(RecordsOf(pages[|pages| - 1]))
        case Err(e) => Err(e)
        case Ok(more) => Ok(rows + more)
  }

  predicate HasEmptyPage(pages: seq<ApiResponse>)
  {
    exists k :: 0 <= k < |pages| && pages[k].cursorRowCount == 0
  }

  /** The first page whose row count is 0: where the paging stops. */
  function FirstEmptyPage(pages: seq<ApiResponse>): (k: nat)
    requires HasEmptyPage(pages)
    ensures k < |pages| && pages[k].cursorRowCount == 0
    ensures forall j :: 0 <= j < k ==> pages[j].cursorRowCount != 0
  {
    if pages[0].cursorRowCount == 0 then 0
    else
      assert HasEmptyPage(pages[1..]) by {
        var k :| 0 <= k < |pages| && pages[k].cursorRowCount == 0;
        assert pages[1..][k - 1] == pages[k];
      }
      1 + FirstEmptyPage(pages[1..])
  }

  /** A page's rows are exactly the rows of its kept records, when none raises. */
  lemma {:induction false} PageRowsMeaning(recs: seq<ApiRecord>)
    ensures PageRows(recs).Ok? <==> forall i :: 0 <= i < |recs| ==> RecordRow(recs[i]).Ok?
    ensures PageRows(recs).Ok? ==>
      forall row :: row in PageRows(recs).value <==> exists i :: 0 <= i < |recs| && Kept(recs[i]) && RecordRow(recs[i]).value.value == row
    ensures PageRows(recs).Ok? ==> |PageRows(recs).value| <= |recs|
  {
    if recs != [] {
      var init, last := recs[..|recs| - 1], recs[|recs| - 1];
      PageRowsMeaning(init);
      assert forall i :: 0 <= i < |init| ==> init[i] == recs[i];
      if PageRows(recs).Ok? {
        var rows := PageRows(init).value;
        forall row ensures row in PageRows(recs).value <==> exists i :: 0 <= i < |recs| && Kept(recs[i]) && RecordRow(recs[i]).value.value == row {
          if exists i :: 0 <= i < |recs| && Kept(recs[i]) && RecordRow(recs[i]).value.value == row {
            var i :| 0 <= i < |recs| && Kept(recs[i]) && RecordRow(recs[i]).value.value == row;
            if i < |init| {
              assert Kept(init[i]) && RecordRow(init[i]).value.value == row;
            }
          }
          if row in rows {
            var i :| 0 <= i < |init| && Kept(init[i]) && RecordRow(init[i]).value.value == row;
            assert Kept(recs[i]) && RecordRow(recs[i]).value.value == row;
          }
        }
      }
    }
  }

  /** A record that raises makes its whole page raise the same error. */
  lemma {:induction false} PageRowsRaises(recs: seq<ApiRecord>, j: nat, e: PyError)
    requires j < |recs| && PageRows(recs[..j + 1]) == Err(e)
    ensures PageRows(recs) == Err(e)
    decreases |recs| - j
  {
    if j + 1 < |recs| {
      assert recs[..j + 2][..j + 1] == recs[..j + 1];
      PageRowsRaises(recs, j + 1, e);
    } else {
      assert recs[..j + 1] == recs;
    }
  }

  /** A page that raises makes every longer run of pages raise the same error. */
  lemma {:induction false} PagesRowsRaises(pages: seq<ApiResponse>, n: nat, e: PyError)
    requires n <= |pages| && PagesRows(pages[..n]) == Err(e)
    ensures PagesRows(pages) == Err(e)
    decreases |pages| - n
  {
    if n < |pages| {
      assert pages[..n + 1][..n] == pages[..n];
      PagesRowsRaises(pages, n + 1, e);
    } else {
      assert pages[..n] == pages;
    }
  }

  /** Reading one more record of the current page. */
  lemma PageRowsStep(recs: seq<ApiRecord>, j: nat, rows: seq<ImportRow>)
    requires j < |recs| && PageRows(recs[..j]) == Ok(rows)
    ensures RecordRow(recs[j]).Err? ==> PageRows(recs[..j + 1]) == Err(RecordRow(recs[j]).error)
    ensures RecordRow(recs[j]).Ok? ==>
      PageRows(recs[..j + 1]) == Ok(rows + if RecordRow(recs[j]).value.Some? then [RecordRow(recs[j]).value.value] else [])
  {
    assert recs[..j + 1][..j] == recs[..j];
  }

  /** Finishing one more page. */
  lemma PagesRowsStep(pages: seq<ApiResponse>, n: nat, data: seq<ImportRow>)
    requires n < |pages| && PagesRows(pages[..n]) == Ok(data)
    ensures PageRows(RecordsOf(pages[n])).Ok? ==> PagesRows(pages[..n + 1]) == Ok(data + PageRows(RecordsOf(pages[n])).value)
    ensures PageRows(RecordsOf(pages[n])).Err? ==> PagesRows(pages[..n + 1]) == PageRows(RecordsOf(pages[n]))
  {
    assert pages[..n + 1][..n] == pages[..n];
  }

  /**
   * `_get_data_to_import`: pages 1, 2, 3, ... are requested (`pages[p - 1]` is the
   * answer to page p) until one reports a row count of 0; the rows of the pages
   * before it are collected in order. The server must eventually answer with an
   * empty page, or the source's loop never ends.
   */
  method GetDataToImport(pages: seq<ApiResponse>) returns (r: Result<seq<ImportRow>, PyError>)
    requires HasEmptyPage(pages)
    ensures r == PagesRows(pages[..FirstEmptyPage(pages)])
  {
    ghost var last := FirstEmptyPage(pages);
    var data: seq<ImportRow> := [];
    var page := 1;
    while true
      invariant 1 <= page <= last + 1
      invariant PagesRows(pages[..page - 1]) == Ok(data)
      decreases last + 1 - page
    {
      var response := pages[page - 1];
      if response.cursorRowCount == 0 {
        assert page - 1 == last;
        return Ok(data);
      }
      var recs := RecordsOf(response);
      var rows: seq<ImportRow> := [];
      for j := 0 to |recs|
        invariant PageRows(recs[..j]) == Ok(rows)
      {
        PageRowsStep(recs, j, rows);
        var row := RecordRow(recs[j]);
        if row.Err? {
          PageRowsRaises(recs, j, row.error);
          assert recs[..|recs|] == recs;
          PagesRowsStep(pages, page - 1, data);
          assert pages[..last][..page] == pages[..page];
          PagesRowsRaises(pages[..last], page, row.error);
          return Err(row.error);
        }
        if row.value.Some? {
          rows := rows + [row.value.value];
        } else {
          assert rows + [] == rows;
        }
      }
      assert recs[..|recs|] == recs;
      PagesRowsStep(pages, page - 1, data);
      data := data + rows;
      page := page + 1;
    }
  }

  // ------------------------------------------------------------- full texts

  /** One fetched document: its url, and its title when the key is present. */
  datatype FullTextDoc = FullTextDoc(url: string, title: Option<string>)

  /** The dump row created for a fetched document. */
  function DumpRecordOf(d: FullTextDoc): (r: UrlRecord)
    ensures r.scrapedTitle == (if d.title.Some? then d.title.value else "")
    ensures r.(scrapedTitle := "") == BlankRecord
  {
    BlankRecord.(scrapedTitle := if d.title.Some? then d.title.value else "")
  }

  /** The dump rows created from the documents, in order; a repeated url is skipped. */
  function FirstOccurrences(docs: seq<FullTextDoc>): map<string, UrlRecord>
  {
    if docs == [] then map[]
    else
      var m := FirstOccurrences(docs[..|docs| - 1]);
      var d := docs[|docs| - 1];
      if d.url in m then m else m[d.url := DumpRecordOf(d)]
  }

  /** The dump holds a row for exactly the urls of the documents. */
  lemma {:induction false} FirstOccurrencesUrls(docs: seq<FullTextDoc>)
    ensures forall u :: u in FirstOccurrences(docs) <==> exists i :: 0 <= i < |docs| && docs[i].url == u
  {
    if docs != [] {
      var init := docs[..|docs| - 1];
      FirstOccurrencesUrls(init);
      forall u ensures u in FirstOccurrences(docs) <==> exists i :: 0 <= i < |docs| && docs[i].url == u {
        if u in FirstOccurrences(init) {
          var i :| 0 <= i < |init| && init[i].url == u;
          assert docs[i].url == u;
        }
        if exists i :: 0 <= i < |docs| && docs[i].url == u {
          var i :| 0 <= i < |docs| && docs[i].url == u;
          if i < |init| {
            assert init[i].url == u;
          }
        }
      }
    }
  }

  /** A url's row is built from the first document with that url. */
  lemma {:induction false} FirstOccurrenceWins(docs: seq<FullTextDoc>, i: nat)
    requires i < |docs| && forall j :: 0 <= j < i ==> docs[j].url != docs[i].url
    ensures docs[i].url in FirstOccurrences(docs) && FirstOccurrences(docs)[docs[i].url] == DumpRecordOf(docs[i])
  {
    var init := docs[..|docs| - 1];
    if i < |init| {
      assert forall j :: 0 <= j < i ==> init[j].url != init[i].url;
      FirstOccurrenceWins(init, i);
    } else {
      FirstOccurrencesUrls(init);
    }
  }

  /** Creating one dump row: IntegrityError when the url already has one. */
  method CreateDumpUrl(t: Tables, d: FullTextDoc) returns (r: Result<(), PyError>)
    modifies t`dump
    ensures r == if d.url in old(t.dump) then Err(IntegrityError) else Ok(())
    ensures t.dump == if d.url in old(t.dump) then old(t.dump) else old(t.dump)[d.url := DumpRecordOf(d)]
  {
    if d.url in t.dump {
      return Err(IntegrityError);
    }
    t.dump := t.dump[d.url := DumpRecordOf(d)];
    return Ok(());
  }

  /**
   * `fetch_and_replace_full_text` as written: the dump is emptied, then the
   * progress message reads `config_name`, which a collection does not have, so
   * the task raises AttributeError before any row is created. Whenever some
   * document was fetched, the dump it leaves is not the one the task describes.
   */
  method FetchAndReplaceFullTextAsWritten(t: Tables, docs: seq<FullTextDoc>) returns (r: Result<(nat, nat), PyError>)
    modifies t`dump
    ensures r == Err(AttributeError) && t.dump == map[]
    ensures docs != [] ==> t.dump != FirstOccurrences(docs)
  {
    t.dump := map[];
    FirstOccurrencesUrls(docs);
    if docs != [] {
      assert docs[0].url in FirstOccurrences(docs);
    }
    return Err(AttributeError);
  }

  /**
   * `fetch_and_replace_full_text` as its documentation describes it, with the
   * collection named by a field it has: the collection's dump is emptied, then a row is
   * created per document; a document whose url already has a row raises
   * IntegrityError and is skipped, so the first document of each url wins. The
   * result reports the number of documents fetched; `processed` counts the rows
   * created.
   */
  method FetchAndReplaceFullText(t: Tables, docs: seq<FullTextDoc>) returns (reported: nat, processed: nat)
    modifies t`dump
    ensures t.dump == FirstOccurrences(docs)
    ensures reported == |docs| && processed == |t.dump|
  {
    t.dump := map[];
    processed := 0;
    for i := 0 to |docs|
      invariant t.dump == FirstOccurrences(docs[..i]) && processed == |t.dump|
    {
      assert docs[..i + 1][..i] == docs[..i];
      var created := CreateDumpUrl(t, docs[i]);
      if created.Ok? {
        processed := processed + 1;
      }
    }
    assert docs[..|docs|] == docs;
    reported := |docs|;
  }
}
