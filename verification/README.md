# COSMOS url curation core, in Dafny

COSMOS curates the urls that the Science Discovery Engine indexes. Every collection
holds its urls in three tiers:

- the **dump**: the raw crawl fetched from the search server;
- the **delta**: pending edits, each possibly marked `to_delete`;
- the **curated** tier: what is published.

Curators attach **patterns** to a collection: exclude, include, title, document-type
and division rules. Each pattern matches urls by a match pattern, which is either an
individual url or a multi-url pattern with `*` wildcards. A pattern keeps two membership
sets, the delta urls and the curated urls it matched. This project models:

- `DeltaUrls` (`delta_url.dfy`): the url record and its fields, the tables of one
  collection, the `excluded` annotation, and the string helpers `fileext`, `path` and
  `splits`.
- `PatternRegex` (`pattern_regex.dfy`): the regular expression a match pattern
  compiles to, and what it matches.
- `DeltaPatterns` (`delta_patterns.dfy`): a pattern row as a class. It covers
  `matched_urls`, `refresh_url_lists`, `generate_delta_url`, `apply` and `unapply` for
  the five pattern models, the title pattern's resolution with its error log, and the
  `save` and `delete` hooks.
- `Collections` (`collection.dfy`): the collection as a class. It covers clearing the
  tiers, `migrate_dump_to_delta`, `create_or_update_delta_url`, `promote_to_curated`,
  `apply_all_patterns`, and the effect a workflow-status change triggers.
- `Tasks` (`tasks.dfy`): the older diff `_compare_and_populate_delta_urls`, the paging
  and filtering of `_get_data_to_import`, and the dump replacement of
  `fetch_and_replace_full_text`.
- `DeduplicateUrls`, `KeepFirst`, `DeduplicatePatterns` and `UrlDuplicates`: the three
  deduplication commands. `KeepFirst` is their shared rule: keep the first row of each
  group and delete the rest.
- `DbToXml` (`db_to_xml.dfy`): the `XmlEditor` that writes Sinequa configuration files.
  The tree is a sequence of elements (tag, text, children).
- `Serializers` and `Views`: the REST display fallbacks, the replace-on-create rule of
  the pattern serializers, the pattern toggles, the indexing-status machine and the
  GitHub issue-number parse.
- `CmrToModels`: the helpers of the CMR import script.
- `Wrappers` and `Workflow`: `Option`/`Result` and the workflow statuses.

The database is modelled one collection at a time. Each tier is a map from url to
record. Row order, where the source relies on it, is a sequence. Title resolution is an
outside service, so every operation that resolves titles takes a resolver as a
parameter: a function from a url's context to a title or an error message.

## Model

| member | source | states |
|---|---|---|
| DeltaUrls.Get | sde_collections/models/delta_url.py:43-47 | Reading a field gives a value of that field's kind: a string for the titles, a bool for `visited`, an optional int for document type and division |
| DeltaUrls.Set | sde_collections/models/delta_url.py:43-47 | Setting a field changes that field to the value and leaves every other field as it was |
| DeltaUrls.SameFieldsSameRecord | sde_collections/models/delta_url.py:43-47 | Two records that agree on every field are the same record |
| DeltaUrls.AllFieldsListed | sde_collections/models/delta_url.py:43-47 | Every content field is in the field list |
| DeltaUrls.Tables.constructor | sde_collections/models/delta_url.py:38-47 | A new collection starts with empty dump, delta and curated tiers and no resolved titles or title errors |
| DeltaUrls.WithExclusionStatus | sde_collections/models/delta_url.py:10-35 | The annotated rows are the rows themselves, each flagged excluded exactly when some exclude pattern lists its url |
| DeltaUrls.ExclusionIgnoresIncludes | sde_collections/models/delta_url.py:10-25 | There is a url listed by both an exclude and an include pattern that the annotation still flags as excluded |
| DeltaUrls.IncludeOverridesExclude | sde_collections/models/delta_url.py:10-25 | Against the annotation as written, the intended annotation keeps a row flagged exactly when no include list holds it; an included row is never flagged, and without include patterns the two annotations agree |
| DeltaUrls.LastIndexOf | sde_collections/models/delta_url.py:64 | The result is -1 when the character does not occur, and otherwise the position of its last occurrence |
| DeltaUrls.Extension | sde_collections/models/delta_url.py:64 | The extension `os.path.splitext` gives is empty or a dot followed by neither a dot nor a '/', and it is a suffix of the path |
| DeltaUrls.Fileext | sde_collections/models/delta_url.py:53-72 | An empty path or one ending in '/' gives "html"; the result never holds '/' or '.', and any result other than "html" is what follows the path's last dot |
| DeltaUrls.FileextOfFileName | sde_collections/models/delta_url.py:53-72 | A path ending in a file name whose stem holds a character other than '.' and whose extension is non-empty and free of '.' and '/' gives exactly that extension |
| DeltaUrls.UrlPathRoundTrip | sde_collections/models/delta_url.py:84-90 | The path property appends "?query" only for a non-empty query, so the path and the query can be split back out of it |
| DeltaUrls.SplitOn | sde_collections/models/delta_url.py:78 | Splitting on a separator gives pieces free of it that join back into the string |
| DeltaUrls.NonEmptyShape | sde_collections/models/delta_url.py:79 | Filtering the pieces keeps the non-empty ones, in order |
| DeltaUrls.SplitsOfAt | sde_collections/models/delta_url.py:74-82 | The i-th split is the cumulative "/a/b/..." path of the first i + 1 segments, paired with segment i |
| DeltaUrls.Splits | sde_collections/models/delta_url.py:74-82 | The loop returns the splits of the path's non-empty segments: one pair per segment, in order, the cumulative path up to it and the segment |
| DeltaUrls.SegmentsOfJoinedPath | sde_collections/models/delta_url.py:74-82 | Splitting the last cumulative path again gives back the segments it was built from |
| DeltaUrls.PathSegmentsShape | sde_collections/models/delta_url.py:74-82 | Every segment the path splits into is non-empty and free of '/' |
| PatternRegex.LiteralFullMatch | sde_collections/models/delta_patterns.py:48 | An individual-url pattern, or a multi-url pattern without `*`, compiles to atoms that fully match exactly the pattern text |
| PatternRegex.IndividualMatchesSuffix | sde_collections/models/delta_patterns.py:48-56 | An individual-url pattern (anchored only at the end) matches a url exactly when the url ends with the pattern text |
| PatternRegex.MultiWithoutWildcardMatchesSubstring | sde_collections/models/delta_patterns.py:48-56 | A multi-url pattern without `*` is unanchored and matches a url exactly when the url contains the pattern text |
| PatternRegex.ConcatSplits | sde_collections/models/delta_patterns.py:52 | A match of a concatenated regex splits the string into a match of each part |
| PatternRegex.ConcatJoins | sde_collections/models/delta_patterns.py:52 | Matches of two parts join into a match of their concatenation |
| PatternRegex.FullMatchConcat | sde_collections/models/delta_patterns.py:52 | A full match of a concatenation is a split of the string into full matches of the parts |
| PatternRegex.RunThenLiteral | sde_collections/models/delta_patterns.py:52 | `.*` followed by a literal matches exactly the strings that end with the literal |
| PatternRegex.WildcardMeaning | sde_collections/models/delta_patterns.py:52 | `a*b` with a single `*` fully matches exactly the strings at least as long as a and b together that start with a and end with b |
| PatternRegex.StarMatchesEverything | sde_collections/models/delta_patterns.py:52 | The multi-url pattern "*" matches every url |
| PatternRegex.MultiMatchSurvivesContext | sde_collections/models/delta_patterns.py:52-56 | A url that a multi-url pattern matches is still matched with anything added before or after it |
| DeltaPatterns.MatchingUrls | sde_collections/models/delta_patterns.py:42-62 | The matched urls are urls of the tier, and every url of the tier that the compiled pattern matches is among them |
| DeltaPatterns.GeneratedDeltaFields | sde_collections/models/delta_patterns.py:70-88 | A new delta takes the listed fields from the curated row and the defaults elsewhere; an existing delta keeps every non-blank value and fills only listed blank fields from the curated row |
| DeltaPatterns.GenerateAllStep | sde_collections/models/delta_patterns.py:93-95 | Generating deltas for one more curated url adds that url's generated delta to what the others left |
| DeltaPatterns.BaseApplyIdempotent | sde_collections/models/delta_patterns.py:90-102 | Applying a pattern a second time leaves every row as the first application left it, when its update value is not blank |
| DeltaPatterns.BaseApplyEffect | sde_collections/models/delta_patterns.py:90-102 | After the base apply every matching curated url has a delta, every matching delta carries the update value, curated rows and non-matching deltas are unchanged, and no other delta is created |
| DeltaPatterns.UpdateFieldAt | sde_collections/models/delta_patterns.py:98-99 | Setting a field on some deltas keeps every row, every deletion mark and every other field |
| DeltaPatterns.UnapplyKeepsRows | sde_collections/models/delta_patterns.py:104-107 | Unapplying never creates or deletes a row, keeps every deletion mark and leaves the curated tier alone |
| DeltaPatterns.UnapplyClearsOneField | sde_collections/models/delta_patterns.py:256-302 | A title pattern clears the generated title of every delta it matches now; a document-type or division pattern nulls its field on its recorded delta members; every other field is kept |
| DeltaPatterns.LeadingDigits | sde_collections/models/delta_patterns.py:251 | The result is the longest run of digits at the start of the string |
| DeltaPatterns.StatusCode | sde_collections/models/delta_patterns.py:251-253 | The status code is present exactly when "Status code: " followed by a digit occurs in the message, and it is never negative |
| DeltaPatterns.StatusCodeOfMessage | sde_collections/models/delta_patterns.py:251-253 | A message that starts with the marker and a number yields that number |
| DeltaPatterns.StepLocal | sde_collections/models/delta_patterns.py:181-186 | One url's title resolution reads and writes only that url's own rows and the curated tier |
| DeltaPatterns.PassStep | sde_collections/models/delta_patterns.py:181-186 | After the other urls of a pass, the last url gets the outcome it would have had alone |
| DeltaPatterns.PassInOrderOutcomes | sde_collections/models/delta_patterns.py:181-186 | A pass over the matched urls in any order raises exactly when one of them raises on the rows it started from, and otherwise leaves every url with its own outcome |
| DeltaPatterns.TitleApplyDeltaUrl | sde_collections/models/delta_patterns.py:191-244 | Every matched delta, with or without a curated row at its url, ends with the title resolved from its scraped title as its generated title and as its only resolved-title row, or, when resolution fails, with one new error row carrying the message and its status code; an unmatched delta keeps its rows |
| DeltaPatterns.TitleApplyCuratedUrl | sde_collections/models/delta_patterns.py:191-219 | A matched curated url resolves without error. When the title equals the curated generated title its rows stay as step one left them, so a url without a delta still has none; otherwise it ends with a delta, and a url that had none gets a new delta with the curated scraped title and the resolved title, plus its resolved-title row |
| DeltaPatterns.FieldPatternSetsMatches | sde_collections/models/delta_patterns.py:277-278 | A document-type or division pattern sets its value on every delta that matches after it ran, including the ones it created |
| DeltaPatterns.MatchPattern.constructor | sde_collections/models/delta_patterns.py:16-40 | A new pattern row has its collection, match pattern, type and effect, and empty membership sets |
| DeltaPatterns.MatchPattern.MatchedUrls | sde_collections/models/delta_patterns.py:42-62 | Returns the collection's matching delta urls and matching curated urls as two separate sets |
| DeltaPatterns.MatchPattern.RefreshUrlLists | sde_collections/models/delta_patterns.py:64-68 | Both membership sets become a fresh evaluation of the match, and no row changes |
| DeltaPatterns.MatchPattern.GenerateDeltaUrl | sde_collections/models/delta_patterns.py:70-88 | The url's delta becomes the generated delta of the curated row, and nothing else changes |
| DeltaPatterns.MatchPattern.GenerateDeltaUrls | sde_collections/models/delta_patterns.py:93-95 | Every matched curated url gets its generated delta, whatever the order of the rows |
| DeltaPatterns.MatchPattern.ApplyBase | sde_collections/models/delta_patterns.py:90-102 | The rows become the base apply of the pattern's rule, and the membership sets a fresh match |
| DeltaPatterns.MatchPattern.LogTitleError | sde_collections/models/delta_patterns.py:246-254 | Raises ValueError for a curated row and IntegrityError for a delta that already has an error row (one-to-one); otherwise records one error row with the message and its status code |
| DeltaPatterns.MatchPattern.ApplyTitleToUrl | sde_collections/models/delta_patterns.py:221-244 | On success the url's old resolved title is replaced by the new one and the generated title set; on failure the error is logged |
| DeltaPatterns.MatchPattern.CreateDeltaIfTitleDiffers | sde_collections/models/delta_patterns.py:191-219 | A differing resolved title creates or updates the delta (scraped title from the curated row) and applies the title to it; an equal one changes nothing |
| DeltaPatterns.MatchPattern.ResolveNext | sde_collections/models/delta_patterns.py:181-186 | One url of a title pass: its rows become that url's outcome |
| DeltaPatterns.MatchPattern.ResolveInOrder | sde_collections/models/delta_patterns.py:181-186 | A title pass over the matched urls in the order the rows come in ends in the sequential fold of the per-url outcomes |
| DeltaPatterns.MatchPattern.ResolveAll | sde_collections/models/delta_patterns.py:181-186 | A title pass raises exactly when some url raises, and otherwise leaves each url with its own outcome, whatever the order |
| DeltaPatterns.MatchPattern.ResolveBoth | sde_collections/models/delta_patterns.py:178-186 | Step 1 over the matched deltas, then step 2 over the matched curated urls, each as its set-based outcome |
| DeltaPatterns.MatchPattern.ApplyTitle | sde_collections/models/delta_patterns.py:173-189 | The title pattern's apply succeeds exactly when the specification's resolution does, ends in its rows, and refreshes the membership sets |
| DeltaPatterns.MatchPattern.Apply | sde_collections/models/delta_patterns.py:90-102 | Each model's apply ends in the rows its specification gives (fields copied, value set or title resolved) with fresh membership sets; false exactly when a title pattern raised |
| DeltaPatterns.MatchPattern.Unapply | sde_collections/models/delta_patterns.py:104-107 | Each model's unapply clears its field on the right deltas; the base, title and document-type versions empty both membership sets, the division version keeps them |
| Collections.MigratedDumpUrl | sde_collections/models/collection.py:33 | A dump url yields a non-deleting copy of itself exactly when it has no curated counterpart or differs from it on `scraped_title` |
| Collections.MigratedMissingUrl | sde_collections/models/collection.py:146-149 | A curated url missing from the dump yields a deleting delta that carries the curated fields |
| Collections.MigratedDeltaSources | sde_collections/models/collection.py:127-149 | No earlier delta survives: every delta after the migration has its url in the dump or the curated tier, and it deletes exactly when the url is missing from the dump |
| Collections.FilledFromDefaults | sde_collections/models/collection.py:213-219 | Filling a record's blank fields from the defaults changes nothing, because the blank values are the defaults |
| Collections.PromoteDeletes | sde_collections/models/collection.py:193-197 | A deleting delta removes its curated counterpart when there is one and never creates one |
| Collections.PromoteMerges | sde_collections/models/collection.py:199-211 | A curated record met by a delta takes the delta's value on every field where that value is neither null nor empty, and keeps its own value elsewhere |
| Collections.PromoteCreates | sde_collections/models/collection.py:212-219 | A delta without a curated counterpart becomes a curated record equal to the delta's fields (its blank fields are the defaults a new record gets) |
| Collections.PromoteKeepsOthers | sde_collections/models/collection.py:186-219 | A curated url without a delta keeps its record, and no url that has no delta appears |
| Collections.Rank | sde_collections/models/collection.py:612-628 | Every pattern kind sits at its rank in the application order |
| Collections.OfKind | sde_collections/models/collection.py:615-628 | The rules selected for a kind are all of that kind |
| Collections.OfKindCount | sde_collections/models/collection.py:615-628 | A rule occurs among the rules of its kind as often as in the table, and never among another kind's |
| Collections.ByKindIsPermutation | sde_collections/models/collection.py:612-628 | `apply_all_patterns` applies every pattern row exactly once: its order is a permutation of the rows |
| Collections.ByKindSorted | sde_collections/models/collection.py:612-628 | Exclude patterns come first, then include, title, document-type and division patterns |
| Collections.RulesOf | sde_collections/models/delta_patterns.py:16-40 | The rules of the rows are the rows' current rules, position by position |
| Collections.StatusEffects | sde_collections/models/collection.py:738-756 | A workflow-status change has exactly one effect for the listed targets: plugin config for READY_FOR_CURATION, promotion for CURATED, scraper and indexer configs for READY_FOR_ENGINEERING, public query for the two quality-check statuses, and no effect otherwise; the public-query status check then passes |
| Collections.MembershipListsMeaning | sde_collections/models/delta_url.py:10-25 | A url is in one of the membership lists of a pattern kind exactly when some pattern row of that kind lists it |
| Collections.ExcludedExactlyWhenMatched | sde_collections/models/delta_url.py:10-25 | With fresh memberships, a delta or curated row is flagged as written exactly when an exclude pattern matches its url, and under the intended rule exactly when an exclude pattern matches and no include pattern does |
| Collections.Collection.constructor | sde_collections/models/collection.py:36-40 | A new collection has the given name and status, empty tiers and no patterns |
| Collections.Collection.ClearDeltaUrls | sde_collections/models/collection.py:89-91 | Every delta is deleted with its resolved titles and title errors; every pattern's delta membership becomes empty and the rest is unchanged |
| Collections.Collection.ClearDumpUrls | sde_collections/models/collection.py:93-95 | The dump becomes empty and nothing else changes |
| Collections.Collection.CreateOrUpdateDeltaUrl | sde_collections/models/collection.py:158-178 | The url's delta becomes a copy of the record's fields with the given deletion mark, so repeated calls leave one delta per url |
| Collections.Collection.MigrateDumpUrls | sde_collections/models/collection.py:134-144 | The deltas become the migrated deltas of the dump urls: one per new or changed url |
| Collections.Collection.MarkMissingUrls | sde_collections/models/collection.py:146-149 | A deleting delta is added for every curated url missing from the dump |
| Collections.Collection.MigrateUrls | sde_collections/models/collection.py:127-152 | The rows become the migration of the old rows: deltas rebuilt from scratch, the dump emptied, the curated tier untouched |
| Collections.Collection.ApplyPatternsOfKind | sde_collections/models/collection.py:615-628 | The patterns of one kind are applied in table order; the result is that fold, and false exactly when one of them raised |
| Collections.Collection.ApplyAllPatterns | sde_collections/models/collection.py:612-628 | The rows become the fold of every pattern's apply in kind order; false exactly when a pattern raised |
| Collections.Collection.MigrateDumpToDelta | sde_collections/models/collection.py:120-156 | The migration followed by every pattern applied; the dump ends empty and the curated tier unchanged |
| Collections.Collection.PromoteDelta | sde_collections/models/collection.py:190-219 | One delta's promotion: the url's curated record becomes the promoted record, or disappears for a deleting delta |
| Collections.Collection.RefreshUrlListsForAllPatternsAsWritten | sde_collections/models/collection.py:97-118 | The method as written raises AttributeError whenever the collection has a pattern row |
| Collections.Collection.RefreshUrlListsForAllPatterns | sde_collections/models/collection.py:97-118 | Every pattern's membership sets become a fresh match |
| Collections.Collection.PromoteDeltas | sde_collections/models/collection.py:189-219 | The curated tier becomes every delta promoted into it |
| Collections.Collection.PromoteToCurated | sde_collections/models/collection.py:180-225 | Over the corrected refresh (see Findings): the curated tier becomes the promotion of the deltas; the deltas, their titles and errors are drained, and every pattern's membership is refreshed |
| Collections.Collection.SaveWorkflowStatus | sde_collections/models/collection.py:738-756 | Over the corrected refresh (see Findings): the status is stored and the effect of the change is returned; only the promotion effect changes rows, and it promotes the collection |
| Collections.Collection.SavePattern | sde_collections/models/delta_patterns.py:109-112 | A pattern whose (kind, match pattern) pair is taken is refused with nothing changed; otherwise the row is stored, its apply gives the rows, and after a successful apply its membership sets equal a fresh match |
| Collections.Collection.DeletePattern | sde_collections/models/delta_patterns.py:114-117 | The pattern is unapplied on its recorded members and its row is removed; a title pattern's resolved-title and title-error rows are deleted with it |
| DeltaPatterns.DeleteRowsCascade | sde_collections/migrations/0062_deltatitlepattern_deltaresolvedtitleerror_and_more.py:73-98 | Deleting a title pattern removes exactly the resolved titles and errors it wrote and keeps every other one; other patterns keep them all; deltas are as unapply leaves them, and one title row per delta still holds |
| Collections.PatternPassStep | sde_collections/models/collection.py:615-628 | The pass over a kind, one pattern further, is that pattern's apply when it is of the kind and nothing otherwise |
| Collections.RaisedPatternStops | sde_collections/models/collection.py:615-628 | Once a pattern raised, the later patterns of its kind cannot make the pass succeed |
| Collections.KindPassStep | sde_collections/models/collection.py:612-628 | The pass over one more kind continues from the rows the earlier kinds left |
| Collections.RaisedKindStops | sde_collections/models/collection.py:612-628 | Once a pattern of one kind raised, the later kinds cannot make the pass succeed |
| Tasks.LegacyCopy | sde_collections/tasks.py:81-89 | The delta carries the record's scraped title, generated title, document type and division, and the defaults elsewhere |
| Tasks.LegacyDumpUrl | sde_collections/tasks.py:76-105 | A dump url yields a non-deleting delta exactly when it has no curated counterpart or differs from it on one of the four fields; the delta carries the dump url's four fields |
| Tasks.LegacyMissingUrl | sde_collections/tasks.py:107-119 | A curated url missing from the dump yields a deleting delta with its four fields |
| Tasks.LegacyDeltaSources | sde_collections/tasks.py:71-119 | Every delta of the older diff comes from the dump or from the curated urls |
| Tasks.LegacyCoversMigrated | sde_collections/tasks.py:90-95 | The older diff compares more fields than `migrate_dump_to_delta`, so every url the migration marks gets a delta from it too, with the same deletion mark |
| Tasks.CreateDeltaUrl | sde_collections/tasks.py:81-89 | A new delta row is added for a url that had none |
| Tasks.LegacyDumpPass | sde_collections/tasks.py:76-105 | The first loop adds a delta for every dump url that is new or changed |
| Tasks.LegacyMissingPass | sde_collections/tasks.py:107-119 | The second loop adds a deleting delta for every curated url missing from the dump |
| Tasks.CompareAndPopulateDeltaUrls | sde_collections/tasks.py:66-119 | Every delta of the collection is deleted, then the deltas become the older diff of the dump against the curated tier; dump and curated tiers are unchanged |
| Tasks.FirstEmptyPage | sde_collections/tasks.py:34-38 | The page where paging stops has a row count of 0, and every page before it has a non-zero count |
| Tasks.PageRowsMeaning | sde_collections/tasks.py:40-61 | A page succeeds exactly when every record does; its rows are then exactly the rows of the records kept (collection not ignored, download url present), no more than the records |
| Tasks.PageRowsRaises | sde_collections/tasks.py:41 | When the records up to some point raise, the whole page raises the same error |
| Tasks.PagesRowsRaises | sde_collections/tasks.py:34-62 | A page that raises makes every longer run of pages raise the same error |
| Tasks.GetDataToImport | sde_collections/tasks.py:19-63 | Pages 1, 2, 3, ... are read until the first one with a row count of 0; the result is the rows of the pages before it, in order |
| Tasks.DumpRecordOf | sde_collections/tasks.py:261-266 | The dump row of a fetched document carries its title ("" when absent) and the defaults elsewhere |
| Tasks.FirstOccurrencesUrls | sde_collections/tasks.py:258-270 | Of the intended task: the dump holds a row for exactly the urls of the documents |
| Tasks.FirstOccurrenceWins | sde_collections/tasks.py:268-270 | Of the intended task: a url's row is built from the first document with that url; later duplicates are skipped |
| Tasks.CreateDumpUrl | sde_collections/tasks.py:261-270 | Creating a dump row raises IntegrityError and changes nothing when the url already has one; otherwise it adds the row |
| Tasks.FetchAndReplaceFullTextAsWritten | sde_collections/tasks.py:249-255 | As written (see Findings): the dump is emptied and the task raises AttributeError at the progress message, so whenever a document was fetched the dump is not the one the documentation describes |
| Tasks.FetchAndReplaceFullText | sde_collections/tasks.py:235-272 | The intended task (see Findings): the dump is emptied and becomes the first occurrence of each document url; the report counts all documents and the processed count the rows created |
| DeduplicateUrls.Select | sde_collections/management/commands/deduplicate_urls.py:56 | The rows a key filter returns are exactly the table's rows with that key, in order |
| DeduplicateUrls.Without | sde_collections/management/commands/deduplicate_urls.py:62 | Deleting by ids keeps exactly the rows whose id is not listed, in order |
| DeduplicateUrls.MinIdOfMeaning | sde_collections/management/commands/deduplicate_urls.py:47-51 | The minimum id of a (collection, url) group is the id of one of its rows, and no row of the group has a smaller one |
| DeduplicateUrls.PriorityRows | sde_collections/management/commands/deduplicate_urls.py:71 | The priority instances are exactly the rows of priority collections, in order |
| DeduplicateUrls.OtherRows | sde_collections/management/commands/deduplicate_urls.py:72 | The non-priority instances are exactly the other rows, in order |
| DeduplicateUrls.FirstFewestMeaning | sde_collections/management/commands/deduplicate_urls.py:74-77 | The row `min` picks is one of the rows, its collection has no more urls than any other row's, and every row before it has strictly more |
| DeduplicateUrls.IntraDeletedMeaning | sde_collections/management/commands/deduplicate_urls.py:47-62 | Phase 1 deletes a row exactly when its (collection, url) group holds a row with a smaller id |
| DeduplicateUrls.KeeperChoice | sde_collections/management/commands/deduplicate_urls.py:71-77 | Every url held by some row has a survivor among its rows; it comes from a priority collection whenever one exists, and its collection has no more urls than that of any eligible row |
| DeduplicateUrls.IntraKeepsGroupMinimum | sde_collections/management/commands/deduplicate_urls.py:47-62 | Phase 1 keeps, for every (collection, url) group, the row with the smallest id |
| DeduplicateUrls.DeduplicatedOnePerUrl | sde_collections/management/commands/deduplicate_urls.py:36-82 | After both phases every url of the table is held by exactly one row |
| DeduplicateUrls.SurvivorIsKeeper | sde_collections/management/commands/deduplicate_urls.py:64-82 | A row that survives phase 2 while its url is shared is that url's chosen survivor |
| DeduplicateUrls.CrossOnePerUrl | sde_collections/management/commands/deduplicate_urls.py:64-82 | Phase 2 leaves exactly one row for every url it sees |
| DeduplicateUrls.GroupWithinUrl | sde_collections/management/commands/deduplicate_urls.py:47-51 | A (collection, url) group is part of that url's rows |
| DeduplicateUrls.WithoutSelect | sde_collections/management/commands/deduplicate_urls.py:62 | Deleting rows never adds rows to a filter |
| DeduplicateUrls.SingletonSurvives | sde_collections/management/commands/deduplicate_urls.py:48-50 | A row whose url no other row holds is never deleted |
| DeduplicateUrls.IntraCollectionIds | sde_collections/management/commands/deduplicate_urls.py:53-60 | The loop collects the ids of every row but the smallest of each duplicated (collection, url) group |
| DeduplicateUrls.CrossCollectionIds | sde_collections/management/commands/deduplicate_urls.py:67-80 | The loop collects the ids of every row but the survivor of each url still held by several rows |
| DeduplicateUrls.CandidateTable.DeduplicateCandidateUrls | sde_collections/management/commands/deduplicate_urls.py:36-88 | The table becomes the deduplicated table, with collection sizes counted before any deletion; the two counts reported are the numbers of ids each phase collected |
| KeepFirst.Group | sde_collections/management/commands/deduplicate_patterns.py:36 | A group is exactly the table's rows with that key, in order |
| KeepFirst.Without | sde_collections/management/commands/deduplicate_patterns.py:40-41 | Deleting by ids keeps exactly the rows whose id is not listed, in order |
| KeepFirst.UniqueTail | sde_collections/management/commands/deduplicate_patterns.py:39 | Without its first row a table keeps unique ids, none of them the first row's |
| KeepFirst.GroupUnique | sde_collections/management/commands/deduplicate_patterns.py:36 | A group of a table with unique ids has unique ids |
| KeepFirst.GroupFirst | sde_collections/management/commands/deduplicate_patterns.py:36-39 | The first row of a group is the first row of the table with that key |
| KeepFirst.DeduplicatedMeaning | scripts/analyze_and_remove_url_duplicates.py:57-66 | Deduplication keeps exactly the first row of every group |
| KeepFirst.DeduplicatedOnePerKey | sde_collections/management/commands/deduplicate_patterns.py:34-42 | Afterwards no two rows share a key, every key the table held is still held, and each by the first row that held it |
| KeepFirst.SingletonKept | sde_collections/management/commands/deduplicate_patterns.py:28-32 | A row alone in its group is never deleted |
| KeepFirst.IdsOfSize | sde_collections/management/commands/deduplicate_patterns.py:34-42 | A table with unique ids has as many ids as rows |
| KeepFirst.TailSize | sde_collections/management/commands/deduplicate_patterns.py:39-42 | One group's pass deletes one row fewer than the group holds |
| KeepFirst.RemovedDisjoint | sde_collections/management/commands/deduplicate_patterns.py:34-42 | The passes of different groups delete disjoint sets of rows |
| KeepFirst.WithoutWithout | sde_collections/management/commands/deduplicate_patterns.py:40-41 | Deleting in two steps is deleting the union |
| KeepFirst.GroupWithout | sde_collections/management/commands/deduplicate_patterns.py:34-42 | Deleting rows outside a group leaves the group as it was |
| KeepFirst.Table.DeleteGroupTail | sde_collections/management/commands/deduplicate_patterns.py:39-42 | The rows of the group after its first are deleted one at a time, and the count grows by the group size minus one |
| KeepFirst.Table.DeleteNextGroup | sde_collections/management/commands/deduplicate_patterns.py:34-42 | One group's pass, after other groups were cut down, deletes that group's tail as it was at the start |
| KeepFirst.Table.DeleteDuplicateGroups | sde_collections/management/commands/deduplicate_patterns.py:34-42 | Every group keyed by a listed key is cut down to its first row, and the deletions are counted |
| KeepFirst.Table.Deduplicate | sde_collections/management/commands/deduplicate_patterns.py:28-42 | Every group of duplicates is cut down to its first row; the count is the sum of the group sizes minus one |
| KeepFirst.RemovedCount | sde_collections/management/commands/deduplicate_patterns.py:39-42 | A pass over one more group deletes that group's size minus one more rows |
| KeepFirst.PassStep | sde_collections/management/commands/deduplicate_patterns.py:34-42 | A pass over some groups after a pass over other, disjoint groups sees its groups as they were and deletes what it would have deleted alone |
| KeepFirst.GroupStep | sde_collections/management/commands/deduplicate_patterns.py:34-42 | One group's pass after other groups were cut down sees the group as it was, and the deletions add up |
| DeduplicatePatterns.Index | sde_collections/management/commands/deduplicate_patterns.py:22 | Each of the five pattern models has its own place in the model list |
| DeduplicatePatterns.RowsOf | sde_collections/management/commands/deduplicate_patterns.py:22-26 | The rows of each model's table, in model order |
| DeduplicatePatterns.Handle | sde_collections/management/commands/deduplicate_patterns.py:21-47 | Each table is left with one pattern per (collection, match pattern), its first; the counts name exactly the models that lost patterns, each with the group sizes minus one summed, and the total is their sum |
| DeduplicatePatterns.CountsUpToMeaning | sde_collections/management/commands/deduplicate_patterns.py:24-47 | After the first n tables the counts hold exactly the models among them that lost patterns, each with its number, and they sum to the rows deleted |
| DeduplicatePatterns.SumCountsOther | sde_collections/management/commands/deduplicate_patterns.py:42-47 | Setting a later model's count leaves the sum over the first n models alone |
| UrlDuplicates.CountIn | scripts/analyze_and_remove_url_duplicates.py:19 | The count of a collection is the number of its urls |
| UrlDuplicates.DeleteCounts | scripts/analyze_and_remove_url_duplicates.py:57-66 | What the cleanup deletes from each collection, in collection order |
| UrlDuplicates.CountDuplicates | scripts/analyze_and_remove_url_duplicates.py:23-35 | The loop sums, over the duplicate groups of a collection (same collection, same values on every field but id and collection), their sizes minus one |
| UrlDuplicates.SumSurplus | scripts/analyze_and_remove_url_duplicates.py:31-35 | Every group of duplicates adds its size minus one |
| UrlDuplicates.AnalyzeDuplicates | scripts/analyze_and_remove_url_duplicates.py:12-40 | Nothing changes; every collection gets its number of urls and the number the cleanup would delete from it |
| UrlDuplicates.DeleteDuplicates | scripts/analyze_and_remove_url_duplicates.py:43-71 | Collection by collection every group of duplicates is cut down to its first url; the report lists the collections that lost urls, with how many |
| UrlDuplicates.DeleteCollectionDuplicates | scripts/analyze_and_remove_url_duplicates.py:57-66 | One collection's turn, after the earlier collections, cuts its own groups down to their first urls and deletes as many as the analysis counted |
| UrlDuplicates.DupesAreGroups | scripts/analyze_and_remove_url_duplicates.py:23-28 | A duplicate group of the listed collections holds several urls |
| UrlDuplicates.DeletionsStep | scripts/analyze_and_remove_url_duplicates.py:66 | One more collection in the deletion report |
| UrlDuplicates.DupesInUnion | scripts/analyze_and_remove_url_duplicates.py:48-55 | The duplicate groups of several collections are those of each collection |
| UrlDuplicates.CollectionStep | scripts/analyze_and_remove_url_duplicates.py:48-66 | One collection's cleanup sees its own groups as they were, and deletes what the analysis counted |
| UrlDuplicates.AnalysisMeaning | scripts/analyze_and_remove_url_duplicates.py:31-35 | The analysis entry of every listed collection is its size and the number the cleanup deletes from it |
| UrlDuplicates.DeletionsMeaning | scripts/analyze_and_remove_url_duplicates.py:63-66 | The deletion report lists exactly the collections the cleanup deletes urls from, each with the number the analysis gives it |
| UrlDuplicates.CleanupLeavesNoDuplicates | scripts/analyze_and_remove_url_duplicates.py:48-66 | When every url belongs to a listed collection, the cleanup leaves no two duplicates and keeps every (collection, values) it found, by its first url |
| DbToXml.Tagged | config_generation/db_to_xml.py:126 | `findall` gives exactly the children with that tag, in document order |
| DbToXml.FindChild | config_generation/db_to_xml.py:72-75 | `find` gives the position of the first child with that tag, or none when there is none |
| DbToXml.Upsert | config_generation/db_to_xml.py:75-79 | The first child with the tag gets the value as its text, or a new child with that text is appended; the other children are untouched |
| DbToXml.UpsertUnder | config_generation/db_to_xml.py:68-79 | The same upsert under the root's first child with the parent's tag |
| DbToXml.ScraperTop | config_generation/db_to_xml.py:81-91 | The top-level scraper settings keep whether the tree has System and IndexerClient |
| DbToXml.IndexerTop | config_generation/db_to_xml.py:98-107 | The top-level indexer settings keep whether the tree has System and IndexerClient |
| DbToXml.Replace | config_generation/db_to_xml.py:148 | Replacing one character by another keeps the length and changes exactly the occurrences of the first |
| DbToXml.FirstMatch | config_generation/db_to_xml.py:170-175 | The first Mapping with the Name and one of the standardized Selections, or none |
| DbToXml.RStripSlash | config_generation/db_to_xml.py:202 | `rstrip("/")` gives a prefix without a trailing '/', followed in the input only by slashes |
| DbToXml.TitleValue | config_generation/db_to_xml.py:199-213 | A title containing one of the Sinequa markers is written as is; any other is wrapped in double quotes |
| DbToXml.XmlEditor.constructor | config_generation/db_to_xml.py:13-14 | The editor holds the given tree |
| DbToXml.XmlEditor.UpdateOrAddElementValue | config_generation/db_to_xml.py:53-79 | Under the root, or under the root's first child with the parent tag, the first child with the name gets the value or one is appended; a missing parent raises AttributeError and changes nothing |
| DbToXml.XmlEditor.ConvertIndexerToScraper | config_generation/db_to_xml.py:81-96 | The fixed scraper settings are made; AttributeError exactly when the tree has no System or no IndexerClient |
| DbToXml.XmlEditor.ConvertScraperToIndexer | config_generation/db_to_xml.py:98-111 | The fixed indexer settings are made, with the same failure condition |
| DbToXml.XmlEditor.ConvertTemplateToScraper | config_generation/db_to_xml.py:113-118 | The base url to scrape is set |
| DbToXml.XmlEditor.MappingExists | config_generation/db_to_xml.py:120-138 | True exactly when some Mapping child has the same tag-to-text map as the new mapping, absent texts read as "" |
| DbToXml.XmlEditor.GenericMapping | config_generation/db_to_xml.py:157-188 | With the selection standardization repaired: the first Mapping with the same Name and a matching Selection gets the value, or a new Mapping (Name, Description, Value, Selection, empty DefaultValue) is appended |
| DbToXml.XmlEditor.AddDocumentTypeMapping | config_generation/db_to_xml.py:190-197 | Over the corrected `_generic_mapping` (see Findings): maps `sourcestr56` to the quoted type for urls matching `doc.url1 match '<criteria>'` |
| DbToXml.XmlEditor.AddTitleMapping | config_generation/db_to_xml.py:199-213 | Over the corrected `_generic_mapping` (see Findings): the criteria lose their trailing slashes, and a literal title is quoted while Sinequa code is written as is |
| DbToXml.XmlEditor.AddId | config_generation/db_to_xml.py:227-231 | Over the corrected `_generic_mapping` (see Findings): the id mapping is added with an empty selection |
| DbToXml.XmlEditor.AddDocumentType | config_generation/db_to_xml.py:233-237 | Over the corrected `_generic_mapping` (see Findings): the quoted type is mapped for every document, with an empty selection |
| DbToXml.XmlEditor.AddJobListItem | config_generation/db_to_xml.py:215-225 | A JobListItem for the job is always appended |
| DbToXml.XmlEditor.AddXpathIndexingFilter | config_generation/db_to_xml.py:239-249 | An IndexingFilter with the xpath and selection is always appended |
| DbToXml.XmlEditor.AddUrlExclude | config_generation/db_to_xml.py:251-266 | The pattern is appended unless some UrlIndexExcluded child already has it as text |
| DbToXml.XmlEditor.AddUrlInclude | config_generation/db_to_xml.py:268-280 | The pattern is always appended, even when it is already included |
| DbToXml.InspectMapping | config_generation/db_to_xml.py:170-175 | One turn of the `_generic_mapping` loop: when it answers, it says whether the Mapping has the Name and one of the standardized Selections; it raises only AttributeError, and only for a Mapping that lacks a Name or Selection text |
| DbToXml.UpsertKeepsOthers | config_generation/db_to_xml.py:75-79 | An upsert leaves the children with other tags as they were |
| DbToXml.UpsertUnderKeepsOthers | config_generation/db_to_xml.py:68-79 | An upsert under a parent leaves the root's children with other tags as they were |
| DbToXml.ConvertedKeepsText | config_generation/db_to_xml.py:81-111 | A top-level setting survives the two nested settings of a conversion |
| DbToXml.ConvertedKeepsOthers | config_generation/db_to_xml.py:81-111 | A conversion leaves every top-level tag it does not set as it was |
| DbToXml.ConvertedNested | config_generation/db_to_xml.py:92-96 | Both nested settings of a conversion are made when System and IndexerClient exist |
| DbToXml.ScraperSettings | config_generation/db_to_xml.py:81-96 | On a tree with System and IndexerClient every scraper setting holds afterwards (Simulate "true", LogLevel "0", WorkerCount "8", ...) |
| DbToXml.ScraperKeepsOthers | config_generation/db_to_xml.py:81-96 | Converting to a scraper touches no top-level tag besides the ones it sets |
| DbToXml.IndexerSettings | config_generation/db_to_xml.py:98-111 | On a tree with System and IndexerClient every indexer setting holds afterwards (Simulate "false", LogLevel "20", WorkerCount "8", ...) |
| DbToXml.IndexerKeepsOthers | config_generation/db_to_xml.py:98-111 | Converting to an indexer touches no top-level tag besides the ones it sets |
| DbToXml.TaggedUpdate | config_generation/db_to_xml.py:77 | Replacing a child by one with the same tag leaves the other tags' children as they were |
| DbToXml.FindTagged | config_generation/db_to_xml.py:75 | `find` is the head of `findall` |
| DbToXml.UpsertLastWins | config_generation/db_to_xml.py:53-79 | Upserting twice is upserting once, and the last of two values for a tag wins |
| DbToXml.FindChildIs | config_generation/db_to_xml.py:75 | The first child with a tag is the one `find` returns |
| DbToXml.FirstMatchIs | config_generation/db_to_xml.py:170-175 | The first matching Mapping is the one `_generic_mapping` updates |
| DbToXml.TextMapKeys | config_generation/db_to_xml.py:127-130 | The tag-to-text map sees exactly the tags of the children |
| DbToXml.TextMapLast | config_generation/db_to_xml.py:127-130 | For each tag the map holds the text of the last child with that tag, "" for none |
| DbToXml.FirstTagged | config_generation/db_to_xml.py:75 | The first child with a tag is what `find` and the head of `findall` give |
| DbToXml.NewMappingMatches | config_generation/db_to_xml.py:182-188 | A freshly added Mapping's Selection is among its own standardized forms |
| DbToXml.MappedLastWins | config_generation/db_to_xml.py:157-188 | Mapping the same (Name, Selection) twice leaves one Mapping carrying the second value |
| DbToXml.MappedSetsValue | config_generation/db_to_xml.py:157-188 | After a mapping call that does not raise, some Mapping with the Name and Selection carries the value, and every other child is untouched |
| DbToXml.ExcludeIdempotent | config_generation/db_to_xml.py:251-266 | Excluding a pattern twice is excluding it once, and it is then excluded by as many rules as before, or by one |
| DbToXml.IncludeAccumulates | config_generation/db_to_xml.py:268-280 | Every include call adds one more include rule for the pattern |
| DbToXml.ReplaceConcat | config_generation/db_to_xml.py:148 | Replacing quotes works piece by piece over a concatenation |
| DbToXml.ReplaceAbsent | config_generation/db_to_xml.py:148 | Replacing a character that does not occur changes nothing |
| DbToXml.QuoteVariant | config_generation/db_to_xml.py:148 | Turning single quotes into double ones, where the only ones are around the criteria, gives the double-quoted selection |
| DbToXml.OldSelectionRecognised | config_generation/db_to_xml.py:140-155 | With the quote replacement run the intended way, a Mapping whose criteria an older configuration quoted with double quotes is recognised as the new single-quoted one |
| DbToXml.SameNameRaisesAsWritten | config_generation/db_to_xml.py:140-155 | As written, a mapping call for a Name that some well-formed Mapping already carries always raises TypeError |
| DbToXml.RepeatedMappingAsWritten | config_generation/db_to_xml.py:171-173 | A second call for the same Name and Selection raises TypeError as written; repaired, it updates the Mapping the first call added |
| DbToXml.OldSelectionMissedAsWritten | config_generation/db_to_xml.py:148 | As written, the double-quoted form of a new selection is not among its standardized forms |
| Serializers.ApiTitle | sde_collections/serializers.py:131-132 | The generated title when it is not empty, else the scraped title; empty exactly when both are |
| Serializers.ApiDocumentType | sde_collections/serializers.py:123-129 | The label of the url's own document type, else that of its collection's, else "Unknown" |
| Serializers.CollectionTreeRoot | sde_collections/models/collection.py:278-279 | "/", the division label, "/", the name, "/" |
| Serializers.ApiTreeRoot | sde_collections/serializers.py:137-144 | The collection's tree root, except that a url with a division of its own in a multi-division collection is filed under that division |
| Serializers.DocumentTypeChoices | sde_collections/serializers.py:197-202 | The model's document types and 0 for "None" |
| Serializers.Matching | sde_collections/serializers.py:185-188 | The rows the lookup finds: the individual-url rows with the match pattern, in any collection, in order |
| Serializers.Kept | sde_collections/serializers.py:189 | The rows left after the deletion: every row the lookup does not find, in order |
| Serializers.PairFromKept | sde_collections/serializers.py:183-192 | A (collection, match pattern) pair held after the deletion was held before |
| Serializers.KeptUnique | sde_collections/serializers.py:183-192 | The deletion keeps the table free of duplicate pairs |
| Serializers.HookDeletes | sde_collections/serializers.py:183-192 | After the deletion no individual-url row with the match pattern is left, in any collection, and every other row is still there |
| Serializers.ReplaceOnCreate | sde_collections/serializers.py:183-192 | When an individual-url row holds the pair a create names, the deletion frees that pair, so the unique check passes |
| Serializers.CreateOutcomeMeaning | sde_collections/serializers.py:211-220 | A create keeps pairs unique; it adds the new row at the end exactly when the fields are valid and the pair is free after the deletion; otherwise it changes at most what the deletion did |
| Serializers.PatternTable.constructor | sde_collections/serializers.py:147-163 | The table holds the given rows, whose (collection, match pattern) pairs are unique |
| Serializers.PatternTable.ValidateMatchPattern | sde_collections/serializers.py:183-192 | Raises MultipleObjectsReturned with nothing changed when two rows match; otherwise deletes the one match, if any, and returns the value |
| Serializers.PatternTable.Create | sde_collections/serializers.py:183-243 | The outcome and the new rows are those of the create specification |
| Views.TrailingDigits | sde_collections/views.py:105 | The run of digits that ends the string: all digits, with no digit right before it |
| Views.DropLast | sde_collections/views.py:105 | The string without its last character when that is the given one, else the string |
| Views.IssueLinkParses | sde_collections/views.py:103-109 | A link ending in "/issues/", digits, an optional "/" and an optional newline parses to the digits' value |
| Views.DigitRunOfLink | sde_collections/views.py:105 | The trailing digit run after a marker ending in '/' is exactly the digits |
| Views.IssueNumberSound | sde_collections/views.py:103-112 | Every link that parses is built from "/issues/", digits, an optional "/" and an optional newline, and parses to their value |
| Views.FirstCurated | sde_collections/views.py:496-500 | The position of the first CURATED collection, or none when there is none |
| Views.FindFolder | sde_collections/views.py:517 | The position of the collection with the folder, or none |
| Views.FindId | sde_collections/views.py:97 | The position of the collection with the id, or none |
| Views.IndexingTransition | sde_collections/views.py:519-539 | STARTED_INDEXING moves CURATED to SECRET_DEPLOYMENT_STARTED, FINISHED_INDEXING moves SECRET_DEPLOYMENT_STARTED to READY_FOR_LRM_QUALITY_CHECK, nothing else moves; a move always changes the status and triggers no config effect |
| Views.IndexingSequence | sde_collections/views.py:519-539 | The two notices in order take CURATED to READY_FOR_LRM_QUALITY_CHECK, and a notice that was accepted is refused when sent again |
| Views.CollectionTable.constructor | sde_collections/models/collection.py:36-86 | The table holds the given collections, ids ascending and folders unique |
| Views.CollectionTable.JobName | sde_collections/views.py:495-508 | The indexer job name of the first CURATED collection, or "" |
| Views.CollectionTable.PostIndexingStatus | sde_collections/views.py:510-539 | A notice without a collection or a status raises a validation error; an unknown folder is a 404; an accepted transition stores the new status and answers 200; any other answers 400 with nothing changed |
| Views.CollectionTable.PostGithubIssueLink | sde_collections/views.py:103-113 | A link that parses to a number within the 32-bit `IntegerField` range (collection.py:64) sets the collection's issue number and redirects; a larger number is refused by the database save with nothing changed; any other link adds the form error and changes nothing; an unknown collection is a 404 |
| Views.FindPair | sde_collections/views.py:389-392 | The row holding a (collection, match pattern) pair, or none exactly when no row holds it |
| Views.RemoveAtUnique | sde_collections/views.py:392 | Deleting a row keeps the pairs unique and frees its pair |
| Views.RemoveLast | sde_collections/views.py:392 | Deleting the last row gives back the rows before it |
| Views.ToggleMeaning | sde_collections/views.py:385-415 | The toggle keeps pairs unique; toggling a pattern it just created deletes it and restores the table; toggling a present pair leaves it absent |
| Views.CreateToggled | sde_collections/views.py:385-415 | The outcome and the new rows are those of the toggle specification: an unknown collection raises DoesNotExist, a present pair is deleted with 200, otherwise the serializer's create runs |
| Views.DocumentTypeMeaning | sde_collections/views.py:433-448 | Pairs stay unique and no row with type 0 is ever stored; type 0 only deletes, at most one individual-url row |
| Views.DivisionMeaning | sde_collections/views.py:458-463 | Pairs stay unique, a blank division changes nothing, and a created division pattern carries the code of a division the choices accept |
| Views.DeleteRow | sde_collections/views.py:392 | One row is deleted and the others keep their order |
| Views.CreateDocumentType | sde_collections/views.py:433-448 | The outcome and the new rows are those of the document-type handler's specification |
| Views.CreateDivision | sde_collections/views.py:458-463 | The outcome and the new rows are those of the division handler's specification |
| CmrToModels.IntendedUse | scripts/ej/cmr_to_models.py:34-66 | Always one of the three uses: exploration exactly for the exploration levels, basic analysis exactly for the basic levels, advanced analysis for the advanced levels and every unknown input |
| CmrToModels.LevelSetsDisjoint | scripts/ej/cmr_to_models.py:35-57 | The three level sets are pairwise disjoint |
| CmrToModels.CheckOrderIrrelevant | scripts/ej/cmr_to_models.py:59-66 | Running the checks in the reverse order gives the same use |
| CmrToModels.SourceLink | scripts/ej/cmr_to_models.py:12-17 | "" unless both Authority and DOI are present and non-empty, and then the DOI resolved against the authority |
| CmrToModels.SinequaId | scripts/ej/cmr_to_models.py:20-21 | "/SDE/CMR_API/|" followed by the concept id |
| CmrToModels.SinequaIdRoundTrip | scripts/ej/cmr_to_models.py:20-21 | Reading the concept id back out of a search id gives the concept id, and every CMR search id is rebuilt from its concept id |
| CmrToModels.SinequaIdInjective | scripts/ej/cmr_to_models.py:20-21 | Distinct concept ids get distinct search ids |
| Wrappers.MoveOne | sde_collections/models/collection.py:135 | Helper of the migration loop over the dump: moving one pending url to the handled set keeps their union and their disjointness |
| Wrappers.MoveOneInto | sde_collections/models/collection.py:147 | Helper of the loop over missing curated urls: moving one pending url into the seen set keeps the union |

## Left out

- Database mechanics are abstracted. Each tier is a map keyed by url for one collection. Record ids and the collection foreign key are not fields of the model. The `url` column is unique across a whole tier table, which the per-collection map does not enforce.
- The order of query results is not modelled where it does not matter. Loops over a queryset or a dictionary pick the next url by choice, and their contracts hold for every order. Where the source relies on order (`min`, `[1:]`, the first CURATED collection), the rows are a sequence.
- Title resolution (`resolve_title` and its helpers) fetches pages and is not part of this model. It is a function parameter that returns a title or an error message.
- A pattern's match pattern, type and effect are fixed for the life of the row. Editing a pattern in place is not modelled.
- `apply` is only ever called with `fields_to_copy=None`, so a delta it creates holds the url and default values. `generate_delta_url` itself is modelled for any field list.
- `DeltaUrl.delete` in `delta_url.py:104` was later renamed to `to_delete`. The model has the one flag `toDelete`. The older diff in `tasks.py:88,104,118` still passes `delete=`; it is modelled as setting the same flag.
- `scraped_text` is written by `fetch_and_replace_full_text` but is not a field of the url models, so the model drops it. As written, the create at tasks.py:264 would raise TypeError for that keyword, which `except IntegrityError` does not catch; the task never gets there (see Findings), and `Tasks.FetchAndReplaceFullText` models the intended create without the field.
- A record whose title is JSON null reaches the import as `None`; the model reads a missing title as "".
- GitHub, Slack, S3, Celery, HTTP and printing are outside the model. This covers `add_to_public_query` (only its status check is kept), `create_*_config`, the Slack branch of `save`, and the printed summaries of the commands and scripts.
- `log_workflow_history` (collection.py:727-736) writes an audit row per status change; the history table is not part of this model.
- The ContentType reflection that finds the pattern models (collection.py:111-118) is replaced by the five kinds.
- The collection choice fields (labels, document types, divisions) are not part of this model. Labels and the accepted choice sets are parameters.
- The specificity tie-break that the tests describe has no code in the pattern models and is not modelled.
- Python's `\d` also matches non-ASCII digits; the model's digit tests accept ASCII digits only (the status code of a title error, the issue number).
- `int()` of a document type that is not a number raises ValueError in the view; the model takes the document type as an optional integer.
- Validation of `match_pattern_type` against its choices is not modelled.
- Http404 is modelled as a response with status 404.
- The GitHub issue branch assumes the form is valid; the form's own validation is not part of this model.
- The other branches of the views (claim, comment, required url), the list and template views, `PushToGithubView` and the consolidation view are left out.
- A pattern's post-save application is modelled in `Collections.Collection.SavePattern`, not again in the views.
- The deduplication commands work on id lists that are sets in the model. `CandidateURL` is not part of this model, so its fields are abstracted to a value per row. The per-model counts of `defaultdict(int)` are a map.
- `get_fields()` in the analysis script is abstracted to one value per row holding every field but id and collection.
- The legacy pattern models that `deduplicate_patterns.py` imports are not part of this model; each model is a table of (collection, match pattern) rows.
- Module-level script code is left out: the database loop of `cmr_to_models.py:69-96` and the calls at `analyze_and_remove_url_duplicates.py:75-76`.
- `sinequa_id_to_url` percent-encodes through `urllib.parse.quote`, which is not part of this model.
- `urljoin` is a parameter of `CmrToModels.SourceLink`.
- XML parsing and serialisation (`_get_tree`, `get_tag_value`, `update_config_xml`, `_resave_pretty`) are left out. The editor works on an already parsed tree, and an element path is a single tag.
- Collections.Collection.PromoteToCurated: modelled over the corrected refresh. As written, the refresh at collection.py:225 raises AttributeError for any collection with a pattern row, after the promotion is committed; the model returns normally (the raise is exhibited by `RefreshUrlListsForAllPatternsAsWritten`).
- Collections.Collection.SaveWorkflowStatus: modelled over the corrected refresh, so a change to CURATED promotes and returns normally; as written the post-save promotion raises AttributeError for any collection with a pattern row.
- DbToXml.XmlEditor.AddDocumentTypeMapping: modelled over the corrected `_generic_mapping`; as written it raises TypeError once a Mapping named `sourcestr56` exists.
- DbToXml.XmlEditor.AddTitleMapping: modelled over the corrected `_generic_mapping`; as written every title mapping after the first raises TypeError, because a Mapping named `title` then exists.
- DbToXml.XmlEditor.AddId: modelled over the corrected `_generic_mapping`; as written it raises TypeError once a Mapping named `id` exists.
- DbToXml.XmlEditor.AddDocumentType: modelled over the corrected `_generic_mapping`; as written it raises TypeError once a Mapping named `sourcestr56` exists.
- Serializers.PatternTable.ValidateMatchPattern, Serializers.PatternTable.Create (through its hook), Views.CreateToggled, Views.CreateDocumentType and Views.CreateDivision (through the serializer's hook): the rows they delete go through the pattern's `delete()`, which first unapplies the pattern (delta_patterns.py:114-117), possibly in another collection, whose matched deltas then lose their generated title, document type or division. These members work on pattern rows only; the unapply is what `Collections.Collection.DeletePattern` models.
- Collections.Collection.PromoteDelta, Collections.Collection.PromoteDeltas and Collections.Collection.PromoteToCurated: `delta._meta.fields` includes the primary key (collection.py:200-218), so the source copies the delta's `id` onto an updated curated row and creates a new one with it. Either statement can raise IntegrityError part-way through the loop, on a duplicate key or on membership rows that still point at the old key, leaving the earlier promotions committed. The model has no record ids, so it copies no key and always returns normally.
- Tasks.GetDataToImport: requires that some page reports a row count of 0, because the source's loop never ends otherwise.

## Findings

| source | as written | input that shows it | evidently intended | confidence | as-written member | corrected member |
|---|---|---|---|---|---|---|
| sde_collections/models/delta_url.py:10-25 | `excluded` looks at exclude memberships only | a url listed by both an exclude and an include pattern is flagged excluded | an include pattern overrides an exclude pattern, as the include tests expect | medium, not executed | DeltaUrls.ExclusionIgnoresIncludes | DeltaUrls.IncludeOverridesExclude |
| sde_collections/models/collection.py:116-118 | calls `update_affected_delta_urls_list` and `update_affected_curated_urls_list`, which no pattern model defines | any collection with at least one pattern row raises AttributeError | refresh every pattern's membership with `refresh_url_lists` | high, not executed | Collections.Collection.RefreshUrlListsForAllPatternsAsWritten | Collections.Collection.RefreshUrlListsForAllPatterns |
| config_generation/db_to_xml.py:140-155 | `_standardize_selection` has no `self` and calls `set` with two arguments | a second `_generic_mapping` call with a Name an existing Mapping carries raises TypeError | return the selection and its quote-standardized form | high, not executed | DbToXml.SameNameRaisesAsWritten | DbToXml.XmlEditor.GenericMapping |
| config_generation/db_to_xml.py:148 | replaces double quotes by single ones in the new selection | a new selection `doc.url1 match 'x'` never matches an old `doc.url1 match "x"` | turn the new selection's single quotes into double ones, so that the old form is found | medium, not executed | DbToXml.OldSelectionMissedAsWritten | DbToXml.OldSelectionRecognised |
| sde_collections/tasks.py:255 | the progress message reads `collection.config_name`, which `Collection` (collection.py:36-86) does not define | any call, once the dump is emptied, raises AttributeError and creates no row | name the collection by a field it has and refill the dump from the fetched documents | high, not executed | Tasks.FetchAndReplaceFullTextAsWritten | Tasks.FetchAndReplaceFullText |
