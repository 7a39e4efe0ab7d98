/**
 * Match patterns: curator rules that pick urls of a collection by a pattern and
 * act on them. Every pattern keeps two membership sets, the delta urls and the
 * curated urls it matched when last applied.
 *
 * - An exclude or include pattern only creates deltas for the curated urls it
 *   matches and records its membership.
 * - A document-type or division pattern does the same and then sets its field on
 *   every matching delta url.
 * - A title pattern resolves a title for every matching delta url, and creates or
 *   updates a delta for every matching curated url whose title would change.
 *
 * The title resolver is not part of this model: it is a parameter that returns a
 * title or the message of the error it raised.
 */
module DeltaPatterns {
  import opened Wrappers
  import opened DeltaUrls
  import opened PatternRegex

  /** What a pattern does to the urls it matches; one constructor per pattern model. */
  datatype Effect =
    | ExcludeUrls(reason: string)
    | IncludeUrls
    | SetTitle(titlePattern: string)
    | SetDocumentType(documentType: int)
    | SetDivision(division: int)

  /** The content of a pattern row. */
  datatype Rule = Rule(matchPattern: string, matchType: MatchType, effect: Effect)

  /** The context a title pattern is resolved in. */
  datatype TitleContext = TitleContext(url: string, title: string, collection: string)

  /** A title resolver: the resolved title, or the message of the error it raised. */
  type TitleResolver = (string, TitleContext) -> Result<string, string>

  /** One entry of `update_fields`: a field and the value every matching delta gets. */
  datatype FieldUpdate = FieldUpdate(field: Field, value: FieldValue)

  function Lookup<V>(m: map<string, V>, u: string): Option<V>
  {
    if u in m then Some(m[u]) else None
  }

  // ------------------------------------------------------------------ matching

  /** The rows of one tier whose url matches the rule's pattern. */
  function MatchingUrls<V>(m: map<string, V>, rule: Rule): (s: set<string>)
    ensures s <= m.Keys
    ensures forall u :: u in m && Matches(rule.matchPattern, rule.matchType, u) ==> u in s
  {
    set u | u in m && Matches(rule.matchPattern, rule.matchType, u)
  }

  function DeltaMatches(rows: Rows, rule: Rule): set<string>
  {
    MatchingUrls(rows.delta, rule)
  }

  function CuratedMatches(rows: Rows, rule: Rule): set<string>
  {
    MatchingUrls(rows.curated, rule)
  }

  // -------------------------------------------------------- generate_delta_url

  /** Copy the listed fields from `from` into `r`. */
  function CopyFields(r: UrlRecord, from: UrlRecord, fields: seq<Field>): UrlRecord
    decreases |fields|
  {
    if fields == [] then r else CopyFields(Set(r, fields[0], Get(from, fields[0])), from, fields[1..])
  }

  /** For each listed field, in order: when `r`'s value is blank, take `from`'s. */
  function FillBlanks(r: UrlRecord, from: UrlRecord, fields: seq<Field>): UrlRecord
    decreases |fields|
  {
    if fields == [] then r
    else
      var f := fields[0];
      FillBlanks(if IsBlank(Get(r, f)) then Set(r, f, Get(from, f)) else r, from, fields[1..])
  }

  lemma {:induction false} CopyFieldsAt(r: UrlRecord, from: UrlRecord, fields: seq<Field>, g: Field)
    ensures Get(CopyFields(r, from, fields), g) == if g in fields then Get(from, g) else Get(r, g)
    decreases |fields|
  {
    if fields != [] {
      CopyFieldsAt(Set(r, fields[0], Get(from, fields[0])), from, fields[1..], g);
      assert g in fields <==> g == fields[0] || g in fields[1..];
    }
  }

  lemma {:induction false} FillBlanksAt(r: UrlRecord, from: UrlRecord, fields: seq<Field>, g: Field)
    ensures Get(FillBlanks(r, from, fields), g)
         == if g in fields && IsBlank(Get(r, g)) then Get(from, g) else Get(r, g)
    decreases |fields|
  {
    if fields != [] {
      var f := fields[0];
      var r1 := if IsBlank(Get(r, f)) then Set(r, f, Get(from, f)) else r;
      FillBlanksAt(r1, from, fields[1..], g);
      assert g in fields <==> g == f || g in fields[1..];
    }
  }

  /** The delta row `generate_delta_url` leaves for a curated url. */
  function GeneratedDelta(existing: Option<DeltaRecord>, curated: UrlRecord, fieldsToCopy: seq<Field>): DeltaRecord
  {
    match existing
    case None => DeltaRecord(CopyFields(BlankRecord, curated, fieldsToCopy), false)
    case Some(d) =>
      if fieldsToCopy == [] then d else DeltaRecord(FillBlanks(d.rec, curated, fieldsToCopy), d.toDelete)
  }

  /**
   * A new delta takes the listed fields from the curated row and defaults for the
   * rest; an existing delta keeps every non-blank value and fills only the listed
   * blank ones from the curated row.
   */
  lemma GeneratedDeltaFields(existing: Option<DeltaRecord>, curated: UrlRecord, fields: seq<Field>, g: Field)
    ensures existing.None? ==>
      !GeneratedDelta(existing, curated, fields).toDelete &&
      Get(GeneratedDelta(existing, curated, fields).rec, g)
        == (if g in fields then Get(curated, g) else Get(BlankRecord, g))
    ensures existing.Some? ==>
      GeneratedDelta(existing, curated, fields).toDelete == existing.value.toDelete &&
      Get(GeneratedDelta(existing, curated, fields).rec, g)
        == (if g in fields && IsBlank(Get(existing.value.rec, g)) then Get(curated, g) else Get(existing.value.rec, g))
  {
    if existing.None? {
      CopyFieldsAt(BlankRecord, curated, fields, g);
    } else if fields != [] {
      FillBlanksAt(existing.value.rec, curated, fields, g);
    }
  }

  // --------------------------------------------------------------- base apply

  /** The delta table after `generate_delta_url` ran for every url in `targets`. */
  function GenerateAll(delta: map<string, DeltaRecord>, curated: map<string, UrlRecord>,
                       targets: set<string>, fields: seq<Field>): map<string, DeltaRecord>
    requires targets <= curated.Keys
  {
    delta + map u | u in targets :: GeneratedDelta(Lookup(delta, u), curated[u], fields)
  }

  lemma GenerateAllEmpty(delta: map<string, DeltaRecord>, curated: map<string, UrlRecord>, fields: seq<Field>)
    ensures GenerateAll(delta, curated, {}, fields) == delta
  {
  }

  /** Generating one more url adds its generated row to what the others left. */
  lemma GenerateAllStep(delta: map<string, DeltaRecord>, curated: map<string, UrlRecord>,
                        done: set<string>, fields: seq<Field>, u: string)
    requires done <= curated.Keys && u in curated && u !in done
    ensures Lookup(GenerateAll(delta, curated, done, fields), u) == Lookup(delta, u)
    ensures GenerateAll(delta, curated, done, fields)[u := GeneratedDelta(Lookup(delta, u), curated[u], fields)]
         == GenerateAll(delta, curated, done + {u}, fields)
  {
    var a := GenerateAll(delta, curated, done, fields)[u := GeneratedDelta(Lookup(delta, u), curated[u], fields)];
    var b := GenerateAll(delta, curated, done + {u}, fields);
    assert a.Keys == b.Keys;
  }

  /** A bulk `update(field=value)` of the delta rows in `targets`. */
  function UpdateField(delta: map<string, DeltaRecord>, targets: set<string>, f: Field, v: FieldValue): map<string, DeltaRecord>
    requires Fits(f, v)
  {
    map u | u in delta :: if u in targets then DeltaRecord(Set(delta[u].rec, f, v), delta[u].toDelete) else delta[u]
  }

  predicate UpdateFits(update: Option<FieldUpdate>)
  {
    update.Some? ==> Fits(update.value.field, update.value.value)
  }

  /**
   * The base `apply`: generate a delta for every matching curated url, then set
   * the update field on every delta that matches at that point, which includes
   * the deltas just generated.
   */
  function BaseApply(rows: Rows, rule: Rule, fields: seq<Field>, update: Option<FieldUpdate>): Rows
    requires UpdateFits(update)
  {
    var generated := rows.(delta := GenerateAll(rows.delta, rows.curated, CuratedMatches(rows, rule), fields));
    match update
    case None => generated
    case Some(FieldUpdate(f, v)) =>
      generated.(delta := UpdateField(generated.delta, DeltaMatches(generated, rule), f, v))
  }

  /** Field values that a second `generate_delta_url` would leave as they are. */
  ghost predicate Saturated(r: UrlRecord, curated: UrlRecord, fields: seq<Field>)
  {
    forall g :: g in fields && IsBlank(Get(r, g)) ==> Get(r, g) == Get(curated, g)
  }

  lemma GeneratedIsSaturated(existing: Option<DeltaRecord>, curated: UrlRecord, fields: seq<Field>)
    ensures Saturated(GeneratedDelta(existing, curated, fields).rec, curated, fields)
  {
    forall g | g in fields && IsBlank(Get(GeneratedDelta(existing, curated, fields).rec, g))
      ensures Get(GeneratedDelta(existing, curated, fields).rec, g) == Get(curated, g)
    {
      GeneratedDeltaFields(existing, curated, fields, g);
    }
  }

  lemma RegenerateSaturated(d: DeltaRecord, curated: UrlRecord, fields: seq<Field>)
    requires Saturated(d.rec, curated, fields)
    ensures GeneratedDelta(Some(d), curated, fields) == d
  {
    if fields != [] {
      forall g ensures Get(FillBlanks(d.rec, curated, fields), g) == Get(d.rec, g) {
        FillBlanksAt(d.rec, curated, fields, g);
      }
      SameFieldsSameRecord(FillBlanks(d.rec, curated, fields), d.rec);
    }
  }

  lemma SetTwice(r: UrlRecord, f: Field, v: FieldValue)
    requires Fits(f, v)
    ensures Set(Set(r, f, v), f, v) == Set(r, f, v)
  {
    forall g ensures Get(Set(Set(r, f, v), f, v), g) == Get(Set(r, f, v), g) {
    }
    SameFieldsSameRecord(Set(Set(r, f, v), f, v), Set(r, f, v));
  }

  lemma RegenerateAllSaturated(delta: map<string, DeltaRecord>, curated: map<string, UrlRecord>,
                                targets: set<string>, fields: seq<Field>)
    requires targets <= curated.Keys && targets <= delta.Keys
    requires forall u :: u in targets ==> Saturated(delta[u].rec, curated[u], fields)
    ensures GenerateAll(delta, curated, targets, fields) == delta
  {
    forall u | u in targets ensures GenerateAll(delta, curated, targets, fields)[u] == delta[u] {
      RegenerateSaturated(delta[u], curated[u], fields);
    }
  }

  lemma SetKeepsSaturated(r: UrlRecord, curated: UrlRecord, fields: seq<Field>, f: Field, v: FieldValue)
    requires Fits(f, v) && !IsBlank(v) && Saturated(r, curated, fields)
    ensures Saturated(Set(r, f, v), curated, fields)
  {
  }

  lemma UpdateFieldTwice(delta: map<string, DeltaRecord>, targets: set<string>, f: Field, v: FieldValue)
    requires Fits(f, v)
    ensures UpdateField(UpdateField(delta, targets, f, v), targets, f, v) == UpdateField(delta, targets, f, v)
  {
    forall u | u in delta && u in targets
      ensures Set(Set(delta[u].rec, f, v), f, v) == Set(delta[u].rec, f, v)
    {
      SetTwice(delta[u].rec, f, v);
    }
  }

  /** Applying a pattern a second time changes no row (when its update value is not blank). */
  lemma BaseApplyIdempotent(rows: Rows, rule: Rule, fields: seq<Field>, update: Option<FieldUpdate>)
    requires UpdateFits(update)
    requires update.Some? ==> !IsBlank(update.value.value)
    ensures BaseApply(BaseApply(rows, rule, fields, update), rule, fields, update) == BaseApply(rows, rule, fields, update)
  {
    var C := CuratedMatches(rows, rule);
    var r1 := BaseApply(rows, rule, fields, update);
    var gen1 := GenerateAll(rows.delta, rows.curated, C, fields);
    assert CuratedMatches(r1, rule) == C;
    forall u | u in C ensures Saturated(gen1[u].rec, rows.curated[u], fields) {
      GeneratedIsSaturated(Lookup(rows.delta, u), rows.curated[u], fields);
    }
    if update.Some? {
      var f, v := update.value.field, update.value.value;
      var T := DeltaMatches(rows.(delta := gen1), rule);
      assert r1.delta == UpdateField(gen1, T, f, v);
      forall u | u in C ensures Saturated(r1.delta[u].rec, rows.curated[u], fields) {
        if u in T {
          SetKeepsSaturated(gen1[u].rec, rows.curated[u], fields, f, v);
        }
      }
      RegenerateAllSaturated(r1.delta, rows.curated, C, fields);
      assert DeltaMatches(r1, rule) == T;
      UpdateFieldTwice(gen1, T, f, v);
    } else {
      RegenerateAllSaturated(gen1, rows.curated, C, fields);
    }
  }

  /**
   * After the base `apply`: every matching curated url has a delta, every
   * matching delta carries the update value, curated rows and non-matching deltas
   * are as before, and nothing else changed.
   */
  lemma BaseApplyEffect(rows: Rows, rule: Rule, fields: seq<Field>, update: Option<FieldUpdate>)
    requires UpdateFits(update)
    ensures var r := BaseApply(rows, rule, fields, update);
      && r.dump == rows.dump && r.curated == rows.curated
      && r.resolved == rows.resolved && r.errors == rows.errors
      && r.delta.Keys == rows.delta.Keys + CuratedMatches(rows, rule)
      && (forall u :: u in rows.delta && !Matches(rule.matchPattern, rule.matchType, u) ==> r.delta[u] == rows.delta[u])
      && (update.Some? ==> forall u :: u in DeltaMatches(r, rule) ==> Get(r.delta[u].rec, update.value.field) == update.value.value)
  {
  }

  // ------------------------------------------------------------------ unapply

  /** The rows after `unapply`, given the pattern's delta membership. */
  function UnapplyRows(rows: Rows, rule: Rule, deltaMembers: set<string>): Rows
  {
    match rule.effect
    case SetTitle(_) => rows.(delta := UpdateField(rows.delta, DeltaMatches(rows, rule), GeneratedTitle, Text("")))
    case SetDocumentType(_) => rows.(delta := UpdateField(rows.delta, deltaMembers, DocumentType, Number(None)))
    case SetDivision(_) => rows.(delta := UpdateField(rows.delta, deltaMembers, Division, Number(None)))
    case _ => rows
  }

  /** The resolved titles written by any title pattern but the one with this match pattern. */
  function ResolvedNotBy(m: map<string, ResolvedTitle>, pattern: string): map<string, ResolvedTitle>
  {
    map u | u in m && m[u].pattern != pattern :: m[u]
  }

  /** The title errors logged by any title pattern but the one with this match pattern. */
  function ErrorsNotBy(m: map<string, TitleError>, pattern: string): map<string, TitleError>
  {
    map u | u in m && m[u].pattern != pattern :: m[u]
  }

  /**
   * The rows after a pattern's `delete`: `unapply`, then the row goes, and for a
   * title pattern its resolved-title and title-error rows go with it, by the
   * cascading foreign keys.
   */
  function DeleteRows(rows: Rows, rule: Rule, deltaMembers: set<string>): Rows
  {
    var r := UnapplyRows(rows, rule, deltaMembers);
    if rule.effect.SetTitle? then r.(resolved := ResolvedNotBy(r.resolved, rule.matchPattern), errors := ErrorsNotBy(r.errors, rule.matchPattern))
    else r
  }

  /**
   * Deleting a title pattern removes exactly the resolved titles and errors it
   * wrote and keeps every other one; deleting any other pattern keeps them all.
   * The deltas are those `unapply` leaves, the dump and curated rows are kept, and
   * the one-title-row-per-delta invariant survives.
   */
  lemma DeleteRowsCascade(rows: Rows, rule: Rule, members: set<string>)
    ensures var d, un := DeleteRows(rows, rule, members), UnapplyRows(rows, rule, members);
      && d.dump == rows.dump && d.curated == rows.curated && d.delta == un.delta
      && (rule.effect.SetTitle? ==>
            && (forall u :: u in d.resolved <==> u in rows.resolved && rows.resolved[u].pattern != rule.matchPattern)
            && (forall u :: u in d.errors <==> u in rows.errors && rows.errors[u].pattern != rule.matchPattern)
            && (forall u :: u in d.resolved ==> d.resolved[u] == rows.resolved[u])
            && (forall u :: u in d.errors ==> d.errors[u] == rows.errors[u]))
      && (!rule.effect.SetTitle? ==> d.resolved == rows.resolved && d.errors == rows.errors)
      && (rows.Valid() ==> d.Valid())
  {
    var un := UnapplyRows(rows, rule, members);
    assert un.resolved == rows.resolved && un.errors == rows.errors && un.delta.Keys == rows.delta.Keys;
  }

  /** Setting a field on some deltas keeps every row and every other field. */
  lemma UpdateFieldAt(delta: map<string, DeltaRecord>, targets: set<string>, f: Field, v: FieldValue, u: string, g: Field)
    requires Fits(f, v) && u in delta
    ensures var d := UpdateField(delta, targets, f, v);
      && d.Keys == delta.Keys && d[u].toDelete == delta[u].toDelete
      && Get(d[u].rec, g) == if g == f && u in targets then v else Get(delta[u].rec, g)
  {
    var d := UpdateField(delta, targets, f, v);
    assert d.Keys == delta.Keys;
  }

  /** Unapplying never creates or deletes a row, keeps every deletion mark and leaves the curated rows alone. */
  lemma UnapplyKeepsRows(rows: Rows, rule: Rule, members: set<string>, u: string)
    requires u in rows.delta
    ensures var r := UnapplyRows(rows, rule, members);
      && r.delta.Keys == rows.delta.Keys && r.curated == rows.curated && r.dump == rows.dump
      && r.delta[u].toDelete == rows.delta[u].toDelete
  {
    match rule.effect
    case SetTitle(_) => UpdateFieldAt(rows.delta, DeltaMatches(rows, rule), GeneratedTitle, Text(""), u, GeneratedTitle);
    case SetDocumentType(_) => UpdateFieldAt(rows.delta, members, DocumentType, Number(None), u, DocumentType);
    case SetDivision(_) => UpdateFieldAt(rows.delta, members, Division, Number(None), u, Division);
    case _ =>
  }

  /**
   * A title pattern clears the generated title of every delta it matches now, a
   * document-type or division pattern clears its field on its recorded members,
   * and every other field is kept; the other patterns change nothing.
   */
  lemma UnapplyClearsOneField(rows: Rows, rule: Rule, members: set<string>, u: string, g: Field)
    requires u in rows.delta
    ensures rule.effect.SetTitle? ==> (Get(UnapplyRows(rows, rule, members).delta[u].rec, g) ==
      if g == GeneratedTitle && Matches(rule.matchPattern, rule.matchType, u) then Text("") else Get(rows.delta[u].rec, g))
    ensures rule.effect.SetDocumentType? ==> (Get(UnapplyRows(rows, rule, members).delta[u].rec, g) ==
      if g == DocumentType && u in members then Number(None) else Get(rows.delta[u].rec, g))
    ensures rule.effect.SetDivision? ==> (Get(UnapplyRows(rows, rule, members).delta[u].rec, g) ==
      if g == Division && u in members then Number(None) else Get(rows.delta[u].rec, g))
    ensures rule.effect.ExcludeUrls? || rule.effect.IncludeUrls? ==> UnapplyRows(rows, rule, members) == rows
  {
    match rule.effect
    case SetTitle(_) => UpdateFieldAt(rows.delta, DeltaMatches(rows, rule), GeneratedTitle, Text(""), u, g);
    case SetDocumentType(_) => UpdateFieldAt(rows.delta, members, DocumentType, Number(None), u, g);
    case SetDivision(_) => UpdateFieldAt(rows.delta, members, Division, Number(None), u, g);
    case _ =>
  }

  // ------------------------------------------------------------- title status

  const StatusMarker: string := "Status code: "

  predicate IsDigit(c: char)
  {
    '0' <= c <= '9'
  }

  /** The maximal run of digits at the start of `s`. */
  function LeadingDigits(s: string): (d: string)
    ensures |d| <= |s| && d == s[..|d|]
    ensures forall i :: 0 <= i < |d| ==> IsDigit(d[i])
    ensures |d| < |s| ==> !IsDigit(s[|d|])
  {
    if s == [] || !IsDigit(s[0]) then [] else [s[0]] + LeadingDigits(s[1..])
  }

  /** The value of a string of decimal digits. */
  function DecimalValue(d: string): (n: nat)
    requires forall i :: 0 <= i < |d| ==> IsDigit(d[i])
  {
    if d == [] then 0 else assert IsDigit(d[|d| - 1]); DecimalValue(d[..|d| - 1]) * 10 + (d[|d| - 1] as int - '0' as int)
  }

  /** The marker followed by a digit starts at position i of m. */
  predicate MarkerAt(m: string, i: int)
  {
    0 <= i && i + |StatusMarker| < |m| && m[i..i + |StatusMarker|] == StatusMarker && IsDigit(m[i + |StatusMarker|])
  }

  /** `re.search(r"Status code: (\d+)", m)`: the number after the first marker followed by a digit. */
  function StatusCode(m: string): (code: Option<int>)
    ensures code.Some? <==> exists i :: MarkerAt(m, i)
    ensures code.Some? ==> code.value >= 0
    decreases |m|
  {
    if |m| <= |StatusMarker| then None
    else if MarkerAt(m, 0) then Some(DecimalValue(LeadingDigits(m[|StatusMarker|..])))
    else
      var rest := StatusCode(m[1..]);
      assert forall i :: MarkerAt(m[1..], i) ==> MarkerAt(m, i + 1) by {
        forall i | MarkerAt(m[1..], i) ensures MarkerAt(m, i + 1) {
          assert m[i + 1..i + 1 + |StatusMarker|] == m[1..][i..i + |StatusMarker|];
        }
      }
      assert forall i :: MarkerAt(m, i) && i > 0 ==> MarkerAt(m[1..], i - 1) by {
        forall i | MarkerAt(m, i) && i > 0 ensures MarkerAt(m[1..], i - 1) {
          assert m[i..i + |StatusMarker|] == m[1..][i - 1..i - 1 + |StatusMarker|];
        }
      }
      rest
  }

  lemma {:induction false} LeadingDigitsOf(digits: string, rest: string)
    requires forall i :: 0 <= i < |digits| ==> IsDigit(digits[i])
    requires rest == [] || !IsDigit(rest[0])
    ensures LeadingDigits(digits + rest) == digits
  {
    if digits == [] {
      assert digits + rest == rest;
    } else {
      assert (digits + rest)[0] == digits[0] && (digits + rest)[1..] == digits[1..] + rest;
      LeadingDigitsOf(digits[1..], rest);
      assert digits == [digits[0]] + digits[1..];
    }
  }

  /** A message that starts with the marker and a number yields that number. */
  lemma StatusCodeOfMessage(digits: string, rest: string)
    requires digits != [] && forall i :: 0 <= i < |digits| ==> IsDigit(digits[i])
    requires rest == [] || !IsDigit(rest[0])
    ensures StatusCode(StatusMarker + digits + rest) == Some(DecimalValue(digits))
  {
    var m := StatusMarker + digits + rest;
    assert m[..|StatusMarker|] == StatusMarker && m[|StatusMarker|] == digits[0];
    assert MarkerAt(m, 0);
    assert m[|StatusMarker|..] == digits + rest;
    LeadingDigitsOf(digits, rest);
  }

  // ------------------------------------------------------------ title slices

  /** The rows title resolution may touch for one url: its delta, resolved title and error. */
  datatype Slice = Slice(delta: Option<DeltaRecord>, resolved: Option<ResolvedTitle>, error: Option<TitleError>)

  function SliceOf(rows: Rows, u: string): Slice
  {
    Slice(Lookup(rows.delta, u), Lookup(rows.resolved, u), Lookup(rows.errors, u))
  }

  function Put<V>(m: map<string, V>, u: string, v: Option<V>): map<string, V>
  {
    if v.Some? then m[u := v.value] else m - {u}
  }

  /** The rows with the slice of u replaced. */
  function PutSlice(rows: Rows, u: string, s: Slice): Rows
  {
    rows.(delta := Put(rows.delta, u, s.delta),
          resolved := Put(rows.resolved, u, s.resolved),
          errors := Put(rows.errors, u, s.error))
  }

  /** The errors table row for a title error: message and status code parsed from it. */
  function ErrorRow(pattern: string, message: string): TitleError
  {
    TitleError(pattern, message, StatusCode(message))
  }

  /** What the title pattern resolves with. */
  datatype TitleParams = TitleParams(pattern: string, template: string, collection: string, resolve: TitleResolver)

  /** `log_title_error` for a delta url's slice: a second error row for it violates the one-to-one key. */
  function LogErrorSlice(s: Slice, p: TitleParams, message: string): Result<Slice, PyError>
  {
    if s.error.Some? then Err(IntegrityError) else Ok(s.(error := Some(ErrorRow(p.pattern, message))))
  }

  /** `apply_title_to_url` for a delta url's slice. */
  function TitleToUrlSlice(s: Slice, u: string, p: TitleParams): Result<Slice, PyError>
    requires s.delta.Some?
  {
    var d := s.delta.value;
    match p.resolve(p.template, TitleContext(u, d.rec.scrapedTitle, p.collection))
    case Ok(t) =>
      Ok(s.(delta := Some(d.(rec := d.rec.(generatedTitle := t))), resolved := Some(ResolvedTitle(p.pattern, t))))
    case Err(m) => LogErrorSlice(s, p, m)
  }

  /**
   * `create_delta_if_title_differs` for a curated row and its url's slice. A
   * resolution error is logged against the curated row, which the error table's
   * delta-url key refuses with a ValueError that nothing catches.
   */
  function TitleIfDiffersSlice(s: Slice, u: string, c: UrlRecord, p: TitleParams): Result<Slice, PyError>
  {
    match p.resolve(p.template, TitleContext(u, c.scrapedTitle, p.collection))
    case Err(_) => Err(ValueError)
    case Ok(t) =>
      if c.generatedTitle == t then Ok(s)
      else
        var d := if s.delta.Some? then s.delta.value else DeltaRecord(BlankRecord.(scrapedTitle := c.scrapedTitle), false);
        TitleToUrlSlice(s.(delta := Some(d.(rec := d.rec.(generatedTitle := t)))), u, p)
  }

  function Step1(rows: Rows, u: string, p: TitleParams): Result<Slice, PyError>
  {
    if u in rows.delta then TitleToUrlSlice(SliceOf(rows, u), u, p) else Ok(SliceOf(rows, u))
  }

  function Step2(rows: Rows, u: string, p: TitleParams): Result<Slice, PyError>
  {
    if u in rows.curated then TitleIfDiffersSlice(SliceOf(rows, u), u, rows.curated[u], p) else Ok(SliceOf(rows, u))
  }

  /** The two passes of the title pattern's `apply`. */
  datatype TitleStep = ResolveDeltas | ResolveCurated

  function StepResult(rows: Rows, step: TitleStep, p: TitleParams, u: string): Result<Slice, PyError>
  {
    match step
    case ResolveDeltas => Step1(rows, u, p)
    case ResolveCurated => Step2(rows, u, p)
  }

  /** The slice a pass leaves for u, when it does not raise there. */
  function Outcome(rows: Rows, step: TitleStep, p: TitleParams, u: string): Slice
  {
    var r := StepResult(rows, step, p, u);
    if r.Ok? then r.value else SliceOf(rows, u)
  }

  /** What a pass leaves for every url in `us`. */
  function Outcomes(rows: Rows, step: TitleStep, p: TitleParams, us: set<string>): map<string, Slice>
  {
    map u | u in us :: Outcome(rows, step, p, u)
  }

  /** `m` with the keys in `keys` replaced by the entries of `vals`. */
  function Patch<V>(m: map<string, V>, keys: set<string>, vals: map<string, V>): map<string, V>
  {
    (m - keys) + vals
  }

  lemma PatchStep<V>(m: map<string, V>, keys: set<string>, vals: map<string, V>, u: string, v: Option<V>)
    requires u !in keys && vals.Keys <= keys
    ensures Put(Patch(m, keys, vals), u, v) == Patch(m, keys + {u}, if v.Some? then vals[u := v.value] else vals)
  {
    var a, b := Put(Patch(m, keys, vals), u, v), Patch(m, keys + {u}, if v.Some? then vals[u := v.value] else vals);
    assert a.Keys == b.Keys;
  }

  function DeltaValues(out: map<string, Slice>): (r: map<string, DeltaRecord>)
    ensures r.Keys <= out.Keys
  {
    map u | u in out && out[u].delta.Some? :: out[u].delta.value
  }

  function ResolvedValues(out: map<string, Slice>): (r: map<string, ResolvedTitle>)
    ensures r.Keys <= out.Keys
  {
    map u | u in out && out[u].resolved.Some? :: out[u].resolved.value
  }

  function ErrorValues(out: map<string, Slice>): (r: map<string, TitleError>)
    ensures r.Keys <= out.Keys
  {
    map u | u in out && out[u].error.Some? :: out[u].error.value
  }

  /** The rows with the slice of every url in `out` replaced by its entry there. */
  function PutSlices(rows: Rows, out: map<string, Slice>): Rows
  {
    rows.(delta := Patch(rows.delta, out.Keys, DeltaValues(out)),
          resolved := Patch(rows.resolved, out.Keys, ResolvedValues(out)),
          errors := Patch(rows.errors, out.Keys, ErrorValues(out)))
  }

  lemma PutSlicesEmpty(rows: Rows)
    ensures PutSlices(rows, map[]) == rows
  {
    var r := PutSlices(rows, map[]);
    assert r.delta == rows.delta && r.resolved == rows.resolved && r.errors == rows.errors;
  }

  lemma ValuesStep(out: map<string, Slice>, u: string, s: Slice)
    ensures DeltaValues(out[u := s]) == if s.delta.Some? then DeltaValues(out)[u := s.delta.value] else DeltaValues(out) - {u}
    ensures ResolvedValues(out[u := s]) == if s.resolved.Some? then ResolvedValues(out)[u := s.resolved.value] else ResolvedValues(out) - {u}
    ensures ErrorValues(out[u := s]) == if s.error.Some? then ErrorValues(out)[u := s.error.value] else ErrorValues(out) - {u}
  {
  }

  lemma PutSlicesStep(rows: Rows, out: map<string, Slice>, u: string, s: Slice)
    requires u !in out
    ensures PutSlice(PutSlices(rows, out), u, s) == PutSlices(rows, out[u := s])
  {
    ValuesStep(out, u, s);
    assert out[u := s].Keys == out.Keys + {u};
    assert DeltaValues(out) - {u} == DeltaValues(out);
    assert ResolvedValues(out) - {u} == ResolvedValues(out);
    assert ErrorValues(out) - {u} == ErrorValues(out);
    PatchStep(rows.delta, out.Keys, DeltaValues(out), u, s.delta);
    PatchStep(rows.resolved, out.Keys, ResolvedValues(out), u, s.resolved);
    PatchStep(rows.errors, out.Keys, ErrorValues(out), u, s.error);
  }

  lemma SliceOfPutSlices(rows: Rows, out: map<string, Slice>, u: string)
    ensures SliceOf(PutSlices(rows, out), u) == if u in out then out[u] else SliceOf(rows, u)
  {
  }

  lemma OutcomesStep(rows: Rows, step: TitleStep, p: TitleParams, us: set<string>, u: string)
    ensures Outcomes(rows, step, p, us)[u := Outcome(rows, step, p, u)] == Outcomes(rows, step, p, us + {u})
  {
  }

  /** A pass depends on the rows only through the url's own slice and the curated table. */
  lemma StepLocal(rows: Rows, other: Rows, step: TitleStep, p: TitleParams, u: string)
    requires SliceOf(rows, u) == SliceOf(other, u) && rows.curated == other.curated
    ensures StepResult(rows, step, p, u) == StepResult(other, step, p, u)
  {
    assert (u in rows.delta) == (u in other.delta);
  }

  /**
   * A pass over the urls in the order the rows come in: None as soon as one
   * raises, otherwise the rows after every url in turn.
   */
  function PassInOrder(rows: Rows, step: TitleStep, p: TitleParams, us: seq<string>): Option<Rows>
    decreases |us|
  {
    if us == [] then Some(rows)
    else match PassInOrder(rows, step, p, us[..|us| - 1])
      case None => None
      case Some(r) =>
        var res := StepResult(r, step, p, us[|us| - 1]);
        if res.Ok? then Some(PutSlice(r, us[|us| - 1], res.value)) else None
  }

  /** The urls before the last one of a sequence without repeats are the others. */
  lemma PrefixUrls(us: seq<string>, targets: set<string>)
    requires us != [] && forall i, j :: 0 <= i < j < |us| ==> us[i] != us[j]
    requires forall u :: u in us <==> u in targets
    ensures forall v :: v in us[..|us| - 1] <==> v in targets && v != us[|us| - 1]
  {
    var prefix, u := us[..|us| - 1], us[|us| - 1];
    forall v ensures v in prefix <==> v in targets && v != u {
      if v in prefix {
        var i :| 0 <= i < |prefix| && prefix[i] == v;
        assert us[i] == v;
      }
      if v in us && v != u {
        var i :| 0 <= i < |us| && us[i] == v;
        assert prefix[i] == v;
      }
    }
  }

  /** After the outcomes of the other urls of `targets`, the last one of a pass gets its own outcome. */
  lemma PassStep(rows: Rows, step: TitleStep, p: TitleParams, targets: set<string>, u: string)
    requires u in targets
    ensures var r := PutSlices(rows, Outcomes(rows, step, p, targets - {u}));
      && StepResult(r, step, p, u) == StepResult(rows, step, p, u)
      && (StepResult(rows, step, p, u).Ok? ==>
            PutSlice(r, u, StepResult(rows, step, p, u).value) == PutSlices(rows, Outcomes(rows, step, p, targets)))
  {
    var rest := targets - {u};
    var out := Outcomes(rows, step, p, rest);
    SliceOfPutSlices(rows, out, u);
    StepLocal(PutSlices(rows, out), rows, step, p, u);
    PutSlicesStep(rows, out, u, Outcome(rows, step, p, u));
    OutcomesStep(rows, step, p, rest, u);
    assert rest + {u} == targets;
  }

  /**
   * The order does not matter: a pass over the urls of `targets`, in any order,
   * raises exactly when one of them raises on the rows it started from, and
   * otherwise leaves every url with its own outcome.
   */
  lemma {:induction false} PassInOrderOutcomes(rows: Rows, step: TitleStep, p: TitleParams, us: seq<string>, targets: set<string>)
    requires forall i, j :: 0 <= i < j < |us| ==> us[i] != us[j]
    requires forall u :: u in us <==> u in targets
    ensures PassInOrder(rows, step, p, us).Some? <==> forall u :: u in targets ==> StepResult(rows, step, p, u).Ok?
    ensures PassInOrder(rows, step, p, us).Some? ==> PassInOrder(rows, step, p, us).value == PutSlices(rows, Outcomes(rows, step, p, targets))
    decreases |us|
  {
    if us == [] {
      PutSlicesEmpty(rows);
      assert Outcomes(rows, step, p, targets) == map[];
    } else {
      var prefix, u := us[..|us| - 1], us[|us| - 1];
      PrefixUrls(us, targets);
      PassInOrderOutcomes(rows, step, p, prefix, targets - {u});
      PassStep(rows, step, p, targets, u);
    }
  }

  /** The rows after step one (every matching delta url resolved). */
  function TitleStep1(rows: Rows, rule: Rule, p: TitleParams): Rows
  {
    PutSlices(rows, Outcomes(rows, ResolveDeltas, p, DeltaMatches(rows, rule)))
  }

  /**
   * The title pattern's `apply`: None when it raises, otherwise the rows after
   * both steps. Every url is handled on its own slice, so whether it raises does
   * not depend on the order the rows come in.
   */
  function TitleApply(rows: Rows, rule: Rule, p: TitleParams): Option<Rows>
  {
    if !(forall u :: u in DeltaMatches(rows, rule) ==> Step1(rows, u, p).Ok?) then None
    else
      var rows1 := TitleStep1(rows, rule, p);
      if !(forall u :: u in CuratedMatches(rows1, rule) ==> Step2(rows1, u, p).Ok?) then None
      else Some(PutSlices(rows1, Outcomes(rows1, ResolveCurated, p, CuratedMatches(rows1, rule))))
  }

  /** The slice of one url after each of the two steps of a title apply that does not raise. */
  lemma TitleApplySlices(rows: Rows, rule: Rule, p: TitleParams, u: string)
    requires TitleApply(rows, rule, p).Some?
    ensures var rows1 := TitleStep1(rows, rule, p);
      && rows1.curated == rows.curated
      && (u in rows.delta && Matches(rule.matchPattern, rule.matchType, u) ==>
            Step1(rows, u, p).Ok? && SliceOf(rows1, u) == Step1(rows, u, p).value)
      && (!(u in rows.delta && Matches(rule.matchPattern, rule.matchType, u)) ==> SliceOf(rows1, u) == SliceOf(rows, u))
      && (u in rows.curated && Matches(rule.matchPattern, rule.matchType, u) ==>
            Step2(rows1, u, p).Ok? && SliceOf(TitleApply(rows, rule, p).value, u) == Step2(rows1, u, p).value)
      && (!(u in rows.curated && Matches(rule.matchPattern, rule.matchType, u)) ==>
            SliceOf(TitleApply(rows, rule, p).value, u) == SliceOf(rows1, u))
  {
    var rows1 := TitleStep1(rows, rule, p);
    var D := DeltaMatches(rows, rule);
    SliceOfPutSlices(rows, Outcomes(rows, ResolveDeltas, p, D), u);
    assert rows1.curated == rows.curated;
    var C := CuratedMatches(rows1, rule);
    SliceOfPutSlices(rows1, Outcomes(rows1, ResolveCurated, p, C), u);
    if u in rows.delta && Matches(rule.matchPattern, rule.matchType, u) {
      assert u in D;
    }
    if u in rows.curated && Matches(rule.matchPattern, rule.matchType, u) {
      assert u in C;
    }
  }

  /**
   * On a delta url's slice, the curated step never changes what the delta step
   * left when it does not raise: it re-resolves from the delta's own scraped title.
   */
  lemma CuratedStepKeepsDeltaSlice(s: Slice, u: string, c: UrlRecord, p: TitleParams)
    requires s.delta.Some? && TitleToUrlSlice(s, u, p).Ok?
    requires TitleIfDiffersSlice(TitleToUrlSlice(s, u, p).value, u, c, p).Ok?
    ensures TitleIfDiffersSlice(TitleToUrlSlice(s, u, p).value, u, c, p).value == TitleToUrlSlice(s, u, p).value
  {
  }

  /**
   * The delta step on one url's slice: the resolved title becomes the delta's
   * generated title and the resolved-title row, or a failure adds the first error row.
   */
  lemma DeltaStepSlice(s: Slice, u: string, p: TitleParams)
    requires s.delta.Some? && TitleToUrlSlice(s, u, p).Ok?
    ensures var d := s.delta.value;
      var res := p.resolve(p.template, TitleContext(u, d.rec.scrapedTitle, p.collection));
      var after := TitleToUrlSlice(s, u, p).value;
      && (res.Ok? ==> after == Slice(Some(d.(rec := d.rec.(generatedTitle := res.value))), Some(ResolvedTitle(p.pattern, res.value)), s.error))
      && (res.Err? ==> s.error.None? && after == Slice(s.delta, s.resolved, Some(ErrorRow(p.pattern, res.error))))
  {
  }

  /**
   * The curated step on one url's slice: it resolves from the curated row, keeps
   * the slice when the curated title already equals the result, and otherwise
   * leaves a delta, a new one built from the curated scraped title when there was none.
   */
  lemma CuratedStepSlice(s: Slice, u: string, c: UrlRecord, p: TitleParams)
    requires TitleIfDiffersSlice(s, u, c, p).Ok?
    ensures var res := p.resolve(p.template, TitleContext(u, c.scrapedTitle, p.collection));
      var after := TitleIfDiffersSlice(s, u, c, p).value;
      && res.Ok?
      && (res.value == c.generatedTitle ==> after == s)
      && (res.value != c.generatedTitle ==> after.delta.Some?)
      && (s.delta.None? && res.value != c.generatedTitle ==>
            && after.delta == Some(DeltaRecord(BlankRecord.(scrapedTitle := c.scrapedTitle, generatedTitle := res.value), false))
            && after.resolved == Some(ResolvedTitle(p.pattern, res.value)))
  {
  }

  /**
   * A matching delta url, whether or not a curated row shares its url, ends with
   * the resolved title as its generated title and as its one resolved-title row,
   * or, when resolution fails, with a new error row whose status code is parsed
   * from the message; any other url that nothing matched keeps its slice.
   */
  lemma TitleApplyDeltaUrl(rows: Rows, rule: Rule, p: TitleParams, u: string)
    requires TitleApply(rows, rule, p).Some?
    requires u in rows.delta
    ensures var r := TitleApply(rows, rule, p).value;
      var ctx := TitleContext(u, rows.delta[u].rec.scrapedTitle, p.collection);
      && (Matches(rule.matchPattern, rule.matchType, u) && p.resolve(p.template, ctx).Ok? ==>
            u in r.delta && u in r.resolved
            && r.delta[u] == rows.delta[u].(rec := rows.delta[u].rec.(generatedTitle := p.resolve(p.template, ctx).value))
            && r.resolved[u] == ResolvedTitle(p.pattern, p.resolve(p.template, ctx).value)
            && Lookup(r.errors, u) == Lookup(rows.errors, u))
      && (Matches(rule.matchPattern, rule.matchType, u) && p.resolve(p.template, ctx).Err? ==>
            u !in rows.errors && u in r.errors
            && r.errors[u] == ErrorRow(p.pattern, p.resolve(p.template, ctx).error)
            && SliceOf(r, u).delta == Some(rows.delta[u])
            && Lookup(r.resolved, u) == Lookup(rows.resolved, u))
      && (!Matches(rule.matchPattern, rule.matchType, u) ==> SliceOf(r, u) == SliceOf(rows, u))
  {
    var r := TitleApply(rows, rule, p).value;
    var rows1 := TitleStep1(rows, rule, p);
    TitleApplySlices(rows, rule, p, u);
    if Matches(rule.matchPattern, rule.matchType, u) {
      var s1 := Step1(rows, u, p).value;
      assert s1 == TitleToUrlSlice(SliceOf(rows, u), u, p).value;
      DeltaStepSlice(SliceOf(rows, u), u, p);
      if u in rows.curated {
        assert SliceOf(rows1, u) == s1;
        CuratedStepKeepsDeltaSlice(SliceOf(rows, u), u, rows.curated[u], p);
        assert Step2(rows1, u, p).value == s1;
      }
      assert SliceOf(r, u) == s1;
    }
  }

  /**
   * For a matching curated url the pattern resolves a title from the curated row;
   * when it equals the curated generated title the url's slice is left as step one
   * left it, and otherwise the url ends with a delta row. A curated url without a
   * delta gets, when the titles differ, a new delta carrying the curated scraped
   * title and the resolved title, and the resolved-title row; when they are equal
   * it still has no delta.
   */
  lemma TitleApplyCuratedUrl(rows: Rows, rule: Rule, p: TitleParams, u: string)
    requires TitleApply(rows, rule, p).Some?
    requires u in rows.curated && Matches(rule.matchPattern, rule.matchType, u)
    ensures var r := TitleApply(rows, rule, p).value;
      var c := rows.curated[u];
      var res := p.resolve(p.template, TitleContext(u, c.scrapedTitle, p.collection));
      && res.Ok?
      && (res.value == c.generatedTitle ==> SliceOf(r, u) == SliceOf(TitleStep1(rows, rule, p), u))
      && (res.value != c.generatedTitle ==> u in r.delta)
      && (u !in rows.delta && res.value != c.generatedTitle ==>
            && r.delta[u] == DeltaRecord(BlankRecord.(scrapedTitle := c.scrapedTitle, generatedTitle := res.value), false)
            && u in r.resolved && r.resolved[u] == ResolvedTitle(p.pattern, res.value))
      && (u !in rows.delta && res.value == c.generatedTitle ==> u !in r.delta)
  {
    var r := TitleApply(rows, rule, p).value;
    var rows1 := TitleStep1(rows, rule, p);
    TitleApplySlices(rows, rule, p, u);
    var s1 := SliceOf(rows1, u);
    assert Step2(rows1, u, p) == TitleIfDiffersSlice(s1, u, rows.curated[u], p);
    CuratedStepSlice(s1, u, rows.curated[u], p);
    assert SliceOf(r, u) == TitleIfDiffersSlice(s1, u, rows.curated[u], p).value;
    if u !in rows.delta {
      assert s1.delta == None;
    }
  }

  // ---------------------------------------------------------- apply dispatch

  /** The title parameters a rule resolves with in the given collection. */
  function ParamsOf(rule: Rule, collection: string, resolve: TitleResolver): TitleParams
  {
    TitleParams(rule.matchPattern, if rule.effect.SetTitle? then rule.effect.titlePattern else "", collection, resolve)
  }

  /** Each pattern model's `apply`; None when it raises. */
  function ApplySpec(rows: Rows, rule: Rule, collection: string, resolve: TitleResolver): Option<Rows>
  {
    match rule.effect
    case ExcludeUrls(_) => Some(BaseApply(rows, rule, [], None))
    case IncludeUrls => Some(BaseApply(rows, rule, [], None))
    case SetTitle(_) => TitleApply(rows, rule, ParamsOf(rule, collection, resolve))
    case SetDocumentType(dt) => Some(BaseApply(rows, rule, [], Some(FieldUpdate(DocumentType, Number(Some(dt))))))
    case SetDivision(dv) => Some(BaseApply(rows, rule, [], Some(FieldUpdate(Division, Number(Some(dv))))))
  }

  /** A document-type or division pattern sets its value on every delta that matches after it ran. */
  lemma FieldPatternSetsMatches(rows: Rows, rule: Rule, collection: string, resolve: TitleResolver, u: string)
    requires rule.effect.SetDocumentType? || rule.effect.SetDivision?
    requires u in rows.delta.Keys + rows.curated.Keys && Matches(rule.matchPattern, rule.matchType, u)
    ensures ApplySpec(rows, rule, collection, resolve).Some?
    ensures var r := ApplySpec(rows, rule, collection, resolve).value;
      && u in r.delta && r.curated == rows.curated
      && (rule.effect.SetDocumentType? ==> r.delta[u].rec.documentType == Some(rule.effect.documentType))
      && (rule.effect.SetDivision? ==> r.delta[u].rec.division == Some(rule.effect.division))
  {
    var update := if rule.effect.SetDocumentType? then FieldUpdate(DocumentType, Number(Some(rule.effect.documentType)))
                   else FieldUpdate(Division, Number(Some(rule.effect.division)));
    BaseApplyEffect(rows, rule, [], Some(update));
    var r := BaseApply(rows, rule, [], Some(update));
    assert u in DeltaMatches(r, rule);
  }

  // ------------------------------------------------------------ the patterns

  /** A pattern row of one collection, with its two membership sets. */
  class MatchPattern {
    const tables: Tables
    const matchPattern: string
    const matchType: MatchType
    const effect: Effect
    var deltaUrls: set<string>
    var curatedUrls: set<string>

    constructor (tables: Tables, matchPattern: string, matchType: MatchType, effect: Effect)
      ensures this.tables == tables && CurrentRule() == Rule(matchPattern, matchType, effect)
      ensures deltaUrls == {} && curatedUrls == {}
    {
      this.tables := tables;
      this.matchPattern := matchPattern;
      this.matchType := matchType;
      this.effect := effect;
      deltaUrls, curatedUrls := {}, {};
    }

    function CurrentRule(): Rule
    {
      Rule(matchPattern, matchType, effect)
    }

    /** The membership a fresh match of the current rows gives. */
    predicate MembershipFresh()
      reads this, tables
    {
      deltaUrls == DeltaMatches(tables.Snapshot(), CurrentRule()) && curatedUrls == CuratedMatches(tables.Snapshot(), CurrentRule())
    }

    /** `matched_urls`: the matching delta urls and the matching curated urls of the collection. */
    function MatchedUrls(): (r: (set<string>, set<string>))
      reads this, tables
      ensures r.0 <= tables.delta.Keys && r.1 <= tables.curated.Keys
      ensures forall u :: u in r.0 <==> u in tables.delta && Matches(matchPattern, matchType, u)
      ensures forall u :: u in r.1 <==> u in tables.curated && Matches(matchPattern, matchType, u)
    {
      (DeltaMatches(tables.Snapshot(), CurrentRule()), CuratedMatches(tables.Snapshot(), CurrentRule()))
    }

    /** `refresh_url_lists`: both membership sets become a fresh match. */
    method RefreshUrlLists()
      modifies this`deltaUrls, this`curatedUrls
      ensures MembershipFresh()
    {
      var matched := MatchedUrls();
      deltaUrls := matched.0;
      curatedUrls := matched.1;
    }

    /** `generate_delta_url` for one curated row. */
    method GenerateDeltaUrl(url: string, fieldsToCopy: seq<Field>)
      requires url in tables.curated && tables.Valid()
      modifies tables`delta
      ensures tables.Valid()
      ensures tables.delta == old(tables.delta)[url := GeneratedDelta(Lookup(old(tables.delta), url), tables.curated[url], fieldsToCopy)]
    {
      var curated := tables.curated[url];
      if url !in tables.delta {
        var created := CopyFields(BlankRecord, curated, fieldsToCopy);
        tables.delta := tables.delta[url := DeltaRecord(created, false)];
      } else if fieldsToCopy != [] {
        var d := tables.delta[url];
        var rec := d.rec;
        for i := 0 to |fieldsToCopy|
          invariant FillBlanks(rec, curated, fieldsToCopy[i..]) == FillBlanks(d.rec, curated, fieldsToCopy)
        {
          assert fieldsToCopy[i..][1..] == fieldsToCopy[i + 1..];
          var f := fieldsToCopy[i];
          if IsBlank(Get(rec, f)) {
            rec := Set(rec, f, Get(curated, f));
          }
        }
        assert fieldsToCopy[|fieldsToCopy|..] == [];
        tables.delta := tables.delta[url := DeltaRecord(rec, d.toDelete)];
      }
    }

    /** `generate_delta_url` for every url in `targets`, in any order. */
    method GenerateDeltaUrls(targets: set<string>, fieldsToCopy: seq<Field>)
      requires targets <= tables.curated.Keys && tables.Valid()
      modifies tables`delta
      ensures tables.Valid()
      ensures tables.delta == GenerateAll(old(tables.delta), tables.curated, targets, fieldsToCopy)
    {
      ghost var start := tables.delta;
      var todo := targets;
      ghost var done: set<string> := {};
      GenerateAllEmpty(start, tables.curated, fieldsToCopy);
      while todo != {}
        invariant done + todo == targets && done !! todo
        invariant tables.Valid()
        invariant tables.delta == GenerateAll(start, tables.curated, done, fieldsToCopy)
        decreases |todo|
      {
        var u :| u in todo;
        GenerateAllStep(start, tables.curated, done, fieldsToCopy, u);
        GenerateDeltaUrl(u, fieldsToCopy);
        done, todo := done + {u}, todo - {u};
      }
      assert done == targets;
    }

    /** The base `apply(fields_to_copy, update_fields)`. */
    method ApplyBase(fieldsToCopy: seq<Field>, update: Option<FieldUpdate>)
      requires tables.Valid() && UpdateFits(update)
      modifies this`deltaUrls, this`curatedUrls, tables`delta
      ensures tables.Valid() && MembershipFresh()
      ensures tables.Snapshot() == BaseApply(old(tables.Snapshot()), CurrentRule(), fieldsToCopy, update)
    {
      var matched := MatchedUrls();
      GenerateDeltaUrls(matched.1, fieldsToCopy);
      if update.Some? {
        // the matching-deltas query runs now, so it sees the deltas just generated
        var targets := MatchingUrls(tables.delta, CurrentRule());
        tables.delta := UpdateField(tables.delta, targets, update.value.field, update.value.value);
      }
      RefreshUrlLists();
    }

    /** The title parameters this pattern resolves with. */
    function Params(resolve: TitleResolver): TitleParams
    {
      ParamsOf(CurrentRule(), tables.collectionName, resolve)
    }

    /** `log_title_error`: record the message against a delta url; raises on a second row or a curated row. */
    method LogTitleError(url: string, isDeltaRow: bool, message: string) returns (raised: Option<PyError>)
      requires tables.Valid() && (isDeltaRow ==> url in tables.delta)
      modifies tables`errors
      ensures tables.Valid()
      ensures raised == if !isDeltaRow then Some(ValueError)
                        else if url in old(tables.errors) then Some(IntegrityError) else None
      ensures raised.None? ==> tables.errors == old(tables.errors)[url := ErrorRow(matchPattern, message)]
    {
      if !isDeltaRow {
        raised := Some(ValueError);
      } else if url in tables.errors {
        raised := Some(IntegrityError);
      } else {
        tables.errors := tables.errors[url := ErrorRow(matchPattern, message)];
        raised := None;
      }
    }

    /** `apply_title_to_url` for one delta url. */
    method ApplyTitleToUrl(url: string, resolve: TitleResolver) returns (ok: bool)
      requires url in tables.delta && tables.Valid()
      modifies tables`delta, tables`resolved, tables`errors
      ensures tables.Valid() && old(tables.delta.Keys) <= tables.delta.Keys
      ensures ok == TitleToUrlSlice(SliceOf(old(tables.Snapshot()), url), url, Params(resolve)).Ok?
      ensures ok ==> (tables.Snapshot() ==
        PutSlice(old(tables.Snapshot()), url, TitleToUrlSlice(SliceOf(old(tables.Snapshot()), url), url, Params(resolve)).value))
    {
      ghost var before := tables.Snapshot();
      ghost var outcome := TitleToUrlSlice(SliceOf(before, url), url, Params(resolve));
      var p := Params(resolve);
      var d := tables.delta[url];
      var res := resolve(p.template, TitleContext(url, d.rec.scrapedTitle, tables.collectionName));
      match res
      case Ok(t) =>
        tables.resolved := tables.resolved - {url};
        tables.resolved := tables.resolved[url := ResolvedTitle(matchPattern, t)];
        tables.delta := tables.delta[url := d.(rec := d.rec.(generatedTitle := t))];
        ok := true;
        assert outcome == Ok(Slice(Some(d.(rec := d.rec.(generatedTitle := t))), Some(ResolvedTitle(matchPattern, t)), Lookup(before.errors, url)));
        assert tables.errors == Put(before.errors, url, Lookup(before.errors, url));
      case Err(m) =>
        var raised := LogTitleError(url, true, m);
        ok := raised.None?;
        if ok {
          assert outcome == Ok(SliceOf(before, url).(error := Some(ErrorRow(matchPattern, m))));
          assert tables.delta == Put(before.delta, url, Some(d));
          assert tables.resolved == Put(before.resolved, url, Lookup(before.resolved, url));
        }
    }

    /** `create_delta_if_title_differs` for one curated url. */
    method CreateDeltaIfTitleDiffers(url: string, resolve: TitleResolver) returns (ok: bool)
      requires url in tables.curated && tables.Valid()
      modifies tables`delta, tables`resolved, tables`errors
      ensures tables.Valid() && tables.curated == old(tables.curated) && old(tables.delta.Keys) <= tables.delta.Keys
      ensures ok == TitleIfDiffersSlice(SliceOf(old(tables.Snapshot()), url), url, tables.curated[url], Params(resolve)).Ok?
      ensures ok ==> tables.Snapshot() == PutSlice(old(tables.Snapshot()), url,
        TitleIfDiffersSlice(SliceOf(old(tables.Snapshot()), url), url, tables.curated[url], Params(resolve)).value)
    {
      var p := Params(resolve);
      var c := tables.curated[url];
      var res := resolve(p.template, TitleContext(url, c.scrapedTitle, tables.collectionName));
      match res
      case Err(m) =>
        var raised := LogTitleError(url, false, m);
        ok := false;
      case Ok(t) =>
        if c.generatedTitle != t {
          var d := if url in tables.delta then tables.delta[url]
                   else DeltaRecord(BlankRecord.(scrapedTitle := c.scrapedTitle), false);
          tables.delta := tables.delta[url := d.(rec := d.rec.(generatedTitle := t))];
          ok := ApplyTitleToUrl(url, resolve);
        } else {
          ok := true;
        }
    }

    /** One url of a pass of the title pattern's `apply`. */
    method ResolveNext(resolve: TitleResolver, p: TitleParams, step: TitleStep, u: string) returns (ok: bool)
      requires tables.Valid() && p == Params(resolve)
      requires step == ResolveDeltas ==> u in tables.delta
      requires step == ResolveCurated ==> u in tables.curated
      modifies tables`delta, tables`resolved, tables`errors
      ensures tables.Valid() && tables.curated == old(tables.curated) && tables.dump == old(tables.dump)
      ensures old(tables.delta.Keys) <= tables.delta.Keys
      ensures ok == StepResult(old(tables.Snapshot()), step, p, u).Ok?
      ensures ok ==> tables.Snapshot() == PutSlice(old(tables.Snapshot()), u, StepResult(old(tables.Snapshot()), step, p, u).value)
    {
      if step == ResolveDeltas {
        ok := ApplyTitleToUrl(u, resolve);
      } else {
        ok := CreateDeltaIfTitleDiffers(u, resolve);
      }
    }

    /**
     * One pass of the title pattern's `apply` over `targets`, in the order the
     * rows come in, which is returned as `order`.
     */
    method ResolveInOrder(resolve: TitleResolver, p: TitleParams, step: TitleStep, targets: set<string>)
      returns (ok: bool, ghost order: seq<string>)
      requires tables.Valid() && p == Params(resolve)
      requires step == ResolveDeltas ==> targets <= tables.delta.Keys
      requires step == ResolveCurated ==> targets <= tables.curated.Keys
      modifies tables`delta, tables`resolved, tables`errors
      ensures tables.Valid() && tables.curated == old(tables.curated) && tables.dump == old(tables.dump)
      ensures forall i, j :: 0 <= i < j < |order| ==> order[i] != order[j]
      ensures forall u :: u in order ==> u in targets
      ensures ok ==> forall u :: u in targets ==> u in order
      ensures ok == PassInOrder(old(tables.Snapshot()), step, p, order).Some?
      ensures ok ==> tables.Snapshot() == PassInOrder(old(tables.Snapshot()), step, p, order).value
    {
      ghost var start := tables.Snapshot();
      var todo := targets;
      order := [];
      while todo != {}
        invariant todo <= targets
        invariant forall i, j :: 0 <= i < j < |order| ==> order[i] != order[j]
        invariant forall u :: u in order <==> u in targets && u !in todo
        invariant tables.Valid() && tables.curated == start.curated && tables.dump == start.dump
        invariant step == ResolveDeltas ==> todo <= tables.delta.Keys
        invariant PassInOrder(start, step, p, order) == Some(tables.Snapshot())
        decreases |todo|
      {
        var u :| u in todo;
        ok := ResolveNext(resolve, p, step, u);
        assert (order + [u])[..|order|] == order;
        order := order + [u];
        if !ok {
          return;
        }
        todo := todo - {u};
      }
      ok := true;
    }

    /** One pass of the title pattern's `apply` over `targets`; the order the rows come in does not matter. */
    method ResolveAll(resolve: TitleResolver, p: TitleParams, step: TitleStep, targets: set<string>) returns (ok: bool)
      requires tables.Valid() && p == Params(resolve)
      requires step == ResolveDeltas ==> targets <= tables.delta.Keys
      requires step == ResolveCurated ==> targets <= tables.curated.Keys
      modifies tables`delta, tables`resolved, tables`errors
      ensures tables.Valid() && tables.curated == old(tables.curated) && tables.dump == old(tables.dump)
      ensures ok == forall u :: u in targets ==> StepResult(old(tables.Snapshot()), step, p, u).Ok?
      ensures ok ==> tables.Snapshot() == PutSlices(old(tables.Snapshot()), Outcomes(old(tables.Snapshot()), step, p, targets))
    {
      ghost var start := tables.Snapshot();
      ghost var order;
      ok, order := ResolveInOrder(resolve, p, step, targets);
      if ok {
        PassInOrderOutcomes(start, step, p, order, targets);
      } else {
        PassInOrderOutcomes(start, step, p, order, set u | u in order);
      }
    }

    /** Both passes of the title pattern's `apply` over the rows. */
    method ResolveBoth(resolve: TitleResolver) returns (ok: bool)
      requires tables.Valid()
      modifies tables`delta, tables`resolved, tables`errors
      ensures tables.Valid() && tables.curated == old(tables.curated) && tables.dump == old(tables.dump)
      ensures ok == TitleApply(old(tables.Snapshot()), CurrentRule(), Params(resolve)).Some?
      ensures ok ==> tables.Snapshot() == TitleApply(old(tables.Snapshot()), CurrentRule(), Params(resolve)).value
    {
      var matched := MatchedUrls();
      ok := ResolveAll(resolve, Params(resolve), ResolveDeltas, matched.0);
      if ok {
        matched := MatchedUrls();
        ok := ResolveAll(resolve, Params(resolve), ResolveCurated, matched.1);
      }
    }

    /** The title pattern's `apply`; false when it raised part-way. */
    method ApplyTitle(resolve: TitleResolver) returns (ok: bool)
      requires tables.Valid()
      modifies this`deltaUrls, this`curatedUrls, tables`delta, tables`resolved, tables`errors
      ensures tables.Valid() && tables.curated == old(tables.curated) && tables.dump == old(tables.dump)
      ensures ok == TitleApply(old(tables.Snapshot()), CurrentRule(), Params(resolve)).Some?
      ensures ok ==> tables.Snapshot() == TitleApply(old(tables.Snapshot()), CurrentRule(), Params(resolve)).value
      ensures ok ==> MembershipFresh()
      ensures !ok ==> deltaUrls == old(deltaUrls) && curatedUrls == old(curatedUrls)
    {
      ok := ResolveBoth(resolve);
      if ok {
        RefreshUrlLists();
      }
    }

    /** Each pattern model's `apply`; false when a title pattern raised part-way. */
    method Apply(resolve: TitleResolver) returns (ok: bool)
      requires tables.Valid()
      modifies this`deltaUrls, this`curatedUrls, tables`delta, tables`resolved, tables`errors
      ensures tables.Valid() && tables.curated == old(tables.curated) && tables.dump == old(tables.dump)
      ensures ok == ApplySpec(old(tables.Snapshot()), CurrentRule(), tables.collectionName, resolve).Some?
      ensures ok ==> tables.Snapshot() == ApplySpec(old(tables.Snapshot()), CurrentRule(), tables.collectionName, resolve).value
      ensures ok ==> MembershipFresh()
    {
      match effect
      case SetTitle(_) =>
        ok := ApplyTitle(resolve);
      case SetDocumentType(dt) =>
        ApplyBase([], Some(FieldUpdate(DocumentType, Number(Some(dt)))));
        ok := true;
      case SetDivision(dv) =>
        ApplyBase([], Some(FieldUpdate(Division, Number(Some(dv)))));
        ok := true;
      case _ =>
        ApplyBase([], None);
        ok := true;
    }

    /** Each pattern model's `unapply`. */
    method Unapply()
      modifies this`deltaUrls, this`curatedUrls, tables`delta
      ensures tables.Snapshot() == UnapplyRows(old(tables.Snapshot()), CurrentRule(), old(deltaUrls))
      ensures effect.SetDivision? ==> deltaUrls == old(deltaUrls) && curatedUrls == old(curatedUrls)
      ensures !effect.SetDivision? ==> deltaUrls == {} && curatedUrls == {}
    {
      match effect
      case SetTitle(_) =>
        var matched := MatchedUrls();
        tables.delta := UpdateField(tables.delta, matched.0, GeneratedTitle, Text(""));
        deltaUrls, curatedUrls := {}, {};
      case SetDocumentType(_) =>
        tables.delta := UpdateField(tables.delta, deltaUrls, DocumentType, Number(None));
        deltaUrls, curatedUrls := {}, {};
      case SetDivision(_) =>
        tables.delta := UpdateField(tables.delta, deltaUrls, Division, Number(None));
      case _ =>
        deltaUrls, curatedUrls := {}, {};
    }
  }
}
