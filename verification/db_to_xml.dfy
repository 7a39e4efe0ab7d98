/**
 * The Sinequa configuration editor. A configuration is an XML tree, held by
 * `XmlEditor` and changed in place: element values are updated or added,
 * mappings are upserted by (Name, Selection), and url include/exclude rules
 * are appended. An element is its tag, its text (absent or a string) and its
 * children, in document order; `find(tag)` is the first child with that tag.
 */
module DbToXml {
  import opened Wrappers

  datatype Element = Element(tag: string, text: Option<string>, children: seq<Element>)

  // ------------------------------------------------------------ tree queries

  /** The children with the given tag, in document order (`findall`). */
  function Tagged(cs: seq<Element>, tag: string): (r: seq<Element>)
    ensures |r| <= |cs|
  {
    if cs == [] then [] else (if cs[0].tag == tag then [cs[0]] else []) + Tagged(cs[1..], tag)
  }

  /** The position of the first child with the given tag (`find`). */
  function FindChild(cs: seq<Element>, tag: string): (r: Option<nat>)
    ensures r.Some? ==> r.value < |cs| && cs[r.value].tag == tag && forall j :: 0 <= j < r.value ==> cs[j].tag != tag
    ensures r.None? ==> forall j :: 0 <= j < |cs| ==> cs[j].tag != tag
  {
    if cs == [] then None
    else if cs[0].tag == tag then Some(0)
    else match FindChild(cs[1..], tag)
      case None => None
      case Some(i) => Some(i + 1)
  }

  /** The element has a child with this tag. */
  predicate Has(e: Element, tag: string)
  {
    Tagged(e.children, tag) != []
  }

  /** `e.find(tag).text == value`. */
  predicate HasText(e: Element, tag: string, value: string)
  {
    Has(e, tag) && Tagged(e.children, tag)[0].text == Some(value)
  }

  /** `e.find(parent).find(tag).text == value`. */
  predicate HasNestedText(e: Element, parent: string, tag: string, value: string)
  {
    Has(e, parent) && HasText(Tagged(e.children, parent)[0], tag, value)
  }

  // --------------------------------------------------------- element upsert

  /**
   * `update_or_add_element_value` on one parent: the first child with the tag
   * gets the value as its text, or a new child with that text is appended.
   */
  function Upsert(e: Element, name: string, value: string): (r: Element)
    ensures r.tag == e.tag && r.text == e.text
    ensures HasText(r, name, value)
    ensures |Tagged(r.children, name)| == if Has(e, name) then |Tagged(e.children, name)| else 1
  {
    match FindChild(e.children, name)
    case Some(i) =>
      var c := e.children[i].(text := Some(value));
      TaggedUpdate(e.children, i, c);
      FindTagged(e.children, name);
      e.(children := e.children[i := c])
    case None =>
      var c := Element(name, Some(value), []);
      TaggedAppend(e.children, c);
      TaggedNone(e.children, name);
      e.(children := e.children + [c])
  }

  /** `update_or_add_element_value` under the first child tagged `parent`, which must exist. */
  function UpsertUnder(e: Element, parent: string, name: string, value: string): (r: Element)
    requires Has(e, parent)
    ensures r.tag == e.tag && r.text == e.text
    ensures HasNestedText(r, parent, name, value)
  {
    FindTagged(e.children, parent);
    var i := FindChild(e.children, parent).value;
    var c := Upsert(e.children[i], name, value);
    TaggedUpdate(e.children, i, c);
    e.(children := e.children[i := c])
  }

  /** The tree `convert_indexer_to_scraper` leaves before it reads System. */
  function ScraperTop(e: Element): (r: Element)
    ensures Has(r, "System") == Has(e, "System") && Has(r, "IndexerClient") == Has(e, "IndexerClient")
  {
    var e1 := Upsert(e, "Indexers", "");
    var e2 := Upsert(e1, "Plugin", "SMD_Plugins/Sinequa.Plugin.ListCandidateUrls");
    var e3 := Upsert(e2, "ShardIndexes", "");
    var e4 := Upsert(e3, "ShardingStrategy", "");
    var e5 := Upsert(e4, "WorkerCount", "8");
    KeepsHas(e, "Indexers", "", "System", "IndexerClient");
    KeepsHas(e1, "Plugin", "SMD_Plugins/Sinequa.Plugin.ListCandidateUrls", "System", "IndexerClient");
    KeepsHas(e2, "ShardIndexes", "", "System", "IndexerClient");
    KeepsHas(e3, "ShardingStrategy", "", "System", "IndexerClient");
    KeepsHas(e4, "WorkerCount", "8", "System", "IndexerClient");
    e5
  }

  /** The tree `convert_scraper_to_indexer` leaves before it reads System. */
  function IndexerTop(e: Element): (r: Element)
    ensures Has(r, "System") == Has(e, "System") && Has(r, "IndexerClient") == Has(e, "IndexerClient")
  {
    var e1 := Upsert(e, "Indexers", "");
    var e2 := Upsert(e1, "Plugin", "");
    var e3 := Upsert(e2, "Identity", "NodeIndexer1/identity0");
    var e4 := Upsert(e3, "ShardIndexes", "");
    var e5 := Upsert(e4, "ShardingStrategy", "");
    var e6 := Upsert(e5, "WorkerCount", "8");
    KeepsHas(e, "Indexers", "", "System", "IndexerClient");
    KeepsHas(e1, "Plugin", "", "System", "IndexerClient");
    KeepsHas(e2, "Identity", "NodeIndexer1/identity0", "System", "IndexerClient");
    KeepsHas(e3, "ShardIndexes", "", "System", "IndexerClient");
    KeepsHas(e4, "ShardingStrategy", "", "System", "IndexerClient");
    KeepsHas(e5, "WorkerCount", "8", "System", "IndexerClient");
    e6
  }

  /**
   * The tree after a conversion: the top-level settings, then the log level
   * under System and the simulate flag under IndexerClient. A missing System
   * or IndexerClient stops it where the source raises.
   */
  function Converted(top: Element, logLevel: string, simulate: string): Element
  {
    if !Has(top, "System") then top
    else
      var withLog := UpsertUnder(top, "System", "LogLevel", logLevel);
      KeepsUnder(top, "System", "LogLevel", logLevel, "IndexerClient");
      if !Has(withLog, "IndexerClient") then withLog
      else UpsertUnder(withLog, "IndexerClient", "Simulate", simulate)
  }

  // ---------------------------------------------------------------- mappings

  /** A text with `None` read as "". */
  function TextOr(text: Option<string>): string
  {
    if text.Some? then text.value else ""
  }

  /** `{child.tag: child.text or "" for child in mapping}`: a later child overrides an earlier one with the same tag. */
  function TextMap(cs: seq<Element>): map<string, string>
  {
    if cs == [] then map[] else TextMap(cs[..|cs| - 1])[cs[|cs| - 1].tag := TextOr(cs[|cs| - 1].text)]
  }

  /** `s.replace(a, b)` for single characters. */
  function Replace(s: string, a: char, b: char): (r: string)
    ensures |r| == |s|
    ensures forall i :: 0 <= i < |s| ==> r[i] == if s[i] == a then b else s[i]
  {
    if s == [] then [] else [if s[0] == a then b else s[0]] + Replace(s[1..], a, b)
  }

  /**
   * `_standardize_selection`, corrected: the selection itself and the form
   * an older configuration wrote it in, with double quotes.
   */
  function StandardizeSelection(selection: string): set<string>
  {
    {selection, Replace(selection, '\'', '"')}
  }

  /** The mapping `_generic_mapping` updates instead of adding one: same Name text, Selection text among the standardized selections. */
  predicate Matches(m: Element, name: string, selection: string)
  {
    && m.tag == "Mapping"
    && HasText(m, "Name", name)
    && Has(m, "Selection")
    && Tagged(m.children, "Selection")[0].text.Some?
    && Tagged(m.children, "Selection")[0].text.value in StandardizeSelection(selection)
  }

  /** A mapping the update loop can inspect without raising: it has Name, Selection and Value children. */
  predicate MappingWellFormed(m: Element)
  {
    m.tag == "Mapping" ==> Has(m, "Name") && Has(m, "Selection") && Has(m, "Value")
  }

  predicate MappingsWellFormed(e: Element)
  {
    forall i :: 0 <= i < |e.children| ==> MappingWellFormed(e.children[i])
  }

  /** The position of the first mapping `_generic_mapping` would update. */
  function FirstMatch(cs: seq<Element>, name: string, selection: string): (r: Option<nat>)
    ensures r.Some? ==> (r.value < |cs| && Matches(cs[r.value], name, selection)
      && forall j :: 0 <= j < r.value ==> !Matches(cs[j], name, selection))
    ensures r.None? ==> forall j :: 0 <= j < |cs| ==> !Matches(cs[j], name, selection)
  {
    if cs == [] then None
    else if Matches(cs[0], name, selection) then Some(0)
    else match FirstMatch(cs[1..], name, selection)
      case None => None
      case Some(i) => Some(i + 1)
  }

  /** The mapping `_generic_mapping` appends: Name, Description, Value, Selection and an empty DefaultValue. */
  function NewMapping(name: string, description: string, value: string, selection: string): Element
  {
    Element("Mapping", None, [
      Element("Name", Some(name), []),
      Element("Description", Some(description), []),
      Element("Value", Some(value), []),
      Element("Selection", Some(selection), []),
      Element("DefaultValue", Some(""), [])])
  }

  /** `existing_mapping.find("Value").text = value`. */
  function SetValue(m: Element, value: string): Element
  {
    match FindChild(m.children, "Value")
    case Some(k) => m.(children := m.children[k := m.children[k].(text := Some(value))])
    case None => m
  }

  /** The tree after `_generic_mapping`, when it does not raise. */
  function Mapped(e: Element, name: string, description: string, value: string, selection: string): Element
  {
    match FirstMatch(e.children, name, selection)
    case Some(i) => e.(children := e.children[i := SetValue(e.children[i], value)])
    case None => e.(children := e.children + [NewMapping(name, description, value, selection)])
  }

  // ------------------------------------------------------- title and types

  /** `rstrip("/")`. */
  function RStripSlash(s: string): (r: string)
    ensures r <= s
    ensures r == [] || r[|r| - 1] != '/'
    ensures forall i :: |r| <= i < |s| ==> s[i] == '/'
  {
    if s != [] && s[|s| - 1] == '/' then RStripSlash(s[..|s| - 1]) else s
  }

  predicate OccursAt(s: string, marker: string, i: int)
  {
    0 <= i && i + |marker| <= |s| && s[i..i + |marker|] == marker
  }

  /** `marker in s` for strings. */
  predicate Contains(s: string, marker: string)
  {
    exists i :: 0 <= i <= |s| && OccursAt(s, marker, i)
  }

  /** Text that marks a title value as Sinequa code rather than a literal title. */
  const SinequaCodeMarkers: seq<string> := ["xpath", "Concat", "IfEmpty", "doc.title", "doc.url1"]

  predicate IsSinequaCode(value: string)
  {
    exists m :: m in SinequaCodeMarkers && Contains(value, m)
  }

  function Quoted(s: string): string
  {
    "\"" + s + "\""
  }

  /** The value `add_title_mapping` writes: literal titles are quoted, Sinequa code is not. */
  function TitleValue(value: string): (r: string)
    ensures IsSinequaCode(value) ==> r == value
    ensures !IsSinequaCode(value) ==> |r| == |value| + 2 && r[0] == '"' && r[|r| - 1] == '"' && r[1..|r| - 1] == value
  {
    if IsSinequaCode(value) then value else Quoted(value)
  }

  const SelectionPrefix := "doc.url1 match "

  /** The selection of a url-matching mapping. */
  function UrlSelection(criteria: string): string
  {
    SelectionPrefix + "'" + criteria + "'"
  }

  // ------------------------------------------------------------------ editor

  class XmlEditor {
    /** The root of the configuration tree; parsing the XML text is not modelled. */
    var root: Element

    constructor(root: Element)
      ensures this.root == root
    {
      this.root := root;
    }

    /**
     * `update_or_add_element_value`: under the root, or under the root's first
     * child tagged `parent`, the first child tagged `name` gets the value, or
     * one is appended. A missing parent raises `AttributeError`.
     */
    method UpdateOrAddElementValue(name: string, value: string, parent: Option<string>) returns (r: Result<(), PyError>)
      modifies this
      ensures parent.None? ==> r.Ok? && root == Upsert(old(root), name, value)
      ensures parent.Some? ==> (r.Ok? <==> Has(old(root), parent.value))
      ensures parent.Some? && r.Ok? ==> root == UpsertUnder(old(root), parent.value, name, value)
      ensures r.Err? ==> r.error == AttributeError && root == old(root)
    {
      if parent.None? {
        root := Upsert(root, name, value);
        return Ok(());
      }
      if FindChild(root.children, parent.value).None? {
        FindTagged(root.children, parent.value);
        return Err(AttributeError);
      }
      FindTagged(root.children, parent.value);
      root := UpsertUnder(root, parent.value, name, value);
      r := Ok(());
    }

    /**
     * `convert_indexer_to_scraper`: the fixed scraper settings. It raises
     * `AttributeError` exactly when the tree has no System or no
     * IndexerClient element, after the settings before that read are made.
     */
    method ConvertIndexerToScraper() returns (r: Result<(), PyError>)
      modifies this
      ensures r.Ok? <==> Has(old(root), "System") && Has(old(root), "IndexerClient")
      ensures r.Err? ==> r.error == AttributeError
      ensures root == Converted(ScraperTop(old(root)), "0", "true")
    {
      var _ := UpdateOrAddElementValue("Indexers", "", None);
      var _ := UpdateOrAddElementValue("Plugin", "SMD_Plugins/Sinequa.Plugin.ListCandidateUrls", None);
      var _ := UpdateOrAddElementValue("ShardIndexes", "", None);
      var _ := UpdateOrAddElementValue("ShardingStrategy", "", None);
      var _ := UpdateOrAddElementValue("WorkerCount", "8", None);
      assert root == ScraperTop(old(root));
      r := UpdateOrAddElementValue("LogLevel", "0", Some("System"));
      if r.Err? {
        return;
      }
      KeepsUnder(ScraperTop(old(root)), "System", "LogLevel", "0", "IndexerClient");
      r := UpdateOrAddElementValue("Simulate", "true", Some("IndexerClient"));
    }

    /** `convert_scraper_to_indexer`: the fixed indexer settings, with the same failure condition. */
    method ConvertScraperToIndexer() returns (r: Result<(), PyError>)
      modifies this
      ensures r.Ok? <==> Has(old(root), "System") && Has(old(root), "IndexerClient")
      ensures r.Err? ==> r.error == AttributeError
      ensures root == Converted(IndexerTop(old(root)), "20", "false")
    {
      var _ := UpdateOrAddElementValue("Indexers", "", None);
      var _ := UpdateOrAddElementValue("Plugin", "", None);
      var _ := UpdateOrAddElementValue("Identity", "NodeIndexer1/identity0", None);
      var _ := UpdateOrAddElementValue("ShardIndexes", "", None);
      var _ := UpdateOrAddElementValue("ShardingStrategy", "", None);
      var _ := UpdateOrAddElementValue("WorkerCount", "8", None);
      assert root == IndexerTop(old(root));
      r := UpdateOrAddElementValue("LogLevel", "20", Some("System"));
      if r.Err? {
        return;
      }
      KeepsUnder(IndexerTop(old(root)), "System", "LogLevel", "20", "IndexerClient");
      r := UpdateOrAddElementValue("Simulate", "false", Some("IndexerClient"));
    }

    /** `convert_template_to_scraper`: the base url to scrape. */
    method ConvertTemplateToScraper(url: string)
      modifies this
      ensures root == Upsert(old(root), "Url", url)
    {
      var _ := UpdateOrAddElementValue("Url", url, None);
    }

    /**
     * `_mapping_exists`: some Mapping child has the same tag-to-text map as
     * the new mapping, absent texts read as "".
     */
    method MappingExists(newMapping: Element) returns (b: bool)
      ensures b <==> exists i :: (0 <= i < |root.children| && root.children[i].tag == "Mapping"
        && TextMap(root.children[i].children) == TextMap(newMapping.children))
    {
      var wanted := TextMap(newMapping.children);
      var i := 0;
      while i < |root.children|
        invariant 0 <= i <= |root.children|
        invariant forall j :: 0 <= j < i ==> !(root.children[j].tag == "Mapping" && TextMap(root.children[j].children) == wanted)
      {
        var mapping := root.children[i];
        if mapping.tag == "Mapping" && TextMap(mapping.children) == wanted {
          return true;
        }
        i := i + 1;
      }
      return false;
    }

    /**
     * `_generic_mapping`, with `_standardize_selection` corrected: the first
     * Mapping with the same Name text and a Selection text among the
     * standardized selections gets the new Value; without one, a new mapping
     * is appended. A Mapping lacking a child the loop reads raises
     * `AttributeError`, leaving the tree as it was.
     */
    method GenericMapping(name: string, description: string, value: string, selection: string) returns (r: Result<(), PyError>)
      modifies this
      ensures r.Ok? ==> root == Mapped(old(root), name, description, value, selection)
      ensures r.Err? ==> r.error == AttributeError && root == old(root) && !MappingsWellFormed(old(root))
      ensures MappingsWellFormed(old(root)) ==> r.Ok?
    {
      var i := 0;
      while i < |root.children|
        invariant 0 <= i <= |root.children|
        invariant root == old(root)
        invariant forall j :: 0 <= j < i ==> !Matches(root.children[j], name, selection)
      {
        var mapping := root.children[i];
        if mapping.tag == "Mapping" {
          var found := InspectMapping(mapping, name, selection);
          if found.Err? {
            return Err(AttributeError);
          }
          if found.value {
            FirstMatchIs(root.children, name, selection, i);
            FindTagged(mapping.children, "Value");
            if FindChild(mapping.children, "Value").None? {
              return Err(AttributeError);
            }
            root := root.(children := root.children[i := SetValue(mapping, value)]);
            return Ok(());
          }
        }
        i := i + 1;
      }
      assert FirstMatch(root.children, name, selection).None?;
      root := root.(children := root.children + [NewMapping(name, description, value, selection)]);
      r := Ok(());
    }

    /** `add_document_type_mapping`: the quoted type, for urls matching the criteria. */
    method AddDocumentTypeMapping(documentType: string, criteria: string) returns (r: Result<(), PyError>)
      modifies this
      ensures r.Ok? ==> root == Mapped(old(root), "sourcestr56", "", Quoted(documentType), UrlSelection(criteria))
      ensures r.Err? ==> root == old(root)
      ensures MappingsWellFormed(old(root)) ==> r.Ok?
    {
      r := GenericMapping("sourcestr56", "", Quoted(documentType), UrlSelection(criteria));
    }

    /**
     * `add_title_mapping`: the criteria lose their trailing slashes, and a
     * literal title is quoted while Sinequa code is written as is.
     */
    method AddTitleMapping(titleValue: string, titleCriteria: string) returns (r: Result<(), PyError>)
      modifies this
      ensures r.Ok? ==> root == Mapped(old(root), "title", "", TitleValue(titleValue), UrlSelection(RStripSlash(titleCriteria)))
      ensures r.Err? ==> root == old(root)
      ensures MappingsWellFormed(old(root)) ==> r.Ok?
    {
      r := GenericMapping("title", "", TitleValue(titleValue), UrlSelection(RStripSlash(titleCriteria)));
    }

    /** `add_id`: the id mapping, with an empty selection. */
    method AddId() returns (r: Result<(), PyError>)
      modifies this
      ensures r.Ok? ==> root == Mapped(old(root), "id", "", "doc.url1", "")
      ensures r.Err? ==> root == old(root)
      ensures MappingsWellFormed(old(root)) ==> r.Ok?
    {
      r := GenericMapping("id", "", "doc.url1", "");
    }

    /** `add_document_type`: the quoted type for every document, with an empty selection. */
    method AddDocumentType(documentType: string) returns (r: Result<(), PyError>)
      modifies this
      ensures r.Ok? ==> root == Mapped(old(root), "sourcestr56", "", Quoted(documentType), "")
      ensures r.Err? ==> root == old(root)
      ensures MappingsWellFormed(old(root)) ==> r.Ok?
    {
      r := GenericMapping("sourcestr56", "", Quoted(documentType), "");
    }

    /** `add_job_list_item`: always appends a JobListItem. */
    method AddJobListItem(jobName: string)
      modifies this
      ensures root == old(root).(children := old(root).children + [
        Element("JobListItem", None, [Element("Name", Some(jobName), []), Element("StopOnError", Some("false"), [])])])
    {
      root := root.(children := root.children + [
        Element("JobListItem", None, [Element("Name", Some(jobName), []), Element("StopOnError", Some("false"), [])])]);
    }

    /** `add_xpath_indexing_filter`: always appends an IndexingFilter. */
    method AddXpathIndexingFilter(xpath: string, selection: string)
      modifies this
      ensures root == old(root).(children := old(root).children + [
        Element("IndexingFilter", None, [Element("XPath", Some(xpath), []), Element("IncludeMode", Some("false"), []),
          Element("Selection", Some(selection), [])])])
    {
      root := root.(children := root.children + [
        Element("IndexingFilter", None, [Element("XPath", Some(xpath), []), Element("IncludeMode", Some("false"), []),
          Element("Selection", Some(selection), [])])]);
    }

    /**
     * `add_url_exclude`: the pattern is appended unless some UrlIndexExcluded
     * child already has it as text.
     */
    method AddUrlExclude(urlPattern: string)
      modifies this
      ensures root == ExcludeAdded(old(root), urlPattern)
    {
      var i := 0;
      while i < |root.children|
        invariant 0 <= i <= |root.children|
        invariant forall j :: 0 <= j < i ==> !IsExclusionOf(root.children[j], urlPattern)
      {
        if root.children[i].tag == "UrlIndexExcluded" && root.children[i].text == Some(urlPattern) {
          return;
        }
        i := i + 1;
      }
      root := root.(children := root.children + [Element("UrlIndexExcluded", Some(urlPattern), [])]);
    }

    /** `add_url_include`: always appends, even a pattern already included. */
    method AddUrlInclude(urlPattern: string)
      modifies this
      ensures root == IncludeAdded(old(root), urlPattern)
    {
      root := root.(children := root.children + [Element("UrlIndexIncluded", Some(urlPattern), [])]);
    }
  }

  /**
   * One turn of the loop of `_generic_mapping`: does this Mapping have the
   * Name and one of the standardized Selections? Reading a missing Name, or
   * the missing Selection of a mapping with that Name, raises `AttributeError`.
   */
  method InspectMapping(mapping: Element, name: string, selection: string) returns (r: Result<bool, PyError>)
    requires mapping.tag == "Mapping"
    ensures r.Ok? ==> (r.value <==> Matches(mapping, name, selection))
    ensures r.Err? ==> r.error == AttributeError && !MappingWellFormed(mapping)
  {
    FindTagged(mapping.children, "Name");
    FindTagged(mapping.children, "Selection");
    var nameAt := FindChild(mapping.children, "Name");
    if nameAt.None? {
      return Err(AttributeError);
    }
    if mapping.children[nameAt.value].text != Some(name) {
      return Ok(false);
    }
    var selectionAt := FindChild(mapping.children, "Selection");
    if selectionAt.None? {
      return Err(AttributeError);
    }
    var text := mapping.children[selectionAt.value].text;
    r := Ok(text.Some? && text.value in StandardizeSelection(selection));
  }

  predicate IsExclusionOf(c: Element, urlPattern: string)
  {
    c.tag == "UrlIndexExcluded" && c.text == Some(urlPattern)
  }

  /** The tree after `add_url_exclude`. */
  function ExcludeAdded(e: Element, urlPattern: string): Element
  {
    if exists j :: 0 <= j < |e.children| && IsExclusionOf(e.children[j], urlPattern) then e
    else e.(children := e.children + [Element("UrlIndexExcluded", Some(urlPattern), [])])
  }

  /** The tree after `add_url_include`. */
  function IncludeAdded(e: Element, urlPattern: string): Element
  {
    e.(children := e.children + [Element("UrlIndexIncluded", Some(urlPattern), [])])
  }

  /** How many children are the exclusion of this pattern. */
  function Exclusions(cs: seq<Element>, urlPattern: string): nat
  {
    if cs == [] then 0 else (if IsExclusionOf(cs[0], urlPattern) then 1 else 0) + Exclusions(cs[1..], urlPattern)
  }

  // ------------------------------------------------------------------ lemmas

  /** An upsert leaves the children with other tags as they were. */
  lemma UpsertKeepsOthers(e: Element, name: string, value: string, t: string)
    requires t != name
    ensures Tagged(Upsert(e, name, value).children, t) == Tagged(e.children, t)
  {
    match FindChild(e.children, name) {
      case Some(i) =>
        TaggedUpdate(e.children, i, e.children[i].(text := Some(value)));
      case None =>
        TaggedAppend(e.children, Element(name, Some(value), []));
    }
  }

  /** An upsert under a parent leaves the root's children with other tags as they were. */
  lemma UpsertUnderKeepsOthers(e: Element, parent: string, name: string, value: string, t: string)
    requires Has(e, parent) && t != parent
    ensures Tagged(UpsertUnder(e, parent, name, value).children, t) == Tagged(e.children, t)
  {
    FindTagged(e.children, parent);
    var i := FindChild(e.children, parent).value;
    TaggedUpdate(e.children, i, Upsert(e.children[i], name, value));
  }

  lemma UpsertKeepsText(e: Element, name: string, value: string, t: string, v: string)
    requires t != name && HasText(e, t, v)
    ensures HasText(Upsert(e, name, value), t, v)
  {
    UpsertKeepsOthers(e, name, value, t);
  }

  lemma UnderKeepsText(e: Element, parent: string, name: string, value: string, t: string, v: string)
    requires Has(e, parent) && t != parent && HasText(e, t, v)
    ensures HasText(UpsertUnder(e, parent, name, value), t, v)
  {
    UpsertUnderKeepsOthers(e, parent, name, value, t);
  }

  /** A setting made at the top level survives the two nested settings of a conversion. */
  lemma ConvertedKeepsText(top: Element, logLevel: string, simulate: string, t: string, v: string)
    requires Has(top, "System") && Has(top, "IndexerClient")
    requires t != "System" && t != "IndexerClient" && HasText(top, t, v)
    ensures HasText(Converted(top, logLevel, simulate), t, v)
  {
    var withLog := UpsertUnder(top, "System", "LogLevel", logLevel);
    KeepsUnder(top, "System", "LogLevel", logLevel, "IndexerClient");
    UnderKeepsText(top, "System", "LogLevel", logLevel, t, v);
    UnderKeepsText(withLog, "IndexerClient", "Simulate", simulate, t, v);
  }

  /** A conversion leaves every top-level tag it does not set as it was. */
  lemma ConvertedKeepsOthers(top: Element, logLevel: string, simulate: string, t: string)
    requires t != "System" && t != "IndexerClient"
    ensures Tagged(Converted(top, logLevel, simulate).children, t) == Tagged(top.children, t)
  {
    if Has(top, "System") {
      var withLog := UpsertUnder(top, "System", "LogLevel", logLevel);
      UpsertUnderKeepsOthers(top, "System", "LogLevel", logLevel, t);
      if Has(withLog, "IndexerClient") {
        UpsertUnderKeepsOthers(withLog, "IndexerClient", "Simulate", simulate, t);
      }
    }
  }

  /** Both nested settings of a conversion are made when System and IndexerClient exist. */
  lemma ConvertedNested(top: Element, logLevel: string, simulate: string)
    requires Has(top, "System") && Has(top, "IndexerClient")
    ensures HasNestedText(Converted(top, logLevel, simulate), "System", "LogLevel", logLevel)
    ensures HasNestedText(Converted(top, logLevel, simulate), "IndexerClient", "Simulate", simulate)
  {
    var withLog := UpsertUnder(top, "System", "LogLevel", logLevel);
    KeepsUnder(top, "System", "LogLevel", logLevel, "IndexerClient");
    UpsertUnderKeepsOthers(withLog, "IndexerClient", "Simulate", simulate, "System");
  }

  /**
   * `convert_indexer_to_scraper`: on a tree with System and IndexerClient,
   * every scraper setting holds afterwards, and the other top-level tags are
   * untouched.
   */
  lemma ScraperSettings(e: Element)
    requires Has(e, "System") && Has(e, "IndexerClient")
    ensures var r := Converted(ScraperTop(e), "0", "true");
      && HasText(r, "Indexers", "")
      && HasText(r, "Plugin", "SMD_Plugins/Sinequa.Plugin.ListCandidateUrls")
      && HasText(r, "ShardIndexes", "")
      && HasText(r, "ShardingStrategy", "")
      && HasText(r, "WorkerCount", "8")
      && HasNestedText(r, "System", "LogLevel", "0")
      && HasNestedText(r, "IndexerClient", "Simulate", "true")
  {
    var e1 := Upsert(e, "Indexers", "");
    var e2 := Upsert(e1, "Plugin", "SMD_Plugins/Sinequa.Plugin.ListCandidateUrls");
    var e3 := Upsert(e2, "ShardIndexes", "");
    var e4 := Upsert(e3, "ShardingStrategy", "");
    UpsertKeepsText(e1, "Plugin", "SMD_Plugins/Sinequa.Plugin.ListCandidateUrls", "Indexers", "");
    UpsertKeepsText(e2, "ShardIndexes", "", "Indexers", "");
    UpsertKeepsText(e2, "ShardIndexes", "", "Plugin", "SMD_Plugins/Sinequa.Plugin.ListCandidateUrls");
    UpsertKeepsText(e3, "ShardingStrategy", "", "Indexers", "");
    UpsertKeepsText(e3, "ShardingStrategy", "", "Plugin", "SMD_Plugins/Sinequa.Plugin.ListCandidateUrls");
    UpsertKeepsText(e3, "ShardingStrategy", "", "ShardIndexes", "");
    UpsertKeepsText(e4, "WorkerCount", "8", "Indexers", "");
    UpsertKeepsText(e4, "WorkerCount", "8", "Plugin", "SMD_Plugins/Sinequa.Plugin.ListCandidateUrls");
    UpsertKeepsText(e4, "WorkerCount", "8", "ShardIndexes", "");
    UpsertKeepsText(e4, "WorkerCount", "8", "ShardingStrategy", "");
    var top := ScraperTop(e);
    ConvertedKeepsText(top, "0", "true", "Indexers", "");
    ConvertedKeepsText(top, "0", "true", "Plugin", "SMD_Plugins/Sinequa.Plugin.ListCandidateUrls");
    ConvertedKeepsText(top, "0", "true", "ShardIndexes", "");
    ConvertedKeepsText(top, "0", "true", "ShardingStrategy", "");
    ConvertedKeepsText(top, "0", "true", "WorkerCount", "8");
    ConvertedNested(top, "0", "true");
  }

  /** `convert_indexer_to_scraper` touches no top-level tag besides the ones it sets. */
  lemma ScraperKeepsOthers(e: Element, t: string)
    requires t !in {"Indexers", "Plugin", "ShardIndexes", "ShardingStrategy", "WorkerCount", "System", "IndexerClient"}
    ensures Tagged(Converted(ScraperTop(e), "0", "true").children, t) == Tagged(e.children, t)
  {
    var e1 := Upsert(e, "Indexers", "");
    var e2 := Upsert(e1, "Plugin", "SMD_Plugins/Sinequa.Plugin.ListCandidateUrls");
    var e3 := Upsert(e2, "ShardIndexes", "");
    var e4 := Upsert(e3, "ShardingStrategy", "");
    UpsertKeepsOthers(e, "Indexers", "", t);
    UpsertKeepsOthers(e1, "Plugin", "SMD_Plugins/Sinequa.Plugin.ListCandidateUrls", t);
    UpsertKeepsOthers(e2, "ShardIndexes", "", t);
    UpsertKeepsOthers(e3, "ShardingStrategy", "", t);
    UpsertKeepsOthers(e4, "WorkerCount", "8", t);
    ConvertedKeepsOthers(ScraperTop(e), "0", "true", t);
  }

  /**
   * `convert_scraper_to_indexer`: on a tree with System and IndexerClient,
   * every indexer setting holds afterwards, and the other top-level tags are
   * untouched.
   */
  lemma IndexerSettings(e: Element)
    requires Has(e, "System") && Has(e, "IndexerClient")
    ensures var r := Converted(IndexerTop(e), "20", "false");
      && HasText(r, "Indexers", "")
      && HasText(r, "Plugin", "")
      && HasText(r, "Identity", "NodeIndexer1/identity0")
      && HasText(r, "ShardIndexes", "")
      && HasText(r, "ShardingStrategy", "")
      && HasText(r, "WorkerCount", "8")
      && HasNestedText(r, "System", "LogLevel", "20")
      && HasNestedText(r, "IndexerClient", "Simulate", "false")
  {
    var e1 := Upsert(e, "Indexers", "");
    var e2 := Upsert(e1, "Plugin", "");
    var e3 := Upsert(e2, "Identity", "NodeIndexer1/identity0");
    var e4 := Upsert(e3, "ShardIndexes", "");
    var e5 := Upsert(e4, "ShardingStrategy", "");
    UpsertKeepsText(e1, "Plugin", "", "Indexers", "");
    UpsertKeepsText(e2, "Identity", "NodeIndexer1/identity0", "Indexers", "");
    UpsertKeepsText(e2, "Identity", "NodeIndexer1/identity0", "Plugin", "");
    UpsertKeepsText(e3, "ShardIndexes", "", "Indexers", "");
    UpsertKeepsText(e3, "ShardIndexes", "", "Plugin", "");
    UpsertKeepsText(e3, "ShardIndexes", "", "Identity", "NodeIndexer1/identity0");
    UpsertKeepsText(e4, "ShardingStrategy", "", "Indexers", "");
    UpsertKeepsText(e4, "ShardingStrategy", "", "Plugin", "");
    UpsertKeepsText(e4, "ShardingStrategy", "", "Identity", "NodeIndexer1/identity0");
    UpsertKeepsText(e4, "ShardingStrategy", "", "ShardIndexes", "");
    UpsertKeepsText(e5, "WorkerCount", "8", "Indexers", "");
    UpsertKeepsText(e5, "WorkerCount", "8", "Plugin", "");
    UpsertKeepsText(e5, "WorkerCount", "8", "Identity", "NodeIndexer1/identity0");
    UpsertKeepsText(e5, "WorkerCount", "8", "ShardIndexes", "");
    UpsertKeepsText(e5, "WorkerCount", "8", "ShardingStrategy", "");
    var top := IndexerTop(e);
    ConvertedKeepsText(top, "20", "false", "Indexers", "");
    ConvertedKeepsText(top, "20", "false", "Plugin", "");
    ConvertedKeepsText(top, "20", "false", "Identity", "NodeIndexer1/identity0");
    ConvertedKeepsText(top, "20", "false", "ShardIndexes", "");
    ConvertedKeepsText(top, "20", "false", "ShardingStrategy", "");
    ConvertedKeepsText(top, "20", "false", "WorkerCount", "8");
    ConvertedNested(top, "20", "false");
  }

  /** `convert_scraper_to_indexer` touches no top-level tag besides the ones it sets. */
  lemma IndexerKeepsOthers(e: Element, t: string)
    requires t !in {"Indexers", "Plugin", "Identity", "ShardIndexes", "ShardingStrategy", "WorkerCount", "System", "IndexerClient"}
    ensures Tagged(Converted(IndexerTop(e), "20", "false").children, t) == Tagged(e.children, t)
  {
    var e1 := Upsert(e, "Indexers", "");
    var e2 := Upsert(e1, "Plugin", "");
    var e3 := Upsert(e2, "Identity", "NodeIndexer1/identity0");
    var e4 := Upsert(e3, "ShardIndexes", "");
    var e5 := Upsert(e4, "ShardingStrategy", "");
    UpsertKeepsOthers(e, "Indexers", "", t);
    UpsertKeepsOthers(e1, "Plugin", "", t);
    UpsertKeepsOthers(e2, "Identity", "NodeIndexer1/identity0", t);
    UpsertKeepsOthers(e3, "ShardIndexes", "", t);
    UpsertKeepsOthers(e4, "ShardingStrategy", "", t);
    UpsertKeepsOthers(e5, "WorkerCount", "8", t);
    ConvertedKeepsOthers(IndexerTop(e), "20", "false", t);
  }

  lemma KeepsHas(e: Element, name: string, value: string, t1: string, t2: string)
    requires t1 != name && t2 != name
    ensures Has(Upsert(e, name, value), t1) == Has(e, t1) && Has(Upsert(e, name, value), t2) == Has(e, t2)
  {
    UpsertKeepsOthers(e, name, value, t1);
    UpsertKeepsOthers(e, name, value, t2);
  }

  lemma KeepsUnder(e: Element, parent: string, name: string, value: string, t: string)
    requires Has(e, parent) && t != parent
    ensures Has(UpsertUnder(e, parent, name, value), t) == Has(e, t)
  {
    UpsertUnderKeepsOthers(e, parent, name, value, t);
  }

  lemma {:induction false} TaggedAppend(cs: seq<Element>, c: Element)
    ensures forall t :: Tagged(cs + [c], t) == Tagged(cs, t) + (if c.tag == t then [c] else [])
  {
    if cs != [] {
      TaggedAppend(cs[1..], c);
      assert (cs + [c])[1..] == cs[1..] + [c];
    }
  }

  /** Replacing a child by one with the same tag leaves the other tags' children as they were. */
  lemma {:induction false} TaggedUpdate(cs: seq<Element>, i: nat, c: Element)
    requires i < |cs| && c.tag == cs[i].tag
    ensures forall t :: t != c.tag ==> Tagged(cs[i := c], t) == Tagged(cs, t)
    ensures FindChild(cs, c.tag) == Some(i) ==> Tagged(cs, c.tag) != [] && Tagged(cs[i := c], c.tag) == [c] + Tagged(cs, c.tag)[1..]
  {
    if i > 0 {
      TaggedUpdate(cs[1..], i - 1, c);
      assert cs[i := c][1..] == cs[1..][i - 1 := c];
    } else {
      assert cs[i := c][1..] == cs[1..];
    }
  }

  lemma {:induction false} TaggedNone(cs: seq<Element>, tag: string)
    requires forall j :: 0 <= j < |cs| ==> cs[j].tag != tag
    ensures Tagged(cs, tag) == []
  {
    if cs != [] {
      TaggedNone(cs[1..], tag);
    }
  }

  /** `find` is the head of `findall`. */
  lemma {:induction false} FindTagged(cs: seq<Element>, tag: string)
    ensures FindChild(cs, tag).Some? <==> Tagged(cs, tag) != []
    ensures FindChild(cs, tag).Some? ==> Tagged(cs, tag)[0] == cs[FindChild(cs, tag).value]
  {
    if cs != [] && cs[0].tag != tag {
      FindTagged(cs[1..], tag);
    }
  }

  /**
   * Updating a value twice is updating it once, and the last of two values
   * for the same tag wins.
   */
  lemma UpsertLastWins(e: Element, name: string, v1: string, v2: string)
    ensures Upsert(Upsert(e, name, v1), name, v2) == Upsert(e, name, v2)
  {
    var once := Upsert(e, name, v1);
    match FindChild(e.children, name) {
      case Some(i) =>
        FindChildIs(once.children, name, i);
      case None =>
        FindChildIs(once.children, name, |e.children|);
    }
  }

  /** The first child with a tag is the one `find` returns. */
  lemma FindChildIs(cs: seq<Element>, tag: string, i: nat)
    requires i < |cs| && cs[i].tag == tag && forall j :: 0 <= j < i ==> cs[j].tag != tag
    ensures FindChild(cs, tag) == Some(i)
  {
  }

  /** The first matching mapping is the one `_generic_mapping` updates. */
  lemma FirstMatchIs(cs: seq<Element>, name: string, selection: string, i: nat)
    requires i < |cs| && Matches(cs[i], name, selection) && forall j :: 0 <= j < i ==> !Matches(cs[j], name, selection)
    ensures FirstMatch(cs, name, selection) == Some(i)
  {
  }

  /** `_mapping_exists` sees exactly the tags of the children. */
  lemma {:induction false} TextMapKeys(cs: seq<Element>)
    ensures forall t :: t in TextMap(cs) <==> exists i :: 0 <= i < |cs| && cs[i].tag == t
  {
    if cs != [] {
      var init := cs[..|cs| - 1];
      TextMapKeys(init);
      forall t | t in TextMap(cs)
        ensures exists i :: 0 <= i < |cs| && cs[i].tag == t
      {
        if t != cs[|cs| - 1].tag {
          assert t in TextMap(init);
          var i :| 0 <= i < |init| && init[i].tag == t;
          assert cs[i].tag == t;
        }
      }
      forall i | 0 <= i < |cs|
        ensures cs[i].tag in TextMap(cs)
      {
        if i < |cs| - 1 {
          assert init[i].tag == cs[i].tag;
        }
      }
    }
  }

  /** For each tag `_mapping_exists` reads the text of the last child with that tag. */
  lemma {:induction false} TextMapLast(cs: seq<Element>, i: nat)
    requires i < |cs| && forall j :: i < j < |cs| ==> cs[j].tag != cs[i].tag
    ensures cs[i].tag in TextMap(cs) && TextMap(cs)[cs[i].tag] == TextOr(cs[i].text)
  {
    if i < |cs| - 1 {
      var init := cs[..|cs| - 1];
      assert init[i] == cs[i];
      TextMapLast(init, i);
    }
  }

  /** The first child with a tag is what `find` and the head of `findall` give. */
  lemma FirstTagged(cs: seq<Element>, t: string, i: nat)
    requires i < |cs| && cs[i].tag == t && forall j :: 0 <= j < i ==> cs[j].tag != t
    ensures Tagged(cs, t) != [] && Tagged(cs, t)[0] == cs[i]
  {
    FindTagged(cs, t);
    assert FindChild(cs, t) == Some(i);
  }

  /** The selection a freshly added mapping has is among its own standardized forms. */
  lemma NewMappingMatches(name: string, description: string, value: string, selection: string)
    ensures Matches(NewMapping(name, description, value, selection), name, selection)
    ensures MappingWellFormed(NewMapping(name, description, value, selection))
    ensures HasText(NewMapping(name, description, value, selection), "Value", value)
    ensures FindChild(NewMapping(name, description, value, selection).children, "Value") == Some(2)
  {
    var cs := NewMapping(name, description, value, selection).children;
    FirstTagged(cs, "Name", 0);
    FirstTagged(cs, "Value", 2);
    FirstTagged(cs, "Selection", 3);
  }

  lemma SetValueKeepsMatch(m: Element, name: string, selection: string, value: string)
    ensures Matches(SetValue(m, value), name, selection) <==> Matches(m, name, selection)
    ensures Has(m, "Value") ==> HasText(SetValue(m, value), "Value", value)
  {
    FindTagged(m.children, "Value");
    match FindChild(m.children, "Value")
    case Some(k) =>
      var c := m.children[k].(text := Some(value));
      TaggedUpdate(m.children, k, c);
      var after := SetValue(m, value);
      assert after.children == m.children[k := c];
      assert "Name" != "Value" && "Selection" != "Value";
      assert Tagged(after.children, "Name") == Tagged(m.children, "Name");
      assert Tagged(after.children, "Selection") == Tagged(m.children, "Selection");
    case None =>
  }

  /**
   * Mapping the same (Name, Selection) twice leaves one mapping carrying the
   * second value: `_generic_mapping` is an upsert, and the later value wins.
   */
  lemma MappedLastWins(e: Element, name: string, description: string, v1: string, v2: string, selection: string)
    ensures Mapped(Mapped(e, name, description, v1, selection), name, description, v2, selection)
         == Mapped(e, name, description, v2, selection)
  {
    var once := Mapped(e, name, description, v1, selection);
    match FirstMatch(e.children, name, selection) {
      case Some(i) =>
        SetValueKeepsMatch(e.children[i], name, selection, v1);
        FirstMatchIs(once.children, name, selection, i);
        SetValueLastWins(e.children[i], v1, v2);
      case None =>
        NewMappingMatches(name, description, v1, selection);
        FirstMatchIs(once.children, name, selection, |e.children|);
        var m1 := NewMapping(name, description, v1, selection);
        assert SetValue(m1, v2).children == m1.children[2 := m1.children[2].(text := Some(v2))];
        assert SetValue(m1, v2) == NewMapping(name, description, v2, selection);
    }
  }

  lemma SetValueLastWins(m: Element, v1: string, v2: string)
    ensures SetValue(SetValue(m, v1), v2) == SetValue(m, v2)
  {
    match FindChild(m.children, "Value") {
      case Some(k) =>
        FindChildIs(SetValue(m, v1).children, "Value", k);
      case None =>
    }
  }

  /**
   * After a mapping call that does not raise, some mapping with that Name and
   * Selection carries the value, and every other child is untouched.
   */
  lemma MappedSetsValue(e: Element, name: string, description: string, value: string, selection: string)
    requires MappingsWellFormed(e)
    ensures var r := Mapped(e, name, description, value, selection);
      && |e.children| <= |r.children| <= |e.children| + 1
      && (exists i :: 0 <= i < |r.children| && Matches(r.children[i], name, selection) && HasText(r.children[i], "Value", value))
      && (forall j :: 0 <= j < |e.children| && !Matches(e.children[j], name, selection) ==> r.children[j] == e.children[j])
      && (|r.children| == |e.children| + 1 <==> forall j :: 0 <= j < |e.children| ==> !Matches(e.children[j], name, selection))
  {
    var r := Mapped(e, name, description, value, selection);
    match FirstMatch(e.children, name, selection)
    case Some(i) =>
      SetValueKeepsMatch(e.children[i], name, selection, value);
      assert Matches(r.children[i], name, selection) && HasText(r.children[i], "Value", value);
    case None =>
      var m := NewMapping(name, description, value, selection);
      NewMappingMatches(name, description, value, selection);
      assert Matches(r.children[|e.children|], name, selection) && HasText(r.children[|e.children|], "Value", value);
  }

  /** `add_url_exclude` is idempotent, and afterwards the pattern is excluded by exactly as many rules as before, or by one. */
  lemma ExcludeIdempotent(e: Element, urlPattern: string)
    ensures ExcludeAdded(ExcludeAdded(e, urlPattern), urlPattern) == ExcludeAdded(e, urlPattern)
    ensures Exclusions(ExcludeAdded(e, urlPattern).children, urlPattern)
         == if Exclusions(e.children, urlPattern) == 0 then 1 else Exclusions(e.children, urlPattern)
  {
    var c := Element("UrlIndexExcluded", Some(urlPattern), []);
    if !exists j :: 0 <= j < |e.children| && IsExclusionOf(e.children[j], urlPattern) {
      assert IsExclusionOf(ExcludeAdded(e, urlPattern).children[|e.children|], urlPattern);
      ExclusionsAppend(e.children, c, urlPattern);
      ExclusionsNone(e.children, urlPattern);
    } else {
      var j :| 0 <= j < |e.children| && IsExclusionOf(e.children[j], urlPattern);
      ExclusionsSome(e.children, urlPattern, j);
    }
  }

  /** `add_url_include` is not idempotent: every call adds one more include rule. */
  lemma IncludeAccumulates(e: Element, urlPattern: string)
    ensures Tagged(IncludeAdded(IncludeAdded(e, urlPattern), urlPattern).children, "UrlIndexIncluded")
         == Tagged(e.children, "UrlIndexIncluded") + [Element("UrlIndexIncluded", Some(urlPattern), [])] + [Element("UrlIndexIncluded", Some(urlPattern), [])]
    ensures forall t :: t != "UrlIndexIncluded" ==> Tagged(IncludeAdded(e, urlPattern).children, t) == Tagged(e.children, t)
  {
    var c := Element("UrlIndexIncluded", Some(urlPattern), []);
    TaggedAppend(e.children, c);
    TaggedAppend(e.children + [c], c);
  }

  lemma {:induction false} ExclusionsAppend(cs: seq<Element>, c: Element, urlPattern: string)
    ensures Exclusions(cs + [c], urlPattern) == Exclusions(cs, urlPattern) + if IsExclusionOf(c, urlPattern) then 1 else 0
  {
    if cs != [] {
      ExclusionsAppend(cs[1..], c, urlPattern);
      assert (cs + [c])[1..] == cs[1..] + [c];
    }
  }

  lemma {:induction false} ExclusionsNone(cs: seq<Element>, urlPattern: string)
    requires forall j :: 0 <= j < |cs| ==> !IsExclusionOf(cs[j], urlPattern)
    ensures Exclusions(cs, urlPattern) == 0
  {
    if cs != [] {
      ExclusionsNone(cs[1..], urlPattern);
    }
  }

  lemma {:induction false} ExclusionsSome(cs: seq<Element>, urlPattern: string, j: nat)
    requires j < |cs| && IsExclusionOf(cs[j], urlPattern)
    ensures Exclusions(cs, urlPattern) > 0
  {
    if j > 0 {
      ExclusionsSome(cs[1..], urlPattern, j - 1);
    }
  }

  /** Single quotes become double quotes piece by piece. */
  lemma ReplaceConcat(a: string, b: string, x: char, y: char)
    ensures Replace(a + b, x, y) == Replace(a, x, y) + Replace(b, x, y)
  {
  }

  /** Replacing a character that does not occur changes nothing. */
  lemma {:induction false} ReplaceAbsent(s: string, a: char, b: char)
    requires forall i :: 0 <= i < |s| ==> s[i] != a
    ensures Replace(s, a, b) == s
  {
    if s != [] {
      ReplaceAbsent(s[1..], a, b);
    }
  }

  /** Turning single quotes into double ones, where the only single quotes are the two around `c`. */
  lemma QuoteVariant(p: string, c: string)
    requires forall i :: 0 <= i < |p| ==> p[i] != '\''
    requires forall i :: 0 <= i < |c| ==> c[i] != '\''
    ensures Replace(p + "'" + c + "'", '\'', '"') == p + "\"" + c + "\""
  {
    ReplaceConcat(p + "'" + c, "'", '\'', '"');
    ReplaceConcat(p + "'", c, '\'', '"');
    ReplaceConcat(p, "'", '\'', '"');
    ReplaceAbsent(p, '\'', '"');
    ReplaceAbsent(c, '\'', '"');
    assert Replace("'", '\'', '"') == "\"";
  }

  /**
   * A mapping written by an older configuration, with its criteria in double
   * quotes, is recognised as the same mapping as the new single-quoted one.
   */
  lemma OldSelectionRecognised(criteria: string)
    requires forall i :: 0 <= i < |criteria| ==> criteria[i] != '\''
    ensures SelectionPrefix + "\"" + criteria + "\"" in StandardizeSelection(UrlSelection(criteria))
  {
    forall i | 0 <= i < |SelectionPrefix|
      ensures SelectionPrefix[i] != '\''
    {
    }
    QuoteVariant(SelectionPrefix, criteria);
  }

  // ------------------------------------------------------- as written

  /**
   * `_standardize_selection` as written, were it callable: the selection and
   * its form with double quotes turned into single ones.
   */
  function StandardizeSelectionAsWritten(selection: string): set<string>
  {
    {selection, Replace(selection, '"', '\'')}
  }

  /**
   * The update loop of `_generic_mapping` as written. `_standardize_selection`
   * lacks `self`, so calling it on the editor passes two arguments to a
   * one-parameter function and raises `TypeError`; it is only reached for a
   * Mapping whose Name text equals the name, after its Selection text is read.
   */
  function GenericMappingAsWritten(cs: seq<Element>, name: string): (r: Result<(), PyError>)
  {
    if cs == [] then Ok(())
    else if cs[0].tag != "Mapping" then GenericMappingAsWritten(cs[1..], name)
    else if !Has(cs[0], "Name") then Err(AttributeError)
    else if Tagged(cs[0].children, "Name")[0].text != Some(name) then GenericMappingAsWritten(cs[1..], name)
    else if !Has(cs[0], "Selection") then Err(AttributeError)
    else Err(TypeError)
  }

  /**
   * As written, a mapping call for a Name that some well-formed mapping
   * already carries always raises, so no mapping is ever updated; the
   * corrected call updates it.
   */
  lemma {:induction false} SameNameRaisesAsWritten(cs: seq<Element>, name: string, i: nat)
    requires i < |cs| && cs[i].tag == "Mapping" && HasText(cs[i], "Name", name)
    requires forall j :: 0 <= j < |cs| ==> MappingWellFormed(cs[j])
    ensures GenericMappingAsWritten(cs, name) == Err(TypeError)
  {
    if i > 0 && !(cs[0].tag == "Mapping" && HasText(cs[0], "Name", name)) {
      SameNameRaisesAsWritten(cs[1..], name, i - 1);
    }
  }

  /**
   * A second mapping call for the same Name and Selection, on a tree that
   * had none: as written it raises `TypeError`; corrected, the mapping the
   * first call added gets the new value and nothing is added.
   */
  lemma RepeatedMappingAsWritten(e: Element, name: string, description: string, v1: string, v2: string, selection: string)
    requires e.children == []
    ensures var once := Mapped(e, name, description, v1, selection);
      && GenericMappingAsWritten(once.children, name) == Err(TypeError)
      && Mapped(once, name, description, v2, selection) == Mapped(e, name, description, v2, selection)
      && Mapped(once, name, description, v2, selection).children == [NewMapping(name, description, v2, selection)]
  {
    var once := Mapped(e, name, description, v1, selection);
    NewMappingMatches(name, description, v1, selection);
    assert once.children == [NewMapping(name, description, v1, selection)];
    SameNameRaisesAsWritten(once.children, name, 0);
    MappedLastWins(e, name, description, v1, v2, selection);
  }

  /**
   * Even with the call repaired, the quote replacement as written runs the
   * wrong way: a new selection never has double quotes to replace, so an
   * older mapping that quoted its criteria with double quotes is not found.
   */
  lemma OldSelectionMissedAsWritten(criteria: string)
    ensures SelectionPrefix + "\"" + criteria + "\"" !in StandardizeSelectionAsWritten(UrlSelection(criteria))
  {
    var k := |SelectionPrefix|;
    var s := UrlSelection(criteria);
    var older := SelectionPrefix + "\"" + criteria + "\"";
    assert s[k] == '\'' && older[k] == '"';
    assert Replace(s, '"', '\'')[k] == '\'';
  }
}
