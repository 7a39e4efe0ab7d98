/**
 * The helpers of the script that turns CMR dataset records into environmental
 * justice rows: the intended use a processing level maps to, the source link built
 * from a DOI field, and the search-server id of a CMR concept.
 *
 * `urllib.parse.urljoin` is a library call outside the model, so the source link
 * takes it as a parameter.
 */
module CmrToModels {
  import opened Wrappers

  // ----------------------------------------------------------- processing levels

  const AdvancedAnalysisLevels: set<string> := {"0", "Level 0", "NA", "Not Provided", "Not provided"}

  const BasicAnalysisLevels: set<string> := {
    "1", "1A", "1B", "1C", "1T", "2", "2A", "2B", "2G", "2P",
    "Level 1", "Level 1A", "Level 1B", "Level 1C", "Level 2", "Level 2A", "Level 2B"
  }

  const ExplorationLevels: set<string> := {"3", "4", "Level 3", "Level 4", "L2"}

  const Exploration := "exploration"
  const BasicAnalysis := "basic analysis"
  const AdvancedAnalysis := "advanced analysis"

  /**
   * `categorize_processing_level`: an exploration level, then a basic-analysis
   * level; every other input -- a listed advanced level or an unknown one -- is
   * advanced analysis.
   */
  function IntendedUse(level: string): (use: string)
    ensures use == Exploration || use == BasicAnalysis || use == AdvancedAnalysis
    ensures use == Exploration <==> level in ExplorationLevels
    ensures use == BasicAnalysis <==> level in BasicAnalysisLevels && level !in ExplorationLevels
    ensures level in AdvancedAnalysisLevels ==> use == AdvancedAnalysis
  {
    if level in ExplorationLevels then Exploration
    else if level in BasicAnalysisLevels then BasicAnalysis
    else if level in AdvancedAnalysisLevels then AdvancedAnalysis
    else AdvancedAnalysis
  }

  /**
   * The three level sets are pairwise disjoint, so the order in which the checks
   * run does not change the answer.
   */
  lemma LevelSetsDisjoint()
    ensures ExplorationLevels !! BasicAnalysisLevels
    ensures ExplorationLevels !! AdvancedAnalysisLevels
    ensures BasicAnalysisLevels !! AdvancedAnalysisLevels
  {
  }

  /** The checks taken in the reverse order: advanced, then basic, then exploration. */
  function IntendedUseReversed(level: string): string
  {
    if level in AdvancedAnalysisLevels then AdvancedAnalysis
    else if level in BasicAnalysisLevels then BasicAnalysis
    else if level in ExplorationLevels then Exploration
    else AdvancedAnalysis
  }

  lemma CheckOrderIrrelevant(level: string)
    ensures IntendedUse(level) == IntendedUseReversed(level)
  {
    LevelSetsDisjoint();
  }

  // ------------------------------------------------------------ source links

  /** The DOI field of a dataset: its `Authority` and `DOI` entries, each possibly absent. */
  datatype DoiField = DoiField(authority: Option<string>, doi: Option<string>)

  /** Python's truth value of an optional string. */
  predicate Present(s: Option<string>)
  {
    s.Some? && s.value != ""
  }

  /**
   * `generate_source_link`: the DOI resolved against the authority when both are
   * present and non-empty, else the empty string.
   */
  function SourceLink(field: DoiField, urljoin: (string, string) -> string): (link: string)
    ensures !Present(field.authority) || !Present(field.doi) ==> link == ""
    ensures Present(field.authority) && Present(field.doi) ==> link == urljoin(field.authority.value, field.doi.value)
  {
    if Present(field.authority) && Present(field.doi) then urljoin(field.authority.value, field.doi.value) else ""
  }

  // ------------------------------------------------------------ search ids

  const CmrIdPrefix := "/SDE/CMR_API/|"

  /** `concept_id_to_sinequa_id`. */
  function SinequaId(conceptId: string): (id: string)
    ensures |id| == |CmrIdPrefix| + |conceptId|
    ensures id[..|CmrIdPrefix|] == CmrIdPrefix && id[|CmrIdPrefix|..] == conceptId
  {
    CmrIdPrefix + conceptId
  }

  /** The concept id of a search-server id of the CMR source, if it is one. */
  function ConceptId(id: string): Option<string>
  {
    if |id| >= |CmrIdPrefix| && id[..|CmrIdPrefix|] == CmrIdPrefix then Some(id[|CmrIdPrefix|..]) else None
  }

  /** The search id and the concept id are inverse: every concept id round-trips, and so does every CMR search id. */
  lemma SinequaIdRoundTrip(conceptId: string, id: string)
    ensures ConceptId(SinequaId(conceptId)) == Some(conceptId)
    ensures ConceptId(id).Some? ==> SinequaId(ConceptId(id).value) == id
  {
    if ConceptId(id).Some? {
      assert id == id[..|CmrIdPrefix|] + id[|CmrIdPrefix|..];
    }
  }

  /** Distinct concepts get distinct search ids. */
  lemma SinequaIdInjective(a: string, b: string)
    requires SinequaId(a) == SinequaId(b)
    ensures a == b
  {
    SinequaIdRoundTrip(a, "");
    SinequaIdRoundTrip(b, "");
  }
}
