/** The workflow statuses of a collection that the modelled code names. */
module Workflow {

  datatype WorkflowStatus =
    | ResearchInProgress
    | ReadyForEngineering
    | EngineeringInProgress
    | ReadyForCuration
    | CurationInProgress
    | Curated
    | QualityFixed
    | SecretDeploymentStarted
    | SecretDeploymentFailed
    | ReadyForLrmQualityCheck
    | ReadyForFinalQualityCheck
    | QualityCheckFailed
    | QualityCheckMinor
    | QualityCheckPerfect
    | ProdPerfect
    | ProdMinor
    | ProdMajor
      /** Any status that the modelled code never names. */
    | OtherStatus(code: int)
}
