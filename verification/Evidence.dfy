/** The evidence pack a run leaves beside its ledger. */
module Evidence {
  import Policy
  import Closure

  datatype ArtifactRef = ArtifactRef(
    artifactID: string,
    uri: string,
    digest: string,
    mediaType: string,
    producerEventID: string,
    path: string)

  datatype FailureRecord = FailureRecord(
    failureID: string,
    eventID: string,
    taskID: string,
    phase: string,
    reason: string)

  datatype EvidencePack = EvidencePack(
    runID: string,
    contractDigest: string,
    ledgerDigest: string,
    runStatus: string,
    artifacts: seq<ArtifactRef>,
    decisions: seq<Policy.Decision>,
    failures: seq<FailureRecord>,
    matrix: Closure.Matrix)
}
