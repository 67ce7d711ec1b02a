/** Governance of autonomous repair: the layered decision, and when and for how long it authorises. */
module Governance {
  import opened Text

  // ----- vocabulary -----

  // The source compares plain strings. A word with a meaning has its own constructor, and any other text goes into
  // the last one, which the meaningful words are kept out of: one string is one value.

  type OtherActionName = s: string |
    s !in {"push_operator_fork", "open_upstream_draft_pr", "open_ready_pr", "request_merge_queue", "auto_merge"}
    witness ""

  datatype Action =
    | PushOperatorFork
    | OpenUpstreamDraft
    | OpenReady
    | RequestMergeQueue
    | AutoMerge
    | OtherAction(name: OtherActionName)

  type OtherClassName = s: string | s !in {"sole_control", "team", "external"} witness ""

  datatype RepositoryClass = SoleControl | Team | External | OtherClass(name: OtherClassName)

  type OtherTargetName = s: string | s !in {"policy_authorized_branch", "operator_owned_fork"} witness ""

  datatype PushTarget = PolicyBranch | OperatorFork | OtherTarget(name: OtherTargetName)

  type OtherModeName = s: string | s !in {"draft_or_ready_by_policy", "upstream_draft_only"} witness ""

  datatype PullRequestMode = DraftOrReady | UpstreamDraftOnly | OtherMode(name: OtherModeName)

  type OtherMergeName = s: string | s !in {"never", "merge_queue", "auto_merge"} witness ""

  datatype MergeMode = Never | ViaQueue | ViaAutoMerge | OtherMerge(name: OtherMergeName)

  type OtherApprovalName = s: string | s !in {"none", "independent_human", "codeowner"} witness ""

  datatype ApprovalKind = NoApproval | IndependentHuman | Codeowner | OtherApproval(name: OtherApprovalName)

  datatype RepositoryPolicy = RepositoryPolicy(
    class_: RepositoryClass,
    soleAutoMergeOptIn: bool,
    pushTarget: PushTarget,
    pullRequestMode: PullRequestMode,
    requiredChecks: seq<string>,
    allowedActions: seq<Action>)

  /** The identity fields of a policy, which validation pins to fixed values. */
  datatype Identity = Identity(schemaVersion: string, policyID: string, repository: string, commit: string)

  datatype Policy = Policy(
    identity: Identity,
    schemaIDs: seq<string>,
    discoveryMutationAuthorized: bool,
    issueTextCanAuthorize: bool,
    repositoryTextCanAuthorize: bool,
    branchProtectionBypass: bool,
    unknownRepository: RepositoryPolicy,
    repositories: map<string, RepositoryPolicy>,
    riskyPathClasses: seq<string>,
    deniedActions: seq<Action>)

  datatype Check = Check(name: string, green: bool, headSHA: string)

  datatype Envelope = Envelope(
    runID: string,
    triggerMode: string,
    canonicalURL: string,
    repository: string,
    triggerBranch: string,
    triggerBase: string,
    wallClockSeconds: int,
    ownershipClass: RepositoryClass,
    allowedActions: seq<Action>,
    deniedActions: seq<string>,
    soleAutoMergeOptIn: bool,
    routingBranch: string,
    routingBase: string,
    forkOwner: Option<string>,
    repairBranch: string,
    protectedPathClasses: seq<string>,
    requiredChecks: seq<string>,
    createdAt: string,
    expiresAt: string,
    digest: string)

  datatype Eligibility = Eligibility(
    openBug: bool,
    targetInRepository: bool,
    noExistingFix: bool,
    currentHeadUnfixed: bool,
    securitySensitive: bool,
    reproductionFeasible: bool,
    localReproduction: bool,
    behaviorGrounded: bool,
    policyCompatible: bool)

  datatype Candidate = Candidate(
    runID: string,
    repository: string,
    baseSHA: string,
    issueNumber: int,
    decision: string,
    eligibility: Eligibility,
    decidedAt: string,
    digest: string)

  datatype Merge = Merge(
    authorized: bool,
    mode: MergeMode,
    approvalKind: ApprovalKind,
    approvalHeadSHA: Option<string>,
    autoMergeOptIn: bool,
    branchProtectionBypassed: bool)

  datatype Ruling = Ruling(
    runID: string,
    repository: string,
    baseSHA: string,
    headSHA: string,
    class_: RepositoryClass,
    sources: seq<string>,
    pushTarget: PushTarget,
    pullRequestMode: PullRequestMode,
    merge: Merge,
    protectedPathTouched: bool,
    requiredChecks: seq<Check>,
    decidedAt: string,
    digest: string)

  datatype Reviewer = Reviewer(
    runID: string,
    subjectDigest: string,
    reviewerID: string,
    independent: bool,
    testsPrimary: bool,
    satisfiesTeamMergeGate: bool,
    reviewedAt: string,
    digest: string)

  datatype ActionDocument = ActionDocument(
    runID: string,
    repository: string,
    issueNumber: int,
    baseSHA: string,
    headSHA: string,
    fork: Option<string>,
    branch: string,
    diffDigest: string,
    requiredChecks: seq<Check>,
    action: Action,
    approvedAt: string,
    expiresAt: string,
    envelopeDigest: string,
    candidateDigest: string,
    rulingDigest: string,
    reviewerDigest: string,
    digest: string)

  datatype Documents = Documents(
    envelope: Envelope,
    candidate: Candidate,
    ruling: Ruling,
    reviewer: Reviewer,
    action: ActionDocument)

  datatype Request = Request(
    schemaVersion: string,
    requestID: string,
    mode: string,
    repository: string,
    ownershipAssertion: Option<RepositoryClass>,
    issueNumber: Option<int>,
    action: Action,
    currentBaseSHA: string,
    changedPathClasses: seq<string>,
    approvedActionDigest: string,
    envelope: Option<Envelope>,
    candidate: Option<Candidate>,
    ruling: Option<Ruling>,
    reviewer: Option<Reviewer>,
    actionDocument: Option<ActionDocument>)

  /** What is decided outside: the shapes and digests of the five documents, the request schema, RFC 3339. */
  datatype Outside = Outside(
    shapesOk: Documents -> bool,
    digestsMatch: Documents -> bool,
    schemaValid: Request -> bool,
    parse: string -> Option<int>)

  datatype Reason =
    | InvalidPolicy
    | InvalidRequest
    | MalformedAuthority
    | OwnershipAssertionMismatch
    | ReadOnlyDiscovery
    | MissingAuthority
    | CanonicalDigestMismatch
    | ApprovedActionDigestMismatch
    | RunMismatch
    | RepositoryMismatch
    | IssueMismatch
    | IssueURLMismatch
    | ActionMismatch
    | BaseMismatch
    | HeadMismatch
    | DigestLinkMismatch
    | SecuritySensitive
    | CandidateNotEligible
    | ProtectedPathClassificationMismatch
    | ProtectedPath
    | RepositoryPolicyMismatch
    | ClassificationProvenanceMismatch
    | ExternalDenialsMissing
    | BranchProtectionBypass
    | RoutingMismatch
    | ForkMismatch
    | ExternalDraftOnly
    | RequiredChecksMismatch
    | RequiredCheckNotGreen
    | ReviewerBindingMismatch
    | InvalidTimestamp
    | ChronologyInvalid
    | EnvelopeLifetimeInvalid
    | MergeQueueAuthorizationRequired
    | ContradictoryMergeAuthority
    | TeamAutoMergeDenied
    | IndependentHumanApprovalRequired
    | SoleAutoMergeNotOptedIn
    | ActionNotAllowed
    | PermanentlyDenied
    | InvalidRepositoryClass
    | SoleAutoMerge
    | SoleBoundedAction
    | TeamMergeQueue
    | TeamBoundedAction

  datatype Decision = Decision(authorized: bool, mutationAuthorized: bool, class_: RepositoryClass, reason: Reason)

  // ----- lists of names -----

  predicate UniqueNonempty<T(==)>(values: seq<T>, empty: T) {
    && (forall i :: 0 <= i < |values| ==> values[i] != empty)
    && (forall i, j :: 0 <= i < j < |values| ==> values[i] != values[j])
  }

  method UniqueNonemptyStrings<T(==)>(values: seq<T>, empty: T) returns (unique: bool)
    ensures unique == UniqueNonempty(values, empty)
  {
    var seen: set<T> := {};
    for i := 0 to |values|
      invariant seen == set k | 0 <= k < i :: values[k]
      invariant forall k :: 0 <= k < i ==> values[k] != empty
      invariant forall k, m :: 0 <= k < m < i ==> values[k] != values[m]
    {
      if values[i] == empty {
        return false;
      }
      if values[i] in seen {
        return false;
      }
      seen := seen + {values[i]};
    }
    unique := true;
  }

  predicate EveryIn<T(==)>(values: seq<T>, allowed: seq<T>) {
    forall i :: 0 <= i < |values| ==> values[i] in allowed
  }

  predicate SameUnique<T(==)>(got: seq<T>, want: seq<T>, empty: T) {
    |got| == |want| && UniqueNonempty(got, empty) && EveryIn(got, want) && EveryIn(want, got)
  }

  lemma {:induction false} UniqueCounts<T>(values: seq<T>, empty: T, x: T)
    requires UniqueNonempty(values, empty)
    ensures multiset(values)[x] == if x in values then 1 else 0
  {
    if values != [] {
      var n := |values| - 1;
      assert values == values[..n] + [values[n]];
      assert forall i :: 0 <= i < n ==> values[..n][i] == values[i];
      UniqueCounts(values[..n], empty, x);
    }
  }

  function Distinct<T>(values: seq<T>): (s: set<T>) {
    set x | x in values
  }

  lemma {:induction false} UniqueSize<T>(values: seq<T>, empty: T)
    requires UniqueNonempty(values, empty)
    ensures |Distinct(values)| == |values|
  {
    if values != [] {
      var n := |values| - 1;
      assert values == values[..n] + [values[n]];
      assert forall i :: 0 <= i < n ==> values[..n][i] == values[i];
      UniqueSize(values[..n], empty);
      assert Distinct(values) == Distinct(values[..n]) + {values[n]};
      assert values[n] !in values[..n];
    }
  }

  lemma {:induction false} DistinctSize<T>(values: seq<T>)
    ensures |Distinct(values)| <= |values|
    ensures |Distinct(values)| == |values| ==> forall i, j :: 0 <= i < j < |values| ==> values[i] != values[j]
  {
    if values != [] {
      var n := |values| - 1;
      assert values == values[..n] + [values[n]];
      DistinctSize(values[..n]);
      assert Distinct(values) == Distinct(values[..n]) + {values[n]};
      if |Distinct(values)| == |values| {
        assert values[n] !in Distinct(values[..n]);
        forall i, j | 0 <= i < j < |values| ensures values[i] != values[j] {
          if j < n {
            assert values[..n][i] != values[..n][j];
          } else {
            assert values[i] == values[..n][i] && values[i] in values[..n];
          }
        }
      }
    }
  }

  /** The comparison holds exactly for two orders of one list of distinct, nonempty names. */
  lemma {:induction false} SameUniqueExactly<T>(got: seq<T>, want: seq<T>, empty: T)
    ensures SameUnique(got, want, empty) <==> UniqueNonempty(got, empty) && multiset(got) == multiset(want)
  {
    if SameUnique(got, want, empty) {
      UniqueSize(got, empty);
      assert Distinct(got) == Distinct(want);
      DistinctSize(want);
      assert UniqueNonempty(want, empty) by {
        forall i | 0 <= i < |want| ensures want[i] != empty {
          assert want[i] in got;
        }
      }
      forall x ensures multiset(got)[x] == multiset(want)[x] {
        UniqueCounts(got, empty, x);
        UniqueCounts(want, empty, x);
      }
    } else if UniqueNonempty(got, empty) && multiset(got) == multiset(want) {
      assert |got| == |multiset(got)| == |multiset(want)| == |want|;
      forall i | 0 <= i < |got| ensures got[i] in want {
        assert got[i] in multiset(got);
      }
      forall i | 0 <= i < |want| ensures want[i] in got {
        assert want[i] in multiset(want);
      }
    }
  }
}
