/** The authority check of autonomous repair, layer by layer, and the decision built on it. */
module RepairAuthority {
  import opened Text
  import opened Governance

  const POLICY_IDENTITY := Identity(
    "covenant.autonomous-repair-governance-policy.v1", "autonomous-repair-governance-v1",
    "uesugitorachiyo/ao-architecture", "b8c64860003238ab45fe7c76d7e8950f80a4043b")

  const REQUEST_SCHEMA := "covenant.autonomous-repair-governance-request.v1"

  const SCHEMA_IDS: seq<string> := [
    "ao.architecture.autonomous-issue-repair.run-envelope.v1",
    "ao.architecture.autonomous-issue-repair.discovery-result.v1",
    "ao.architecture.autonomous-issue-repair.candidate-decision.v1",
    "ao.architecture.autonomous-issue-repair.event.v1",
    "ao.architecture.autonomous-issue-repair.checkpoint.v1",
    "ao.architecture.autonomous-issue-repair.governance-decision.v1",
    "ao.architecture.autonomous-issue-repair.reviewer-independence.v1",
    "ao.architecture.autonomous-issue-repair.github-action-digest.v1"]

  const RISKY_CLASSES: seq<string> := [
    "dependency", "workflow", "credential", "permission", "policy", "schema", "migration", "release",
    "security_boundary", "generated_artifact"]

  const DENIED_ACTIONS: seq<Action> := [
    OtherAction("open_ready_pr_external"), OtherAction("request_merge_queue_external"),
    OtherAction("auto_merge_external"), OtherAction("approve_review"), OtherAction("mutate_issue")]

  const NO_ACTION := OtherAction("")

  // ----- policy -----

  predicate ValidRepositoryName(repository: string) {
    var parts := Split(repository, '/');
    |parts| == 2 && parts[0] != "" && parts[1] != ""
  }

  predicate ValidRepositoryPolicy(p: RepositoryPolicy, allowSole: bool) {
    && !p.class_.OtherClass? && !p.pushTarget.OtherTarget? && !p.pullRequestMode.OtherMode?
    && p.requiredChecks != [] && UniqueNonempty(p.requiredChecks, "")
    && p.allowedActions != [] && UniqueNonempty(p.allowedActions, NO_ACTION)
    && (forall a :: a in p.allowedActions ==> !a.OtherAction?)
    && match p.class_
       case External =>
         && !p.soleAutoMergeOptIn && p.pushTarget.OperatorFork? && p.pullRequestMode.UpstreamDraftOnly?
         && EveryIn(p.allowedActions, [PushOperatorFork, OpenUpstreamDraft])
       case Team => !p.soleAutoMergeOptIn && AutoMerge !in p.allowedActions
       case SoleControl => allowSole
       case OtherClass(_) => false
  }

  predicate ValidPolicy(p: Policy) {
    && p.identity == POLICY_IDENTITY && SameUnique(p.schemaIDs, SCHEMA_IDS, "")
    && !p.discoveryMutationAuthorized && !p.issueTextCanAuthorize && !p.repositoryTextCanAuthorize
    && !p.branchProtectionBypass
    && SameUnique(p.riskyPathClasses, RISKY_CLASSES, "") && SameUnique(p.deniedActions, DENIED_ACTIONS, NO_ACTION)
    && ValidRepositoryPolicy(p.unknownRepository, false) && p.unknownRepository.class_.External?
    && p.repositories != map[]
    && forall name :: name in p.repositories ==>
         && ValidRepositoryName(name) && ValidRepositoryPolicy(p.repositories[name], true)
         && !(HasPrefix(name, "uesugitorachiyo/ao") && p.repositories[name].soleAutoMergeOptIn)
  }

  predicate Configured(p: Policy, repository: string) {
    repository in p.repositories
  }

  function PolicyFor(p: Policy, repository: string): RepositoryPolicy {
    if repository in p.repositories then p.repositories[repository] else p.unknownRepository
  }

  // ----- request -----

  predicate NoWriteEvidence(r: Request) {
    && r.ownershipAssertion.None? && r.issueNumber.None? && r.action == NO_ACTION && r.currentBaseSHA == ""
    && r.changedPathClasses == [] && r.approvedActionDigest == ""
    && r.envelope.None? && r.candidate.None? && r.ruling.None? && r.reviewer.None? && r.actionDocument.None?
  }

  predicate HasDocuments(r: Request) {
    r.envelope.Some? && r.candidate.Some? && r.ruling.Some? && r.reviewer.Some? && r.actionDocument.Some?
  }

  function DocumentsOf(r: Request): Documents
    requires HasDocuments(r)
  {
    Documents(r.envelope.value, r.candidate.value, r.ruling.value, r.reviewer.value, r.actionDocument.value)
  }

  predicate RequestShapeOk(r: Request) {
    && r.schemaVersion == REQUEST_SCHEMA && r.requestID != "" && r.repository != ""
    && if r.mode == "discovery" then NoWriteEvidence(r)
       else
         && r.mode == "write" && r.issueNumber.Some? && r.issueNumber.value >= 1
         && r.currentBaseSHA != "" && r.approvedActionDigest != "" && HasDocuments(r)
         && !r.action.OtherAction?
  }

  // ----- the layers of the authority check -----

  function Decimal(n: int): string {
    if n < 0 then "-" + Digits(-n) else Digits(n)
  }

  function IssueURL(repository: string, issue: int): string {
    "https://github.com/" + repository + "/issues/" + Decimal(issue)
  }

  /** Do the five documents speak of one run, repository, issue, action and commit? */
  function ValidateIdentity(r: Request, d: Documents): Option<Reason> {
    var a, e := d.action, d.envelope;
    if r.approvedActionDigest != a.digest then Some(ApprovedActionDigestMismatch)
    else if e.runID != a.runID || d.candidate.runID != a.runID || d.ruling.runID != a.runID || d.reviewer.runID != a.runID
    then Some(RunMismatch)
    else if r.repository != a.repository || e.repository != a.repository || d.candidate.repository != a.repository
            || d.ruling.repository != a.repository
    then Some(RepositoryMismatch)
    else if r.issueNumber != Some(a.issueNumber) || d.candidate.issueNumber != a.issueNumber then Some(IssueMismatch)
    else if e.triggerMode != "explicit_issue" || e.canonicalURL != IssueURL(a.repository, a.issueNumber)
    then Some(IssueURLMismatch)
    else if r.action != a.action then Some(ActionMismatch)
    else if r.currentBaseSHA != a.baseSHA || e.triggerBase != a.baseSHA || e.routingBase != a.baseSHA
            || d.candidate.baseSHA != a.baseSHA || d.ruling.baseSHA != a.baseSHA
    then Some(BaseMismatch)
    else if d.ruling.headSHA != a.headSHA then Some(HeadMismatch)
    else if a.envelopeDigest != e.digest || a.candidateDigest != d.candidate.digest
            || a.rulingDigest != d.ruling.digest || a.reviewerDigest != d.reviewer.digest
    then Some(DigestLinkMismatch)
    else None
  }

  predicate Eligible(e: Eligibility) {
    && e.openBug && e.targetInRepository && e.noExistingFix && e.currentHeadUnfixed && !e.securitySensitive
    && e.reproductionFeasible && e.localReproduction && e.behaviorGrounded && e.policyCompatible
  }

  predicate TouchesProtectedPath(p: Policy, r: Request) {
    exists c :: c in r.changedPathClasses && c in p.riskyPathClasses
  }

  function ValidateCandidate(p: Policy, r: Request, d: Documents): Option<Reason> {
    if d.candidate.decision != "selected" || !Eligible(d.candidate.eligibility) then
      Some(if d.candidate.eligibility.securitySensitive then SecuritySensitive else CandidateNotEligible)
    else if d.ruling.protectedPathTouched != TouchesProtectedPath(p, r) then Some(ProtectedPathClassificationMismatch)
    else if TouchesProtectedPath(p, r) then Some(ProtectedPath)
    else None
  }

  predicate MatchesRepositoryPolicy(p: Policy, rp: RepositoryPolicy, d: Documents) {
    && d.envelope.ownershipClass == rp.class_ && d.ruling.class_ == rp.class_
    && d.envelope.soleAutoMergeOptIn == rp.soleAutoMergeOptIn
    && d.ruling.pushTarget == rp.pushTarget && d.ruling.pullRequestMode == rp.pullRequestMode
    && SameUnique(d.envelope.requiredChecks, rp.requiredChecks, "")
    && SameUnique(d.envelope.protectedPathClasses, p.riskyPathClasses, "")
    && d.action.action in d.envelope.allowedActions && EveryIn(d.envelope.allowedActions, rp.allowedActions)
    && d.action.action in rp.allowedActions
  }

  function ValidatePolicyMatch(p: Policy, rp: RepositoryPolicy, configured: bool, d: Documents): Option<Reason> {
    if !MatchesRepositoryPolicy(p, rp, d) then Some(RepositoryPolicyMismatch)
    else if !SameUnique(d.ruling.sources, [if configured then "repository_policy" else "unknown_default"], "")
    then Some(ClassificationProvenanceMismatch)
    else if rp.class_.External? && !EveryIn(["open_ready_pr", "approve_review", "merge", "mutate_issue"], d.envelope.deniedActions)
    then Some(ExternalDenialsMissing)
    else if d.ruling.merge.branchProtectionBypassed then Some(BranchProtectionBypass)
    else None
  }

  /** The name part of owner/name. */
  function RepositoryNameOf(repository: string): string
    requires ValidRepositoryName(repository)
  {
    Split(repository, '/')[1]
  }

  function ValidateRouting(rp: RepositoryPolicy, d: Documents): Option<Reason>
    requires ValidRepositoryName(d.action.repository)
  {
    var e, a := d.envelope, d.action;
    if e.triggerBranch != e.routingBranch || e.triggerBase != e.routingBase || a.branch != e.repairBranch
    then Some(RoutingMismatch)
    else if d.ruling.pushTarget.OperatorFork? && (e.forkOwner.None? || a.fork.None?) then Some(ForkMismatch)
    else if d.ruling.pushTarget.OperatorFork? && a.fork.value != e.forkOwner.value + "/" + RepositoryNameOf(a.repository)
    then Some(ForkMismatch)
    else if !d.ruling.pushTarget.OperatorFork? && (e.forkOwner.Some? || a.fork.Some?) then Some(ForkMismatch)
    else if rp.class_.External? && (!d.ruling.pushTarget.OperatorFork? || !d.ruling.pullRequestMode.UpstreamDraftOnly?)
    then Some(ExternalDraftOnly)
    else None
  }

  function Names(checks: seq<Check>): (names: seq<string>)
    ensures |names| == |checks|
  {
    seq(|checks|, i requires 0 <= i < |checks| => checks[i].name)
  }

  predicate Green(checks: seq<Check>, headSHA: string) {
    forall i :: 0 <= i < |checks| ==> checks[i].green && checks[i].headSHA == headSHA
  }

  function ValidateChecks(expected: seq<string>, d: Documents): Option<Reason> {
    if expected == [] || |d.ruling.requiredChecks| != |expected| || |d.action.requiredChecks| != |expected|
    then Some(RequiredChecksMismatch)
    else if !Green(d.ruling.requiredChecks, d.action.headSHA) || !Green(d.action.requiredChecks, d.action.headSHA)
    then Some(RequiredCheckNotGreen)
    else if !SameUnique(Names(d.ruling.requiredChecks), expected, "") || !SameUnique(Names(d.action.requiredChecks), expected, "")
    then Some(RequiredChecksMismatch)
    else None
  }

  method CollectNames(checks: seq<Check>, headSHA: string) returns (names: Option<seq<string>>)
    ensures names == if Green(checks, headSHA) then Some(Names(checks)) else None
  {
    var list: seq<string> := [];
    for i := 0 to |checks|
      invariant list == Names(checks[..i])
      invariant forall k :: 0 <= k < i ==> checks[k].green && checks[k].headSHA == headSHA
    {
      list := list + [checks[i].name];
      assert checks[..i + 1] == checks[..i] + [checks[i]];
      if !checks[i].green || checks[i].headSHA != headSHA {
        return None;
      }
    }
    assert checks[..|checks|] == checks;
    names := Some(list);
  }

  method ValidateArchitectureChecks(expected: seq<string>, d: Documents) returns (reason: Option<Reason>)
    ensures reason == ValidateChecks(expected, d)
  {
    if |expected| == 0 || |d.ruling.requiredChecks| != |expected| || |d.action.requiredChecks| != |expected| {
      return Some(RequiredChecksMismatch);
    }
    var rulingNames := CollectNames(d.ruling.requiredChecks, d.action.headSHA);
    if rulingNames.None? {
      return Some(RequiredCheckNotGreen);
    }
    var actionNames := CollectNames(d.action.requiredChecks, d.action.headSHA);
    if actionNames.None? {
      return Some(RequiredCheckNotGreen);
    }
    if !SameUnique(rulingNames.value, expected, "") || !SameUnique(actionNames.value, expected, "") {
      return Some(RequiredChecksMismatch);
    }
    reason := None;
  }

  // ----- time -----

  const SECOND: int := 1_000_000_000
  const DAY: int := 24 * 60 * 60 * SECOND
  const MAX_INT64: int := 0x7fff_ffff_ffff_ffff
  const MIN_INT64: int := -0x8000_0000_0000_0000

  /** The difference of two instants as a Duration: it saturates. */
  function Sub(a: int, b: int): int {
    if a - b > MAX_INT64 then MAX_INT64 else if a - b < MIN_INT64 then MIN_INT64 else a - b
  }

  /** A product of 64-bit integers: it wraps around. */
  function Wrap64(x: int): int {
    (x + 0x8000_0000_0000_0000) % 0x1_0000_0000_0000_0000 - 0x8000_0000_0000_0000
  }

  /** The instants of the five documents, in nanoseconds. */
  datatype Times = Times(
    created: int,
    envelopeExpires: int,
    candidate: int,
    ruling: int,
    reviewer: int,
    approved: int,
    actionExpires: int)

  function TimesOf(d: Documents, parse: string -> Option<int>): Option<Times> {
    match (parse(d.envelope.createdAt), parse(d.envelope.expiresAt), parse(d.candidate.decidedAt),
           parse(d.ruling.decidedAt), parse(d.reviewer.reviewedAt), parse(d.action.approvedAt), parse(d.action.expiresAt))
    case (Some(a), Some(b), Some(c), Some(e), Some(f), Some(g), Some(h)) => Some(Times(a, b, c, e, f, g, h))
    case _ => None
  }

  predicate ChronologyOk(t: Times, now: int) {
    && !(t.created > now) && now < t.envelopeExpires && now < t.actionExpires
    && t.created < t.envelopeExpires && t.approved < t.actionExpires
    && Sub(t.actionExpires, t.approved) <= DAY
    && !(t.actionExpires > t.envelopeExpires)
    && !(t.candidate < t.created) && !(t.ruling < t.created) && !(t.reviewer < t.created)
    && !(t.approved < t.candidate) && !(t.approved < t.ruling) && !(t.approved < t.reviewer)
    && !(t.approved > now)
  }

  predicate LifetimeOk(t: Times, wallClockSeconds: int) {
    wallClockSeconds >= 1 && Sub(t.envelopeExpires, t.created) <= Wrap64(wallClockSeconds * SECOND)
  }

  function ValidateChronology(d: Documents, now: int, parse: string -> Option<int>): Option<Reason> {
    match TimesOf(d, parse)
    case None => Some(InvalidTimestamp)
    case Some(t) =>
      if !ChronologyOk(t, now) then Some(ChronologyInvalid)
      else if !LifetimeOk(t, d.envelope.wallClockSeconds) then Some(EnvelopeLifetimeInvalid)
      else None
  }

  // ----- the action's class -----

  predicate NoMerge(m: Merge) {
    !m.authorized && m.mode.Never? && m.approvalKind.NoApproval? && m.approvalHeadSHA.None? && !m.autoMergeOptIn
  }

  predicate AutomatedReviewer(id: string) {
    var n := ToLower(id);
    Contains(n, "automated") || Contains(n, "[bot]") || HasPrefix(n, "ao-") || HasPrefix(n, "codex")
  }

  predicate HumanApproved(d: Documents) {
    var m := d.ruling.merge;
    && m.authorized && m.mode.ViaQueue? && (m.approvalKind.IndependentHuman? || m.approvalKind.Codeowner?)
    && m.approvalHeadSHA == Some(d.action.headSHA)
    && d.reviewer.independent && d.reviewer.satisfiesTeamMergeGate && !AutomatedReviewer(d.reviewer.reviewerID)
  }

  function ValidateActionClass(rp: RepositoryPolicy, d: Documents): Option<Reason> {
    var a, m := d.action.action, d.ruling.merge;
    if a.RequestMergeQueue? && (!m.authorized || !m.mode.ViaQueue?) then Some(MergeQueueAuthorizationRequired)
    else if !a.RequestMergeQueue? && !a.AutoMerge? && !NoMerge(m) then Some(ContradictoryMergeAuthority)
    else match rp.class_
      case External =>
        if !a.PushOperatorFork? && !a.OpenUpstreamDraft? then Some(ExternalDraftOnly)
        else if !NoMerge(m) then Some(ExternalDraftOnly)
        else None
      case Team =>
        if a.AutoMerge? then Some(TeamAutoMergeDenied)
        else if a.RequestMergeQueue? && !HumanApproved(d) then Some(IndependentHumanApprovalRequired)
        else None
      case SoleControl =>
        if a.AutoMerge? && (!rp.soleAutoMergeOptIn || !m.authorized || !m.mode.ViaAutoMerge? || !m.autoMergeOptIn)
        then Some(SoleAutoMergeNotOptedIn)
        else None
      case OtherClass(_) => None
  }

  // ----- the whole check -----

  function OrElse(first: Option<Reason>, second: Option<Reason>): Option<Reason> {
    if first.Some? then first else second
  }

  /** The checks after shape and digests, in order; only the chronology looks at the clock. */
  function ValidateDocuments(
    p: Policy, rp: RepositoryPolicy, configured: bool, r: Request, d: Documents, now: int, o: Outside): Option<Reason>
    requires ValidRepositoryName(d.action.repository)
  {
    OrElse(ValidateIdentity(r, d),
    OrElse(ValidateCandidate(p, r, d),
    OrElse(ValidatePolicyMatch(p, rp, configured, d),
    OrElse(ValidateRouting(rp, d),
    OrElse(ValidateChecks(rp.requiredChecks, d),
    OrElse(if d.reviewer.subjectDigest != d.action.diffDigest || !d.reviewer.testsPrimary
           then Some(ReviewerBindingMismatch) else None,
    OrElse(ValidateChronology(d, now, o.parse),
           ValidateActionClass(rp, d))))))))
  }

  function ValidateAuthority(
    p: Policy, rp: RepositoryPolicy, configured: bool, r: Request, now: int, o: Outside): Option<Reason>
  {
    if !HasDocuments(r) then Some(MissingAuthority)
    else
      var d := DocumentsOf(r);
      if !ValidRepositoryName(d.action.repository) || !o.shapesOk(d) then Some(MalformedAuthority)
      else if !o.digestsMatch(d) then Some(CanonicalDigestMismatch)
      else ValidateDocuments(p, rp, configured, r, d, now, o)
  }

  function Allow(class_: RepositoryClass, reason: Reason, mutation: bool): Decision {
    Decision(true, mutation, class_, reason)
  }

  function Deny(class_: RepositoryClass, reason: Reason): Decision {
    Decision(false, false, class_, reason)
  }

  function DecideByClass(rp: RepositoryPolicy, configured: bool, action: Action): Decision {
    match rp.class_
    case External =>
      if !action.PushOperatorFork? && !action.OpenUpstreamDraft? then Deny(rp.class_, ExternalDraftOnly)
      else Allow(rp.class_, ExternalDraftOnly, true)
    case SoleControl =>
      if action.AutoMerge? then
        if !configured || !rp.soleAutoMergeOptIn then Deny(rp.class_, SoleAutoMergeNotOptedIn)
        else Allow(rp.class_, SoleAutoMerge, true)
      else Allow(rp.class_, SoleBoundedAction, true)
    case Team =>
      if action.AutoMerge? then Deny(rp.class_, TeamAutoMergeDenied)
      else if action.RequestMergeQueue? then Allow(rp.class_, TeamMergeQueue, true)
      else Allow(rp.class_, TeamBoundedAction, true)
    case OtherClass(_) => Deny(rp.class_, InvalidRepositoryClass)
  }

  function Evaluate(p: Policy, r: Request, now: int, o: Outside): Decision {
    var rp, configured := PolicyFor(p, r.repository), Configured(p, r.repository);
    if !ValidPolicy(p) then Deny(rp.class_, InvalidPolicy)
    else if !RequestShapeOk(r) then Deny(rp.class_, InvalidRequest)
    else if !o.schemaValid(r) then Deny(rp.class_, MalformedAuthority)
    else if r.ownershipAssertion.Some? && r.ownershipAssertion.value != rp.class_ then Deny(rp.class_, OwnershipAssertionMismatch)
    else if r.mode == "discovery" then Allow(rp.class_, ReadOnlyDiscovery, false)
    else match ValidateAuthority(p, rp, configured, r, now, o)
      case Some(reason) => Deny(rp.class_, reason)
      case None =>
        if r.action !in rp.allowedActions then Deny(rp.class_, ActionNotAllowed)
        else if r.action in p.deniedActions then Deny(rp.class_, PermanentlyDenied)
        else DecideByClass(rp, configured, r.action)
  }
}
