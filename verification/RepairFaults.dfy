/** Every denial of the governance names a fault that the request really has, and every fault denies: the whole
    decision by the fields of the documents, whatever the order of the checks. */
module RepairFaults {
  import opened Text
  import opened Governance
  import opened RepairAuthority
  import opened RepairTheorems
  import PolicyRulings

  // ----- faults, layer by layer -----

  /** An order of a list of distinct nonempty names. */
  ghost predicate OrderOf<T>(got: seq<T>, want: seq<T>, empty: T) {
    && empty !in got && (forall i, j :: 0 <= i < j < |got| ==> got[i] != got[j]) && multiset(got) == multiset(want)
  }

  lemma {:induction false} OrderExactly<T>(got: seq<T>, want: seq<T>, empty: T)
    ensures SameUnique(got, want, empty) <==> OrderOf(got, want, empty)
  {
    SameUniqueExactly(got, want, empty);
  }

  ghost predicate IdentityFault(x: Reason, r: Request, d: Documents) {
    match x
    case ApprovedActionDigestMismatch => r.approvedActionDigest != d.action.digest
    case RunMismatch =>
      !(d.action.runID == d.envelope.runID == d.candidate.runID == d.ruling.runID == d.reviewer.runID)
    case RepositoryMismatch =>
      !(d.action.repository == r.repository == d.envelope.repository == d.candidate.repository == d.ruling.repository)
    case IssueMismatch => r.issueNumber != Some(d.action.issueNumber) || d.candidate.issueNumber != d.action.issueNumber
    case IssueURLMismatch =>
      || d.envelope.triggerMode != "explicit_issue"
      || d.envelope.canonicalURL !=
           "https://github.com/" + d.action.repository + "/issues/" + Decimal(d.action.issueNumber)
    case ActionMismatch => r.action != d.action.action
    case BaseMismatch =>
      !(d.action.baseSHA == r.currentBaseSHA == d.envelope.triggerBase == d.envelope.routingBase
        == d.candidate.baseSHA == d.ruling.baseSHA)
    case HeadMismatch => d.ruling.headSHA != d.action.headSHA
    case DigestLinkMismatch =>
      !(d.action.envelopeDigest == d.envelope.digest && d.action.candidateDigest == d.candidate.digest
        && d.action.rulingDigest == d.ruling.digest && d.action.reviewerDigest == d.reviewer.digest)
    case _ => false
  }

  lemma {:induction false} IdentityFaults(x: Reason, r: Request, d: Documents)
    ensures ValidateIdentity(r, d) == Some(x) ==> IdentityFault(x, r, d)
    ensures ValidateIdentity(r, d).None? ==> !IdentityFault(x, r, d)
  {
    FoundIdentityFault(x, r, d);
    NoIdentityFault(x, r, d);
    hide *;
  }

  lemma {:induction false} FoundIdentityFault(x: Reason, r: Request, d: Documents)
    ensures ValidateIdentity(r, d) == Some(x) ==> IdentityFault(x, r, d)
  {
    hide Decimal;
    if ValidateIdentity(r, d) == Some(x) {
      match x {
        case ApprovedActionDigestMismatch => assert IdentityFault(x, r, d);
        case RunMismatch => assert IdentityFault(x, r, d);
        case RepositoryMismatch => assert IdentityFault(x, r, d);
        case IssueMismatch => assert IdentityFault(x, r, d);
        case IssueURLMismatch => assert IdentityFault(x, r, d);
        case ActionMismatch => assert IdentityFault(x, r, d);
        case BaseMismatch => assert IdentityFault(x, r, d);
        case HeadMismatch => assert IdentityFault(x, r, d);
        case DigestLinkMismatch => assert IdentityFault(x, r, d);
        case _ =>
      }
    }
  }

  lemma {:induction false} NoIdentityFault(x: Reason, r: Request, d: Documents)
    ensures ValidateIdentity(r, d).None? ==> !IdentityFault(x, r, d)
  {
    hide Decimal;
  }

  /** One of the nine findings on the candidate is missing, or it is security sensitive. */
  predicate Ineligible(e: Eligibility) {
    || !e.openBug || !e.targetInRepository || !e.noExistingFix || !e.currentHeadUnfixed || e.securitySensitive
    || !e.reproductionFeasible || !e.localReproduction || !e.behaviorGrounded || !e.policyCompatible
  }

  ghost predicate CandidateFault(x: Reason, p: Policy, r: Request, d: Documents) {
    var e, touches := d.candidate.eligibility, exists c :: c in r.changedPathClasses && c in p.riskyPathClasses;
    match x
    case SecuritySensitive => e.securitySensitive
    case CandidateNotEligible => (d.candidate.decision != "selected" || Ineligible(e)) && !e.securitySensitive
    case ProtectedPathClassificationMismatch => d.ruling.protectedPathTouched != touches
    case ProtectedPath => touches
    case _ => false
  }

  lemma {:induction false} CandidateFaults(x: Reason, p: Policy, r: Request, d: Documents)
    ensures ValidateCandidate(p, r, d) == Some(x) ==> CandidateFault(x, p, r, d)
    ensures ValidateCandidate(p, r, d).None? ==> !CandidateFault(x, p, r, d)
  {
  }

  const EXTERNAL_DENIALS: seq<string> := ["open_ready_pr", "approve_review", "merge", "mutate_issue"]

  /** The documents agree with the repository's policy. */
  ghost predicate AgreesWithPolicy(p: Policy, rp: RepositoryPolicy, d: Documents) {
    && d.envelope.ownershipClass == rp.class_ == d.ruling.class_
    && d.envelope.soleAutoMergeOptIn == rp.soleAutoMergeOptIn
    && d.ruling.pushTarget == rp.pushTarget && d.ruling.pullRequestMode == rp.pullRequestMode
    && OrderOf(d.envelope.requiredChecks, rp.requiredChecks, "")
    && OrderOf(d.envelope.protectedPathClasses, p.riskyPathClasses, "")
    && d.action.action in d.envelope.allowedActions
    && (forall a :: a in d.envelope.allowedActions ==> a in rp.allowedActions)
  }

  ghost predicate PolicyFault(x: Reason, p: Policy, rp: RepositoryPolicy, configured: bool, d: Documents) {
    match x
    case RepositoryPolicyMismatch => !AgreesWithPolicy(p, rp, d)
    case ClassificationProvenanceMismatch => d.ruling.sources != [if configured then "repository_policy" else "unknown_default"]
    case ExternalDenialsMissing => rp.class_.External? && exists name :: name in EXTERNAL_DENIALS && name !in d.envelope.deniedActions
    case BranchProtectionBypass => d.ruling.merge.branchProtectionBypassed
    case _ => false
  }

  lemma {:induction false} AgreesExactly(p: Policy, rp: RepositoryPolicy, d: Documents)
    ensures MatchesRepositoryPolicy(p, rp, d) <==> AgreesWithPolicy(p, rp, d)
  {
    OrderExactly(d.envelope.requiredChecks, rp.requiredChecks, "");
    OrderExactly(d.envelope.protectedPathClasses, p.riskyPathClasses, "");
    hide OrderOf, SameUnique;
    if AgreesWithPolicy(p, rp, d) {
      forall i | 0 <= i < |d.envelope.allowedActions| ensures d.envelope.allowedActions[i] in rp.allowedActions {
        assert d.envelope.allowedActions[i] in d.envelope.allowedActions;
      }
    }
  }

  lemma {:induction false} OneNameExactly(got: seq<string>, want: string)
    requires want != ""
    ensures SameUnique(got, [want], "") <==> got == [want]
  {
  }

  lemma {:induction false} EveryInExactly<T>(values: seq<T>, allowed: seq<T>)
    ensures EveryIn(values, allowed) <==> forall v :: v in values ==> v in allowed
  {
    if forall v :: v in values ==> v in allowed {
      forall i | 0 <= i < |values| ensures values[i] in allowed {
        assert values[i] in values;
      }
    }
  }

  lemma {:induction false} PolicyFaults(x: Reason, p: Policy, rp: RepositoryPolicy, configured: bool, d: Documents)
    ensures ValidatePolicyMatch(p, rp, configured, d) == Some(x) ==> PolicyFault(x, p, rp, configured, d)
    ensures ValidatePolicyMatch(p, rp, configured, d).None? ==> !PolicyFault(x, p, rp, configured, d)
  {
    hide MatchesRepositoryPolicy, AgreesWithPolicy, SameUnique, EveryIn;
    AgreesExactly(p, rp, d);
    OneNameExactly(d.ruling.sources, if configured then "repository_policy" else "unknown_default");
    EveryInExactly(EXTERNAL_DENIALS, d.envelope.deniedActions);
    assert EXTERNAL_DENIALS == ["open_ready_pr", "approve_review", "merge", "mutate_issue"];
  }

  ghost predicate RoutingFault(x: Reason, rp: RepositoryPolicy, d: Documents) {
    match x
    case RoutingMismatch => !RightBranches(d) || d.envelope.triggerBase != d.envelope.routingBase
    case ForkMismatch => !RightFork(d)
    case ExternalDraftOnly => rp.class_.External? && !(d.ruling.pushTarget.OperatorFork? && d.ruling.pullRequestMode.UpstreamDraftOnly?)
    case _ => false
  }

  lemma {:induction false} RoutingFaults(x: Reason, rp: RepositoryPolicy, d: Documents)
    requires ValidRepositoryName(d.action.repository)
    ensures ValidateRouting(rp, d) == Some(x) ==> RoutingFault(x, rp, d)
    ensures ValidateRouting(rp, d).None? ==> !RoutingFault(x, rp, d)
  {
    if d.envelope.forkOwner.Some? && d.action.fork.Some? {
      ForkExactly(d.action.fork.value, d.envelope.forkOwner.value, d.action.repository);
    }
    hide ForkOf, ValidRepositoryName, RepositoryNameOf;
  }

  /** Every check succeeded at this head. */
  ghost predicate AllGreen(checks: seq<Check>, headSHA: string) {
    forall c :: c in checks ==> c.green && c.headSHA == headSHA
  }

  lemma {:induction false} GreenExactly(checks: seq<Check>, headSHA: string)
    ensures Green(checks, headSHA) <==> AllGreen(checks, headSHA)
  {
    if AllGreen(checks, headSHA) {
      forall i | 0 <= i < |checks| ensures checks[i].green && checks[i].headSHA == headSHA {
        assert checks[i] in checks;
      }
    }
  }

  ghost predicate ChecksFault(x: Reason, expected: seq<string>, d: Documents) {
    match x
    case RequiredChecksMismatch =>
      || expected == []
      || !OrderOf(Names(d.ruling.requiredChecks), expected, "") || !OrderOf(Names(d.action.requiredChecks), expected, "")
    case RequiredCheckNotGreen =>
      !AllGreen(d.ruling.requiredChecks, d.action.headSHA) || !AllGreen(d.action.requiredChecks, d.action.headSHA)
    case _ => false
  }

  lemma {:induction false} OrderHasLength<T>(got: seq<T>, want: seq<T>, empty: T)
    ensures OrderOf(got, want, empty) ==> |got| == |want|
  {
    assert |multiset(got)| == |got| && |multiset(want)| == |want|;
  }

  lemma {:induction false} ChecksFaults(x: Reason, expected: seq<string>, d: Documents)
    ensures ValidateChecks(expected, d) == Some(x) ==> ChecksFault(x, expected, d)
    ensures ValidateChecks(expected, d).None? ==> !ChecksFault(x, expected, d)
  {
    var ruling, action := Names(d.ruling.requiredChecks), Names(d.action.requiredChecks);
    OrderExactly(ruling, expected, "");
    OrderExactly(action, expected, "");
    OrderHasLength(ruling, expected, "");
    OrderHasLength(action, expected, "");
    GreenExactly(d.ruling.requiredChecks, d.action.headSHA);
    GreenExactly(d.action.requiredChecks, d.action.headSHA);
    hide OrderOf, SameUnique, Green, AllGreen;
  }

  ghost predicate ClockFault(x: Reason, d: Documents, now: int, o: Outside) {
    match x
    case InvalidTimestamp => TimesOf(d, o.parse).None?
    case ChronologyInvalid =>
      TimesOf(d, o.parse).Some?
      && var t := TimesOf(d, o.parse).value; !(Ordered(t) && t.approved <= now < t.actionExpires)
    case EnvelopeLifetimeInvalid =>
      TimesOf(d, o.parse).Some? && !LifetimeOk(TimesOf(d, o.parse).value, d.envelope.wallClockSeconds)
    case _ => false
  }

  lemma {:induction false} ClockFaults(x: Reason, d: Documents, now: int, o: Outside)
    ensures ValidateChronology(d, now, o.parse) == Some(x) ==> ClockFault(x, d, now, o)
    ensures ValidateChronology(d, now, o.parse).None? ==> !ClockFault(x, d, now, o)
  {
    if TimesOf(d, o.parse).Some? {
      ChronologyExactly(TimesOf(d, o.parse).value, now);
    }
    hide ChronologyOk, Ordered, LifetimeOk;
  }

  /** A budget that fits into 64 bits of nanoseconds is taken as it is: a lifetime passes exactly when it is within. */
  lemma {:induction false} LifetimeExactly(t: Times, wallClockSeconds: int)
    requires wallClockSeconds * SECOND <= MAX_INT64
    ensures LifetimeOk(t, wallClockSeconds) <==> wallClockSeconds >= 1 && t.envelopeExpires - t.created <= wallClockSeconds * SECOND
  {
    if wallClockSeconds >= 1 {
      var x := wallClockSeconds * SECOND;
      assert x == 2 * (wallClockSeconds * 500_000_000);
      assert Wrap64(x) == x && x != MAX_INT64;
    }
  }

  /** Some trace of a merge authority. */
  predicate MentionsMerge(m: Merge) {
    m.authorized || !m.mode.Never? || !m.approvalKind.NoApproval? || m.approvalHeadSHA.Some? || m.autoMergeOptIn
  }

  /** A reviewer whose name gives a program away. */
  ghost predicate NamesProgram(id: string) {
    || PolicyRulings.Mentions(id, "automated") || PolicyRulings.Mentions(id, "[bot]")
    || PolicyRulings.StandsAt(id, "ao-", 0) || PolicyRulings.StandsAt(id, "codex", 0)
  }

  lemma {:induction false} PrefixExactly(id: string, prefix: string)
    ensures HasPrefix(ToLower(id), prefix) <==> PolicyRulings.StandsAt(id, prefix, 0)
  {
    if |prefix| <= |id| {
      assert ToLower(id[0..0 + |prefix|]) == ToLower(id)[..|prefix|];
    }
  }

  lemma {:induction false} AutomatedExactly(id: string)
    ensures AutomatedReviewer(id) <==> NamesProgram(id)
  {
    PolicyRulings.MentionsExactly(id, "automated");
    PolicyRulings.MentionsExactly(id, "[bot]");
    PrefixExactly(id, "ao-");
    PrefixExactly(id, "codex");
    hide Contains, HasPrefix, ToLower, PolicyRulings.Mentions, PolicyRulings.StandsAt;
  }

  /** The merge is approved by a person, at the action's head, and reviewed by an independent reviewer who is no program. */
  ghost predicate ApprovedByPerson(d: Documents) {
    && d.ruling.merge.authorized && d.ruling.merge.mode.ViaQueue?
    && (d.ruling.merge.approvalKind.IndependentHuman? || d.ruling.merge.approvalKind.Codeowner?)
    && d.ruling.merge.approvalHeadSHA.Some? && d.ruling.merge.approvalHeadSHA.value == d.action.headSHA
    && d.reviewer.independent && d.reviewer.satisfiesTeamMergeGate && !NamesProgram(d.reviewer.reviewerID)
  }

  ghost predicate ClassFault(x: Reason, rp: RepositoryPolicy, d: Documents) {
    var a, m := d.action.action, d.ruling.merge;
    match x
    case MergeQueueAuthorizationRequired => a.RequestMergeQueue? && !(m.authorized && m.mode.ViaQueue?)
    case ContradictoryMergeAuthority => !a.RequestMergeQueue? && !a.AutoMerge? && MentionsMerge(m)
    case ExternalDraftOnly => rp.class_.External? && (!(a.PushOperatorFork? || a.OpenUpstreamDraft?) || MentionsMerge(m))
    case TeamAutoMergeDenied => rp.class_.Team? && a.AutoMerge?
    case IndependentHumanApprovalRequired => rp.class_.Team? && a.RequestMergeQueue? && !ApprovedByPerson(d)
    case SoleAutoMergeNotOptedIn =>
      rp.class_.SoleControl? && a.AutoMerge?
      && !(rp.soleAutoMergeOptIn && m.authorized && m.mode.ViaAutoMerge? && m.autoMergeOptIn)
    case _ => false
  }

  lemma {:induction false} ClassFaults(x: Reason, rp: RepositoryPolicy, d: Documents)
    ensures ValidateActionClass(rp, d) == Some(x) ==> ClassFault(x, rp, d)
    ensures ValidateActionClass(rp, d).None? ==> !ClassFault(x, rp, d)
  {
    AutomatedExactly(d.reviewer.reviewerID);
    hide AutomatedReviewer, NamesProgram;
  }

  // ----- the whole check -----

  ghost predicate LayerFault(
    x: Reason, p: Policy, rp: RepositoryPolicy, configured: bool, r: Request, d: Documents, now: int, o: Outside)
  {
    || IdentityFault(x, r, d) || CandidateFault(x, p, r, d) || PolicyFault(x, p, rp, configured, d)
    || RoutingFault(x, rp, d) || ChecksFault(x, rp.requiredChecks, d)
    || (x.ReviewerBindingMismatch? && !(d.reviewer.subjectDigest == d.action.diffDigest && d.reviewer.testsPrimary))
    || ClockFault(x, d, now, o) || ClassFault(x, rp, d)
  }

  /** No slash splits the name into two nonempty parts without slashes. */
  ghost predicate Unnamed(repository: string) {
    forall i: nat :: !NamedAt(repository, i)
  }

  ghost predicate DocumentFault(
    x: Reason, p: Policy, rp: RepositoryPolicy, configured: bool, r: Request, d: Documents, now: int, o: Outside)
  {
    || (x.MalformedAuthority? && (Unnamed(d.action.repository) || !o.shapesOk(d)))
    || (x.CanonicalDigestMismatch? && !o.digestsMatch(d))
    || LayerFault(x, p, rp, configured, r, d, now, o)
  }

  /** The request has this fault. */
  ghost predicate Fault(x: Reason, p: Policy, rp: RepositoryPolicy, configured: bool, r: Request, now: int, o: Outside) {
    if HasDocuments(r) then DocumentFault(x, p, rp, configured, r, DocumentsOf(r), now, o) else x.MissingAuthority?
  }

  lemma {:induction false} LayerFaults(
    x: Reason, p: Policy, rp: RepositoryPolicy, configured: bool, r: Request, d: Documents, now: int, o: Outside)
    requires ValidRepositoryName(d.action.repository)
    ensures ValidateDocuments(p, rp, configured, r, d, now, o) == Some(x) ==> LayerFault(x, p, rp, configured, r, d, now, o)
    ensures ValidateDocuments(p, rp, configured, r, d, now, o).None? ==> !LayerFault(x, p, rp, configured, r, d, now, o)
  {
    hide ValidRepositoryName, ValidateIdentity, ValidateCandidate, ValidatePolicyMatch, ValidateRouting, ValidateChecks,
      ValidateChronology, ValidateActionClass, IdentityFault, CandidateFault, PolicyFault, RoutingFault, ChecksFault,
      ClockFault, ClassFault;
    IdentityFaults(x, r, d);
    CandidateFaults(x, p, r, d);
    PolicyFaults(x, p, rp, configured, d);
    RoutingFaults(x, rp, d);
    ChecksFaults(x, rp.requiredChecks, d);
    ClockFaults(x, d, now, o);
    ClassFaults(x, rp, d);
  }

  lemma {:induction false} NamedExactly(repository: string)
    ensures ValidRepositoryName(repository) <==> !Unnamed(repository)
  {
    var i := RepositoryNameExactly(repository);
    hide ValidRepositoryName, NamedAt;
  }

  /** The authority check names a fault that the request has, and it names one whenever the request has any. */
  lemma {:induction false} FaultsExactly(
    x: Reason, p: Policy, rp: RepositoryPolicy, configured: bool, r: Request, now: int, o: Outside)
    ensures ValidateAuthority(p, rp, configured, r, now, o) == Some(x) ==> Fault(x, p, rp, configured, r, now, o)
    ensures Fault(x, p, rp, configured, r, now, o) ==> ValidateAuthority(p, rp, configured, r, now, o).Some?
  {
    hide ValidRepositoryName, ValidateDocuments, LayerFault, Unnamed;
    if HasDocuments(r) {
      var d := DocumentsOf(r);
      NamedExactly(d.action.repository);
      if ValidRepositoryName(d.action.repository) {
        LayerFaults(x, p, rp, configured, r, d, now, o);
      }
    }
  }

  ghost predicate Faultless(p: Policy, rp: RepositoryPolicy, configured: bool, r: Request, now: int, o: Outside) {
    forall x: Reason :: !Fault(x, p, rp, configured, r, now, o)
  }

  lemma {:induction false} AuthorityExactly(p: Policy, rp: RepositoryPolicy, configured: bool, r: Request, now: int, o: Outside)
    ensures ValidateAuthority(p, rp, configured, r, now, o).None? <==> Faultless(p, rp, configured, r, now, o)
  {
    hide ValidateAuthority, Fault;
    forall x: Reason
      ensures ValidateAuthority(p, rp, configured, r, now, o) == Some(x) ==> Fault(x, p, rp, configured, r, now, o)
      ensures Fault(x, p, rp, configured, r, now, o) ==> ValidateAuthority(p, rp, configured, r, now, o).Some?
    {
      FaultsExactly(x, p, rp, configured, r, now, o);
    }
  }

  // ----- policies and requests -----

  lemma {:induction false} UniqueExactly<T>(values: seq<T>, empty: T)
    ensures UniqueNonempty(values, empty) <==> empty !in values && forall i, j :: 0 <= i < j < |values| ==> values[i] != values[j]
  {
    if empty in values {
      var i :| 0 <= i < |values| && values[i] == empty;
    }
  }

  /** A repository's policy in which every word has a meaning, every list names something, and external and team
      repositories cannot be merged to automatically. */
  ghost predicate SoundRepository(rp: RepositoryPolicy) {
    && !rp.class_.OtherClass? && !rp.pushTarget.OtherTarget? && !rp.pullRequestMode.OtherMode?
    && rp.requiredChecks != [] && "" !in rp.requiredChecks
    && (forall i, j :: 0 <= i < j < |rp.requiredChecks| ==> rp.requiredChecks[i] != rp.requiredChecks[j])
    && rp.allowedActions != [] && (forall a :: a in rp.allowedActions ==> !a.OtherAction?)
    && (forall i, j :: 0 <= i < j < |rp.allowedActions| ==> rp.allowedActions[i] != rp.allowedActions[j])
    && (rp.class_.External? ==>
          && !rp.soleAutoMergeOptIn && rp.pushTarget.OperatorFork? && rp.pullRequestMode.UpstreamDraftOnly?
          && forall a :: a in rp.allowedActions ==> a.PushOperatorFork? || a.OpenUpstreamDraft?)
    && (rp.class_.Team? ==> !rp.soleAutoMergeOptIn && AutoMerge !in rp.allowedActions)
  }

  lemma {:induction false} RepositoryExactly(rp: RepositoryPolicy, allowSole: bool)
    ensures ValidRepositoryPolicy(rp, allowSole) <==> SoundRepository(rp) && (rp.class_.SoleControl? ==> allowSole)
  {
    UniqueExactly(rp.requiredChecks, "");
    UniqueExactly(rp.allowedActions, NO_ACTION);
    EveryInExactly(rp.allowedActions, [PushOperatorFork, OpenUpstreamDraft]);
    hide UniqueNonempty, EveryIn;
    assert NO_ACTION.OtherAction?;
  }

  /** A sound policy: the fixed identity, the fixed lists in some order, nothing that authorises by text or bypasses
      protection, the unknown repository external, and no automatic merge in the AO repositories. */
  ghost predicate SoundPolicy(p: Policy) {
    && p.identity.schemaVersion == "covenant.autonomous-repair-governance-policy.v1"
    && p.identity.policyID == "autonomous-repair-governance-v1"
    && p.identity.repository == "uesugitorachiyo/ao-architecture"
    && p.identity.commit == "b8c64860003238ab45fe7c76d7e8950f80a4043b"
    && OrderOf(p.schemaIDs, SCHEMA_IDS, "") && OrderOf(p.riskyPathClasses, RISKY_CLASSES, "")
    && OrderOf(p.deniedActions, DENIED_ACTIONS, NO_ACTION)
    && !(p.discoveryMutationAuthorized || p.issueTextCanAuthorize || p.repositoryTextCanAuthorize || p.branchProtectionBypass)
    && SoundRepository(p.unknownRepository) && p.unknownRepository.class_.External?
    && p.repositories.Keys != {}
    && forall name :: name in p.repositories ==>
         && !Unnamed(name) && SoundRepository(p.repositories[name])
         && ("uesugitorachiyo/ao" <= name ==> !p.repositories[name].soleAutoMergeOptIn)
  }

  lemma {:induction false} PolicyExactly(p: Policy)
    ensures ValidPolicy(p) <==> SoundPolicy(p)
  {
    OrderExactly(p.schemaIDs, SCHEMA_IDS, "");
    OrderExactly(p.riskyPathClasses, RISKY_CLASSES, "");
    OrderExactly(p.deniedActions, DENIED_ACTIONS, NO_ACTION);
    RepositoryExactly(p.unknownRepository, false);
    hide OrderOf, SameUnique, SoundRepository, ValidRepositoryPolicy, ValidRepositoryName, Unnamed;
    forall name | name in p.repositories
      ensures ValidRepositoryName(name) <==> !Unnamed(name)
      ensures ValidRepositoryPolicy(p.repositories[name], true) <==> SoundRepository(p.repositories[name])
    {
      NamedExactly(name);
      RepositoryExactly(p.repositories[name], true);
    }
    assert p.repositories == map[] <==> p.repositories.Keys == {};
  }

  // ----- the whole decision -----

  predicate Identified(r: Request) {
    r.schemaVersion == "covenant.autonomous-repair-governance-request.v1" && r.requestID != "" && r.repository != ""
  }

  /** A request to write: an issue, a base, an approval, all five documents and an action with a meaning. */
  predicate AsksToWrite(r: Request) {
    && Identified(r) && r.mode == "write"
    && r.issueNumber.Some? && r.issueNumber.value >= 1 && r.currentBaseSHA != "" && r.approvedActionDigest != ""
    && r.envelope.Some? && r.candidate.Some? && r.ruling.Some? && r.reviewer.Some? && r.actionDocument.Some?
    && (r.action.PushOperatorFork? || r.action.OpenUpstreamDraft? || r.action.OpenReady? || r.action.RequestMergeQueue?
        || r.action.AutoMerge?)
  }

  /** A request to look, which carries no evidence for writing. */
  predicate AsksToLook(r: Request) {
    && Identified(r) && r.mode == "discovery"
    && r.ownershipAssertion.None? && r.issueNumber.None? && r.action.OtherAction? && r.action.name == ""
    && r.currentBaseSHA == "" && r.changedPathClasses == [] && r.approvedActionDigest == ""
    && r.envelope.None? && r.candidate.None? && r.ruling.None? && r.reviewer.None? && r.actionDocument.None?
  }

  lemma {:induction false} ShapeExactly(r: Request)
    ensures RequestShapeOk(r) <==> AsksToWrite(r) || AsksToLook(r)
    ensures RequestShapeOk(r) ==> (r.mode == "write" <==> AsksToWrite(r)) && (r.mode == "discovery" <==> AsksToLook(r))
  {
    WriteIsNotDiscovery();
  }

  predicate RightAssertion(p: Policy, r: Request) {
    r.ownershipAssertion.Some? ==> r.ownershipAssertion.value == PolicyFor(p, r.repository).class_
  }

  /** The reason code of an authorised mutation. */
  function MutationReason(class_: RepositoryClass, action: Action): Reason {
    if class_.External? then ExternalDraftOnly
    else if class_.SoleControl? then if action.AutoMerge? then SoleAutoMerge else SoleBoundedAction
    else if action.RequestMergeQueue? then TeamMergeQueue else TeamBoundedAction
  }

  /** The reason of a denial is true of the policy and the request. */
  ghost predicate TrueDenial(x: Reason, p: Policy, r: Request, now: int, o: Outside) {
    var rp := PolicyFor(p, r.repository);
    if x.InvalidPolicy? then !SoundPolicy(p)
    else if x.InvalidRequest? then !AsksToWrite(r) && !AsksToLook(r)
    else if x.OwnershipAssertionMismatch? then !RightAssertion(p, r)
    else (x.MalformedAuthority? && !o.schemaValid(r)) || Fault(x, p, rp, Configured(p, r.repository), r, now, o)
  }

  /** Every decision names the class of the repository's policy. A mutation is authorised exactly when the policy is
      sound and the request, which asks to write, has no fault; looking is authorised without mutation exactly for a
      request that asks for no more; and a denial's reason is true. */
  lemma {:induction false} DecisionTells(p: Policy, r: Request, now: int, o: Outside)
    ensures var rp, decision := PolicyFor(p, r.repository), Evaluate(p, r, now, o);
            && decision.class_ == rp.class_
            && (decision.mutationAuthorized <==>
                  && SoundPolicy(p) && AsksToWrite(r) && o.schemaValid(r) && RightAssertion(p, r)
                  && Faultless(p, rp, Configured(p, r.repository), r, now, o))
            && (decision.mutationAuthorized ==> decision.authorized && decision.reason == MutationReason(rp.class_, r.action))
            && (decision.authorized && !decision.mutationAuthorized <==> SoundPolicy(p) && AsksToLook(r) && o.schemaValid(r))
            && (decision.authorized && !decision.mutationAuthorized ==> decision.reason.ReadOnlyDiscovery?)
            && (!decision.authorized ==> TrueDenial(decision.reason, p, r, now, o))
  {
    hide *;
    var rp, configured := PolicyFor(p, r.repository), Configured(p, r.repository);
    AuthorityExactly(p, rp, configured, r, now, o);
    MutatesExactly(p, r, now, o);
    AllowanceTells(p, r, now, o);
    DenialTells(p, r, now, o);
    PolicyExactly(p);
    ShapeExactly(r);
  }

  lemma {:induction false} AllowanceTells(p: Policy, r: Request, now: int, o: Outside)
    ensures var rp, decision := PolicyFor(p, r.repository), Evaluate(p, r, now, o);
            && decision.class_ == rp.class_
            && (decision.mutationAuthorized <==> Mutates(p, r, now, o))
            && (ReachesAuthority(p, r, o) <==>
                  ValidPolicy(p) && RequestShapeOk(r) && r.mode == "write" && o.schemaValid(r) && RightAssertion(p, r))
            && (Authorises(p, rp, Configured(p, r.repository), r, now, o) <==>
                  ValidateAuthority(p, rp, Configured(p, r.repository), r, now, o).None?)
            && (decision.mutationAuthorized ==> decision.authorized && decision.reason == MutationReason(rp.class_, r.action))
            && (decision.authorized && !decision.mutationAuthorized <==>
                  ValidPolicy(p) && RequestShapeOk(r) && r.mode == "discovery" && o.schemaValid(r))
            && (decision.authorized && !decision.mutationAuthorized ==> decision.reason.ReadOnlyDiscovery?)
  {
    DiscoveryAssertsNothing(r);
    hide ValidateAuthority, ValidPolicy, RequestShapeOk;
  }

  lemma {:induction false} DiscoveryAssertsNothing(r: Request)
    ensures RequestShapeOk(r) && r.mode == "discovery" ==> r.ownershipAssertion.None?
  {
  }

  lemma {:induction false} DenialCases(p: Policy, r: Request, now: int, o: Outside)
    ensures var x := Evaluate(p, r, now, o).reason;
            !Evaluate(p, r, now, o).authorized ==>
              || (x.InvalidPolicy? && !ValidPolicy(p)) || (x.InvalidRequest? && !RequestShapeOk(r))
              || (x.MalformedAuthority? && !o.schemaValid(r))
              || (x.OwnershipAssertionMismatch? && r.ownershipAssertion.Some?
                  && r.ownershipAssertion.value != PolicyFor(p, r.repository).class_)
              || ValidateAuthority(p, PolicyFor(p, r.repository), Configured(p, r.repository), r, now, o) == Some(x)
  {
    if ReachesAuthority(p, r, o) {
      AuthorisedExactly(p, r, now, o);
    }
    hide ValidateAuthority, ValidPolicy, RequestShapeOk, DecideByClass;
  }

  lemma {:induction false} DenialTells(p: Policy, r: Request, now: int, o: Outside)
    ensures var decision := Evaluate(p, r, now, o); !decision.authorized ==> TrueDenial(decision.reason, p, r, now, o)
  {
    PolicyExactly(p);
    ShapeExactly(r);
    hide ValidateAuthority, ValidPolicy, SoundPolicy, RequestShapeOk, AsksToWrite, AsksToLook, Evaluate, Fault;
    var rp, configured, x := PolicyFor(p, r.repository), Configured(p, r.repository), Evaluate(p, r, now, o).reason;
    DenialCases(p, r, now, o);
    if ValidateAuthority(p, rp, configured, r, now, o) == Some(x) {
      FaultsExactly(x, p, rp, configured, r, now, o);
      FaultIsOfDocuments(x, p, rp, configured, r, now, o);
    }
  }

  /** Faults of the documents are told apart from those found before them. */
  lemma {:induction false} FaultIsOfDocuments(
    x: Reason, p: Policy, rp: RepositoryPolicy, configured: bool, r: Request, now: int, o: Outside)
    requires Fault(x, p, rp, configured, r, now, o)
    ensures !x.InvalidPolicy? && !x.InvalidRequest? && !x.OwnershipAssertionMismatch?
  {
    hide NamedAt, OrderOf, AllGreen, Ordered, LifetimeOk, RightFork, AgreesWithPolicy;
  }
}
