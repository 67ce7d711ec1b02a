/** Which of several faults a denial names: that of the earliest check which any of them fails. */
module RepairOrder {
  import opened Text
  import opened Governance
  import opened RepairAuthority
  import opened RepairTheorems
  import opened RepairFaults

  // ----- the order within one group of checks -----

  /** The place of the check that reports this reason, within its group. */
  function Place(group: nat, x: Reason, expected: seq<string>, d: Documents): nat {
    if group == 0 then IdentityPlace(x)
    else if group == 1 then (if x.ProtectedPath? then 2 else if x.ProtectedPathClassificationMismatch? then 1 else 0)
    else if group == 2 then PolicyPlace(x)
    else if group == 3 then (if x.RoutingMismatch? then 0 else if x.ForkMismatch? then 1 else 2)
    else if group == 4 then ChecksPlace(x, expected, d)
    else if group == 6 then (if x.InvalidTimestamp? then 0 else if x.ChronologyInvalid? then 1 else 2)
    else if group == 7 then (if x.MergeQueueAuthorizationRequired? then 0 else if x.ContradictoryMergeAuthority? then 1 else 2)
    else 0
  }

  function IdentityPlace(x: Reason): nat {
    match x
    case ApprovedActionDigestMismatch => 0
    case RunMismatch => 1
    case RepositoryMismatch => 2
    case IssueMismatch => 3
    case IssueURLMismatch => 4
    case ActionMismatch => 5
    case BaseMismatch => 6
    case HeadMismatch => 7
    case _ => 8
  }

  function PolicyPlace(x: Reason): nat {
    match x
    case RepositoryPolicyMismatch => 0
    case ClassificationProvenanceMismatch => 1
    case ExternalDenialsMissing => 2
    case _ => 3
  }

  /** A list of the wrong length is noticed before a check that is not green, wrong names only after it. */
  function ChecksPlace(x: Reason, expected: seq<string>, d: Documents): nat {
    if x.RequiredCheckNotGreen? then 1
    else if expected == [] || |d.ruling.requiredChecks| != |expected| || |d.action.requiredChecks| != |expected| then 0
    else 2
  }

  /** The groups of checks on the documents, in their order. */
  ghost predicate GroupFault(
    group: nat, x: Reason, p: Policy, rp: RepositoryPolicy, configured: bool, r: Request, d: Documents, now: int, o: Outside)
  {
    if group == 0 then IdentityFault(x, r, d)
    else if group == 1 then CandidateFault(x, p, r, d)
    else if group == 2 then PolicyFault(x, p, rp, configured, d)
    else if group == 3 then RoutingFault(x, rp, d)
    else if group == 4 then ChecksFault(x, rp.requiredChecks, d)
    else if group == 5 then x.ReviewerBindingMismatch? && !(d.reviewer.subjectDigest == d.action.diffDigest && d.reviewer.testsPrimary)
    else if group == 6 then ClockFault(x, d, now, o)
    else group == 7 && ClassFault(x, rp, d)
  }

  lemma {:induction false} EarlyIdentity(x: Reason, y: Reason, r: Request, d: Documents)
    requires ValidateIdentity(r, d) == Some(x) && IdentityFault(y, r, d) && IdentityPlace(y) <= 2
    ensures IdentityPlace(x) <= IdentityPlace(y)
  {
    hide Decimal;
  }

  lemma {:induction false} IssueIdentity(x: Reason, y: Reason, r: Request, d: Documents)
    requires ValidateIdentity(r, d) == Some(x) && IdentityFault(y, r, d) && y.IssueMismatch?
    ensures IdentityPlace(x) <= IdentityPlace(y)
  {
    hide Decimal;
  }

  lemma {:induction false} IssueURLIdentity(x: Reason, y: Reason, r: Request, d: Documents)
    requires ValidateIdentity(r, d) == Some(x) && IdentityFault(y, r, d) && y.IssueURLMismatch?
    ensures IdentityPlace(x) <= IdentityPlace(y)
  {
    hide Decimal;
  }

  lemma {:induction false} ActionIdentity(x: Reason, y: Reason, r: Request, d: Documents)
    requires ValidateIdentity(r, d) == Some(x) && IdentityFault(y, r, d) && y.ActionMismatch?
    ensures IdentityPlace(x) <= IdentityPlace(y)
  {
    hide Decimal;
  }

  lemma {:induction false} BaseIdentity(x: Reason, y: Reason, r: Request, d: Documents)
    requires ValidateIdentity(r, d) == Some(x) && IdentityFault(y, r, d) && y.BaseMismatch?
    ensures IdentityPlace(x) <= IdentityPlace(y)
  {
    hide Decimal;
  }

  lemma {:induction false} HeadIdentity(x: Reason, y: Reason, r: Request, d: Documents)
    requires ValidateIdentity(r, d) == Some(x) && IdentityFault(y, r, d) && y.HeadMismatch?
    ensures IdentityPlace(x) <= IdentityPlace(y)
  {
    hide Decimal;
  }

  lemma {:induction false} LastIdentity(x: Reason)
    ensures IdentityPlace(x) <= 8
  {
  }

  lemma {:induction false} IdentityInOrder(x: Reason, y: Reason, r: Request, d: Documents)
    requires ValidateIdentity(r, d) == Some(x) && IdentityFault(y, r, d)
    ensures IdentityPlace(x) <= IdentityPlace(y)
  {
    hide *;
    LastIdentity(x);
    PlacesOf(y);
    if IdentityPlace(y) <= 2 {
      EarlyIdentity(x, y, r, d);
    } else {
      match y {
        case IssueMismatch => IssueIdentity(x, y, r, d);
        case IssueURLMismatch => IssueURLIdentity(x, y, r, d);
        case ActionMismatch => ActionIdentity(x, y, r, d);
        case BaseMismatch => BaseIdentity(x, y, r, d);
        case HeadMismatch => HeadIdentity(x, y, r, d);
        case _ =>
      }
    }
  }

  lemma {:induction false} PlacesOf(y: Reason)
    ensures IdentityPlace(y) == 8 || IdentityPlace(y) <= 2
         || y.IssueMismatch? || y.IssueURLMismatch? || y.ActionMismatch? || y.BaseMismatch? || y.HeadMismatch?
  {
  }

  lemma {:induction false} CandidateInOrder(x: Reason, y: Reason, p: Policy, rp: RepositoryPolicy, r: Request, d: Documents)
    requires ValidateCandidate(p, r, d) == Some(x) && CandidateFault(y, p, r, d)
    ensures Place(1, x, rp.requiredChecks, d) <= Place(1, y, rp.requiredChecks, d)
  {
  }

  lemma {:induction false} PolicyInOrder(x: Reason, y: Reason, p: Policy, rp: RepositoryPolicy, configured: bool, d: Documents)
    requires ValidatePolicyMatch(p, rp, configured, d) == Some(x) && PolicyFault(y, p, rp, configured, d)
    ensures PolicyPlace(x) <= PolicyPlace(y)
  {
    PolicyFaults(y, p, rp, configured, d);
    AgreesExactly(p, rp, d);
    OneNameExactly(d.ruling.sources, if configured then "repository_policy" else "unknown_default");
    EveryInExactly(EXTERNAL_DENIALS, d.envelope.deniedActions);
    assert EXTERNAL_DENIALS == ["open_ready_pr", "approve_review", "merge", "mutate_issue"];
    hide MatchesRepositoryPolicy, AgreesWithPolicy, SameUnique, EveryIn;
  }

  lemma {:induction false} RoutingInOrder(x: Reason, y: Reason, rp: RepositoryPolicy, d: Documents)
    requires ValidRepositoryName(d.action.repository)
    requires ValidateRouting(rp, d) == Some(x) && RoutingFault(y, rp, d)
    ensures Place(3, x, rp.requiredChecks, d) <= Place(3, y, rp.requiredChecks, d)
  {
    RoutingFaults(x, rp, d);
    if d.envelope.forkOwner.Some? && d.action.fork.Some? {
      ForkExactly(d.action.fork.value, d.envelope.forkOwner.value, d.action.repository);
    }
    hide ForkOf, ValidRepositoryName, RepositoryNameOf;
  }

  lemma {:induction false} ChecksInOrder(x: Reason, y: Reason, expected: seq<string>, d: Documents)
    requires ValidateChecks(expected, d) == Some(x) && ChecksFault(y, expected, d)
    ensures ChecksPlace(x, expected, d) <= ChecksPlace(y, expected, d)
  {
    GreenExactly(d.ruling.requiredChecks, d.action.headSHA);
    GreenExactly(d.action.requiredChecks, d.action.headSHA);
    hide OrderOf, SameUnique, Green, AllGreen;
  }

  lemma {:induction false} ClockInOrder(x: Reason, y: Reason, rp: RepositoryPolicy, d: Documents, now: int, o: Outside)
    requires ValidateChronology(d, now, o.parse) == Some(x) && ClockFault(y, d, now, o)
    ensures Place(6, x, rp.requiredChecks, d) <= Place(6, y, rp.requiredChecks, d)
  {
    if TimesOf(d, o.parse).Some? {
      ChronologyExactly(TimesOf(d, o.parse).value, now);
    }
    hide ChronologyOk, Ordered, LifetimeOk;
  }

  lemma {:induction false} ClassInOrder(x: Reason, y: Reason, rp: RepositoryPolicy, d: Documents)
    requires ValidateActionClass(rp, d) == Some(x) && ClassFault(y, rp, d)
    ensures Place(7, x, rp.requiredChecks, d) <= Place(7, y, rp.requiredChecks, d)
  {
    hide HumanApproved, ApprovedByPerson;
  }

  // ----- the order of the groups -----

  /** What a group of checks answers. */
  function GroupAnswer(
    group: nat, p: Policy, rp: RepositoryPolicy, configured: bool, r: Request, d: Documents, now: int, o: Outside): Option<Reason>
    requires ValidRepositoryName(d.action.repository)
  {
    if group == 0 then ValidateIdentity(r, d)
    else if group == 1 then ValidateCandidate(p, r, d)
    else if group == 2 then ValidatePolicyMatch(p, rp, configured, d)
    else if group == 3 then ValidateRouting(rp, d)
    else if group == 4 then ValidateChecks(rp.requiredChecks, d)
    else if group == 5 then
      if d.reviewer.subjectDigest != d.action.diffDigest || !d.reviewer.testsPrimary then Some(ReviewerBindingMismatch) else None
    else if group == 6 then ValidateChronology(d, now, o.parse)
    else if group == 7 then ValidateActionClass(rp, d)
    else None
  }

  lemma {:induction false} GroupMeans(
    group: nat, x: Reason, p: Policy, rp: RepositoryPolicy, configured: bool, r: Request, d: Documents, now: int, o: Outside)
    requires ValidRepositoryName(d.action.repository)
    ensures var answer, fault := GroupAnswer(group, p, rp, configured, r, d, now, o), GroupFault(group, x, p, rp, configured, r, d, now, o);
            && (group == 0 ==> answer == ValidateIdentity(r, d) && fault == IdentityFault(x, r, d))
            && (group == 1 ==> answer == ValidateCandidate(p, r, d) && fault == CandidateFault(x, p, r, d))
            && (group == 2 ==> answer == ValidatePolicyMatch(p, rp, configured, d) && fault == PolicyFault(x, p, rp, configured, d))
            && (group == 3 ==> answer == ValidateRouting(rp, d) && fault == RoutingFault(x, rp, d))
            && (group == 4 ==> answer == ValidateChecks(rp.requiredChecks, d) && fault == ChecksFault(x, rp.requiredChecks, d))
            && (group == 5 ==> (answer == Some(x) ==> fault) && (answer.None? ==> !fault))
            && (group == 6 ==> answer == ValidateChronology(d, now, o.parse) && fault == ClockFault(x, d, now, o))
            && (group == 7 ==> answer == ValidateActionClass(rp, d) && fault == ClassFault(x, rp, d))
            && (group > 7 ==> answer.None? && !fault)
  {
    hide ValidRepositoryName, ValidateIdentity, ValidateCandidate, ValidatePolicyMatch, ValidateRouting, ValidateChecks,
      ValidateChronology, ValidateActionClass, IdentityFault, CandidateFault, PolicyFault, RoutingFault, ChecksFault,
      ClockFault, ClassFault;
  }

  lemma {:induction false} PlaceMeans(group: nat, x: Reason, expected: seq<string>, d: Documents)
    ensures group == 0 ==> Place(group, x, expected, d) == IdentityPlace(x)
    ensures group == 2 ==> Place(group, x, expected, d) == PolicyPlace(x)
    ensures group == 4 ==> Place(group, x, expected, d) == ChecksPlace(x, expected, d)
    ensures group == 5 || group > 7 ==> Place(group, x, expected, d) == 0
  {
    hide IdentityPlace, PolicyPlace, ChecksPlace;
  }

  lemma {:induction false} GroupFaultsExactly(
    group: nat, x: Reason, p: Policy, rp: RepositoryPolicy, configured: bool, r: Request, d: Documents, now: int, o: Outside)
    requires ValidRepositoryName(d.action.repository)
    ensures var answer := GroupAnswer(group, p, rp, configured, r, d, now, o);
            && (answer == Some(x) ==> GroupFault(group, x, p, rp, configured, r, d, now, o))
            && (answer.None? ==> !GroupFault(group, x, p, rp, configured, r, d, now, o))
  {
    hide *;
    GroupMeans(group, x, p, rp, configured, r, d, now, o);
    IdentityFaults(x, r, d);
    CandidateFaults(x, p, r, d);
    PolicyFaults(x, p, rp, configured, d);
    RoutingFaults(x, rp, d);
    ChecksFaults(x, rp.requiredChecks, d);
    ClockFaults(x, d, now, o);
    ClassFaults(x, rp, d);
  }

  lemma {:induction false} GroupInOrder(
    group: nat, x: Reason, y: Reason, p: Policy, rp: RepositoryPolicy, configured: bool, r: Request, d: Documents, now: int,
    o: Outside)
    requires ValidRepositoryName(d.action.repository)
    requires GroupAnswer(group, p, rp, configured, r, d, now, o) == Some(x)
    requires GroupFault(group, y, p, rp, configured, r, d, now, o)
    ensures Place(group, x, rp.requiredChecks, d) <= Place(group, y, rp.requiredChecks, d)
  {
    hide *;
    GroupMeans(group, y, p, rp, configured, r, d, now, o);
    PlaceMeans(group, x, rp.requiredChecks, d);
    PlaceMeans(group, y, rp.requiredChecks, d);
    if group == 0 {
      IdentityInOrder(x, y, r, d);
    } else if group == 1 {
      CandidateInOrder(x, y, p, rp, r, d);
    } else if group == 2 {
      PolicyInOrder(x, y, p, rp, configured, d);
    } else if group == 3 {
      RoutingInOrder(x, y, rp, d);
    } else if group == 4 {
      ChecksInOrder(x, y, rp.requiredChecks, d);
    } else if group == 6 {
      ClockInOrder(x, y, rp, d, now, o);
    } else if group == 7 {
      ClassInOrder(x, y, rp, d);
    }
  }

  /** The reason is the earliest fault of this group, and no earlier group has any. */
  ghost predicate EarliestOf(
    group: nat, x: Reason, p: Policy, rp: RepositoryPolicy, configured: bool, r: Request, d: Documents, now: int, o: Outside)
  {
    && GroupFault(group, x, p, rp, configured, r, d, now, o)
    && (forall m: nat, y: Reason :: m < group ==> !GroupFault(m, y, p, rp, configured, r, d, now, o))
    && forall y: Reason :: GroupFault(group, y, p, rp, configured, r, d, now, o) ==>
         Place(group, x, rp.requiredChecks, d) <= Place(group, y, rp.requiredChecks, d)
  }

  lemma {:induction false} FirstGroup(
    p: Policy, rp: RepositoryPolicy, configured: bool, r: Request, d: Documents, now: int, o: Outside)
    returns (group: nat)
    requires ValidRepositoryName(d.action.repository) && ValidateDocuments(p, rp, configured, r, d, now, o).Some?
    ensures group < 8
    ensures GroupAnswer(group, p, rp, configured, r, d, now, o) == ValidateDocuments(p, rp, configured, r, d, now, o)
    ensures forall m: nat :: m < group ==> GroupAnswer(m, p, rp, configured, r, d, now, o).None?
  {
    hide ValidRepositoryName, ValidateIdentity, ValidateCandidate, ValidatePolicyMatch, ValidateRouting, ValidateChecks,
      ValidateChronology, ValidateActionClass;
    group := if ValidateIdentity(r, d).Some? then 0
             else if ValidateCandidate(p, r, d).Some? then 1
             else if ValidatePolicyMatch(p, rp, configured, d).Some? then 2
             else if ValidateRouting(rp, d).Some? then 3
             else if ValidateChecks(rp.requiredChecks, d).Some? then 4
             else if d.reviewer.subjectDigest != d.action.diffDigest || !d.reviewer.testsPrimary then 5
             else if ValidateChronology(d, now, o.parse).Some? then 6 else 7;
  }

  /** The reason found in the documents is the earliest of all their faults. */
  lemma {:induction false} EarliestFault(
    p: Policy, rp: RepositoryPolicy, configured: bool, r: Request, d: Documents, now: int, o: Outside)
    returns (group: nat)
    requires ValidRepositoryName(d.action.repository) && ValidateDocuments(p, rp, configured, r, d, now, o).Some?
    ensures group < 8
    ensures EarliestOf(group, ValidateDocuments(p, rp, configured, r, d, now, o).value, p, rp, configured, r, d, now, o)
  {
    group := FirstGroup(p, rp, configured, r, d, now, o);
    var x := ValidateDocuments(p, rp, configured, r, d, now, o).value;
    hide ValidRepositoryName, ValidateDocuments, GroupAnswer, GroupFault, Place;
    GroupFaultsExactly(group, x, p, rp, configured, r, d, now, o);
    forall m: nat, y: Reason | m < group ensures !GroupFault(m, y, p, rp, configured, r, d, now, o) {
      GroupFaultsExactly(m, y, p, rp, configured, r, d, now, o);
    }
    forall y: Reason | GroupFault(group, y, p, rp, configured, r, d, now, o)
      ensures Place(group, x, rp.requiredChecks, d) <= Place(group, y, rp.requiredChecks, d)
    {
      GroupInOrder(group, x, y, p, rp, configured, r, d, now, o);
    }
  }

  // ----- the whole decision -----

  /** The first thing that is wrong with the documents of a request to write. */
  ghost predicate FirstDocumentFault(
    x: Reason, p: Policy, rp: RepositoryPolicy, configured: bool, r: Request, now: int, o: Outside)
  {
    if !HasDocuments(r) then x.MissingAuthority?
    else
      var d := DocumentsOf(r);
      if Unnamed(d.action.repository) || !o.shapesOk(d) then x.MalformedAuthority?
      else if !o.digestsMatch(d) then x.CanonicalDigestMismatch?
      else exists group: nat :: group < 8 && EarliestOf(group, x, p, rp, configured, r, d, now, o)
  }

  /** The reason of a denial is the first thing that is wrong: with the policy, the shape of the request, its schema, the
      ownership that it asserts, and then with its documents. */
  ghost predicate FirstWrong(x: Reason, p: Policy, r: Request, now: int, o: Outside) {
    if !SoundPolicy(p) then x.InvalidPolicy?
    else if !AsksToWrite(r) && !AsksToLook(r) then x.InvalidRequest?
    else if !o.schemaValid(r) then x.MalformedAuthority?
    else if !RightAssertion(p, r) then x.OwnershipAssertionMismatch?
    else FirstDocumentFault(x, p, PolicyFor(p, r.repository), Configured(p, r.repository), r, now, o)
  }

  lemma {:induction false} AuthorityFirst(
    p: Policy, rp: RepositoryPolicy, configured: bool, r: Request, now: int, o: Outside)
    requires ValidateAuthority(p, rp, configured, r, now, o).Some?
    ensures FirstDocumentFault(ValidateAuthority(p, rp, configured, r, now, o).value, p, rp, configured, r, now, o)
  {
    hide ValidRepositoryName, ValidateDocuments, EarliestOf, Unnamed;
    if HasDocuments(r) {
      var d := DocumentsOf(r);
      NamedExactly(d.action.repository);
      if ValidRepositoryName(d.action.repository) && o.shapesOk(d) && o.digestsMatch(d) {
        var group := EarliestFault(p, rp, configured, r, d, now, o);
      }
    }
  }

  lemma {:induction false} DeniedBy(p: Policy, r: Request, now: int, o: Outside)
    ensures var rp, configured, decision := PolicyFor(p, r.repository), Configured(p, r.repository), Evaluate(p, r, now, o);
            !decision.authorized ==>
              if !ValidPolicy(p) then decision.reason.InvalidPolicy?
              else if !RequestShapeOk(r) then decision.reason.InvalidRequest?
              else if !o.schemaValid(r) then decision.reason.MalformedAuthority?
              else if !RightAssertion(p, r) then decision.reason.OwnershipAssertionMismatch?
              else r.mode != "discovery" && ValidateAuthority(p, rp, configured, r, now, o) == Some(decision.reason)
  {
    if ReachesAuthority(p, r, o) {
      AuthorisedExactly(p, r, now, o);
    }
    hide ValidateAuthority, ValidPolicy, RequestShapeOk, DecideByClass;
  }

  /** Every denial of the governance names the first thing that is wrong. */
  lemma {:induction false} DenialInOrder(p: Policy, r: Request, now: int, o: Outside)
    ensures !Evaluate(p, r, now, o).authorized ==> FirstWrong(Evaluate(p, r, now, o).reason, p, r, now, o)
  {
    DeniedBy(p, r, now, o);
    PolicyExactly(p);
    ShapeExactly(r);
    hide Evaluate, ValidateAuthority, ValidPolicy, SoundPolicy, RequestShapeOk, AsksToWrite, AsksToLook, FirstDocumentFault,
      RightAssertion;
    var rp, configured := PolicyFor(p, r.repository), Configured(p, r.repository);
    if ValidateAuthority(p, rp, configured, r, now, o).Some? {
      AuthorityFirst(p, rp, configured, r, now, o);
    }
  }
}
