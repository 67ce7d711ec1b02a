/** The governance layers agree, the authorising instants are one window, and the check lists are the policy's. */
module RepairTheorems {
  import opened Text
  import opened Governance
  import opened RepairAuthority

  // ----- taking the check apart -----

  /** Everything that the authority check asks apart from the clock. */
  predicate Standing(p: Policy, rp: RepositoryPolicy, configured: bool, r: Request, d: Documents, o: Outside) {
    && ValidRepositoryName(d.action.repository) && o.shapesOk(d) && o.digestsMatch(d)
    && ValidateIdentity(r, d).None? && ValidateCandidate(p, r, d).None?
    && ValidatePolicyMatch(p, rp, configured, d).None? && ValidateRouting(rp, d).None?
    && ValidateChecks(rp.requiredChecks, d).None?
    && d.reviewer.subjectDigest == d.action.diffDigest && d.reviewer.testsPrimary
    && ValidateActionClass(rp, d).None?
  }

  lemma {:induction false} AuthorityParts(
    p: Policy, rp: RepositoryPolicy, configured: bool, r: Request, now: int, o: Outside)
    ensures ValidateAuthority(p, rp, configured, r, now, o).None? <==>
            && HasDocuments(r)
            && Standing(p, rp, configured, r, DocumentsOf(r), o)
            && ValidateChronology(DocumentsOf(r), now, o.parse).None?
  {
  }

  // ----- later denials are unreachable -----

  lemma {:induction false} DeniedActionsAreOthers(p: Policy, a: Action)
    requires ValidPolicy(p) && a in p.deniedActions
    ensures a.OtherAction?
  {
    var i :| 0 <= i < |p.deniedActions| && p.deniedActions[i] == a;
    assert a in DENIED_ACTIONS;
  }

  lemma {:induction false} PolicyForIsValid(p: Policy, repository: string)
    requires ValidPolicy(p)
    ensures !PolicyFor(p, repository).class_.OtherClass?
    ensures PolicyFor(p, repository).class_.SoleControl? ==> Configured(p, repository)
  {
  }

  lemma {:induction false} IdentityBindsAction(r: Request, d: Documents)
    requires ValidateIdentity(r, d).None?
    ensures r.action == d.action.action
  {
  }

  lemma {:induction false} ClassAgrees(rp: RepositoryPolicy, configured: bool, d: Documents)
    requires ValidateActionClass(rp, d).None? && !rp.class_.OtherClass? && (rp.class_.SoleControl? ==> configured)
    ensures DecideByClass(rp, configured, d.action.action).authorized
    ensures DecideByClass(rp, configured, d.action.action).mutationAuthorized
  {
  }

  lemma {:induction false} StandingIsAllowed(p: Policy, r: Request, d: Documents, o: Outside)
    requires ValidPolicy(p) && !r.action.OtherAction?
    requires Standing(p, PolicyFor(p, r.repository), Configured(p, r.repository), r, d, o)
    ensures r.action in PolicyFor(p, r.repository).allowedActions && r.action !in p.deniedActions
    ensures DecideByClass(PolicyFor(p, r.repository), Configured(p, r.repository), r.action).authorized
    ensures DecideByClass(PolicyFor(p, r.repository), Configured(p, r.repository), r.action).mutationAuthorized
  {
    IdentityBindsAction(r, d);
    PolicyForIsValid(p, r.repository);
    ClassAgrees(PolicyFor(p, r.repository), Configured(p, r.repository), d);
    if r.action in p.deniedActions {
      DeniedActionsAreOthers(p, r.action);
    }
  }

  /** A write request that reaches the authority check is authorised exactly when that check finds nothing:
      none of the denials after it can happen. */
  lemma {:induction false} AuthorisedExactly(p: Policy, r: Request, now: int, o: Outside)
    requires ValidPolicy(p) && RequestShapeOk(r) && r.mode == "write" && o.schemaValid(r)
    requires r.ownershipAssertion.Some? ==> r.ownershipAssertion.value == PolicyFor(p, r.repository).class_
    ensures var reason := ValidateAuthority(p, PolicyFor(p, r.repository), Configured(p, r.repository), r, now, o);
            var decision := Evaluate(p, r, now, o);
            && (decision.authorized <==> reason.None?) && (decision.mutationAuthorized <==> reason.None?)
            && (reason.Some? ==> decision.reason == reason.value)
  {
    var rp, configured := PolicyFor(p, r.repository), Configured(p, r.repository);
    AuthorityParts(p, rp, configured, r, now, o);
    if ValidateAuthority(p, rp, configured, r, now, o).None? {
      StandingIsAllowed(p, r, DocumentsOf(r), o);
    }
    WriteIsNotDiscovery();
  }

  lemma {:induction false} WriteIsNotDiscovery()
    ensures "write" != "discovery"
  {
    assert "write"[0] != "discovery"[0];
  }

  // ----- the window -----

  /** The conditions on the instants that do not involve the clock. */
  predicate Ordered(t: Times) {
    && t.created <= t.candidate <= t.approved && t.created <= t.ruling <= t.approved
    && t.created <= t.reviewer <= t.approved
    && t.approved < t.actionExpires <= t.envelopeExpires && t.actionExpires - t.approved <= DAY
  }

  lemma {:induction false} ChronologyExactly(t: Times, now: int)
    ensures ChronologyOk(t, now) <==> Ordered(t) && t.approved <= now < t.actionExpires
  {
  }

  lemma {:induction false} WrapShifts(x: int) returns (k: int)
    ensures Wrap64(x) == x - k * 0x1_0000_0000_0000_0000
    ensures x >= 0 ==> k >= 0
    ensures Wrap64(x) <= MAX_INT64
  {
    k := (x + 0x8000_0000_0000_0000) / 0x1_0000_0000_0000_0000;
  }

  /** A number of nanoseconds that is whole seconds never wraps to the largest Duration, which is odd, so a
      saturated lifetime never passes; and wrapping only makes a budget smaller. */
  lemma {:induction false} LifetimeBounded(t: Times, wallClockSeconds: int)
    requires LifetimeOk(t, wallClockSeconds)
    ensures t.envelopeExpires - t.created <= wallClockSeconds * SECOND
  {
    var x := wallClockSeconds * SECOND;
    var k := WrapShifts(x);
    assert x == 2 * (wallClockSeconds * 500_000_000);
    assert Wrap64(x) == 2 * (wallClockSeconds * 500_000_000 - k * 0x8000_0000_0000_0000);
    assert Wrap64(x) != MAX_INT64;
    assert k * 0x1_0000_0000_0000_0000 >= 0;
  }

  ghost predicate Authorises(p: Policy, rp: RepositoryPolicy, configured: bool, r: Request, now: int, o: Outside) {
    ValidateAuthority(p, rp, configured, r, now, o).None?
  }

  /** The window of the request's approval, when its documents have one. */
  ghost predicate IsWindow(p: Policy, rp: RepositoryPolicy, configured: bool, r: Request, o: Outside, from: int, to: int) {
    forall now :: Authorises(p, rp, configured, r, now, o) <==> from <= now < to
  }

  ghost predicate NeverAuthorises(p: Policy, rp: RepositoryPolicy, configured: bool, r: Request, o: Outside) {
    forall now :: !Authorises(p, rp, configured, r, now, o)
  }

  lemma {:induction false} AuthorisesExactly(p: Policy, rp: RepositoryPolicy, configured: bool, r: Request, now: int, o: Outside)
    requires HasDocuments(r) && TimesOf(DocumentsOf(r), o.parse).Some?
    ensures var d, t := DocumentsOf(r), TimesOf(DocumentsOf(r), o.parse).value;
            Authorises(p, rp, configured, r, now, o) <==>
            && Standing(p, rp, configured, r, d, o) && Ordered(t) && LifetimeOk(t, d.envelope.wallClockSeconds)
            && t.approved <= now < t.actionExpires
  {
    AuthorityParts(p, rp, configured, r, now, o);
    ChronologyExactly(TimesOf(DocumentsOf(r), o.parse).value, now);
  }

  /** The authorising instants are none, or exactly those from the approval up to, not including, the action's
      expiry; and that window is at most 24 hours and at most the wall-clock budget long, whatever the budget. */
  lemma {:induction false} WindowIsExact(p: Policy, rp: RepositoryPolicy, configured: bool, r: Request, o: Outside)
    ensures || NeverAuthorises(p, rp, configured, r, o)
            || (&& HasDocuments(r) && TimesOf(DocumentsOf(r), o.parse).Some?
                && var t := TimesOf(DocumentsOf(r), o.parse).value;
                   && IsWindow(p, rp, configured, r, o, t.approved, t.actionExpires)
                   && 0 < t.actionExpires - t.approved <= DAY
                   && t.actionExpires - t.approved <= r.envelope.value.wallClockSeconds * SECOND)
  {
    if !HasDocuments(r) || TimesOf(DocumentsOf(r), o.parse).None? {
      forall now ensures !Authorises(p, rp, configured, r, now, o) {
        AuthorityParts(p, rp, configured, r, now, o);
      }
    } else {
      var d, t := DocumentsOf(r), TimesOf(DocumentsOf(r), o.parse).value;
      forall now ensures Authorises(p, rp, configured, r, now, o) <==>
          && Standing(p, rp, configured, r, d, o) && Ordered(t) && LifetimeOk(t, d.envelope.wallClockSeconds)
          && t.approved <= now < t.actionExpires
      {
        AuthorisesExactly(p, rp, configured, r, now, o);
      }
      if Standing(p, rp, configured, r, d, o) && Ordered(t) && LifetimeOk(t, d.envelope.wallClockSeconds) {
        LifetimeBounded(t, d.envelope.wallClockSeconds);
      }
    }
  }

  // ----- the window of the whole evaluation -----

  predicate Mutates(p: Policy, r: Request, now: int, o: Outside) {
    Evaluate(p, r, now, o).mutationAuthorized
  }

  ghost predicate NeverMutates(p: Policy, r: Request, o: Outside) {
    forall now :: !Mutates(p, r, now, o)
  }

  ghost predicate MutatesWithin(p: Policy, r: Request, o: Outside, from: int, to: int) {
    forall now :: Mutates(p, r, now, o) <==> from <= now < to
  }

  /** Whether the request gets as far as the authority check. */
  predicate ReachesAuthority(p: Policy, r: Request, o: Outside) {
    && ValidPolicy(p) && RequestShapeOk(r) && r.mode == "write" && o.schemaValid(r)
    && (r.ownershipAssertion.Some? ==> r.ownershipAssertion.value == PolicyFor(p, r.repository).class_)
  }

  lemma {:induction false} MutatesExactly(p: Policy, r: Request, now: int, o: Outside)
    ensures Mutates(p, r, now, o) <==>
            && ReachesAuthority(p, r, o)
            && Authorises(p, PolicyFor(p, r.repository), Configured(p, r.repository), r, now, o)
  {
    if ReachesAuthority(p, r, o) {
      AuthorisedExactly(p, r, now, o);
    }
  }

  /** Under every policy and for every request, the instants at which the evaluation authorises a mutation are none,
      or exactly those from the approval up to the action's expiry: at most 24 hours and at most the wall-clock budget. */
  lemma {:induction false} EvaluationWindow(p: Policy, r: Request, o: Outside)
    ensures || NeverMutates(p, r, o)
            || (&& HasDocuments(r) && TimesOf(DocumentsOf(r), o.parse).Some?
                && var t := TimesOf(DocumentsOf(r), o.parse).value;
                   && MutatesWithin(p, r, o, t.approved, t.actionExpires)
                   && 0 < t.actionExpires - t.approved <= DAY
                   && t.actionExpires - t.approved <= r.envelope.value.wallClockSeconds * SECOND)
  {
    hide ValidPolicy, RequestShapeOk, Authorises, ReachesAuthority, Mutates;
    var rp, configured := PolicyFor(p, r.repository), Configured(p, r.repository);
    forall now ensures Mutates(p, r, now, o) <==> ReachesAuthority(p, r, o) && Authorises(p, rp, configured, r, now, o) {
      MutatesExactly(p, r, now, o);
    }
    WindowIsExact(p, rp, configured, r, o);
  }

  // ----- the checks -----

  /** In an authorised request the three check lists are orders of the policy's list, and every check is green
      at the approved head. */
  lemma {:induction false} AuthorisedChecks(p: Policy, rp: RepositoryPolicy, configured: bool, r: Request, now: int, o: Outside)
    requires Authorises(p, rp, configured, r, now, o)
    ensures HasDocuments(r)
    ensures var d := DocumentsOf(r);
            && multiset(Names(d.ruling.requiredChecks)) == multiset(rp.requiredChecks)
            && multiset(Names(d.action.requiredChecks)) == multiset(rp.requiredChecks)
            && multiset(d.envelope.requiredChecks) == multiset(rp.requiredChecks)
            && Green(d.ruling.requiredChecks, d.action.headSHA) && Green(d.action.requiredChecks, d.action.headSHA)
            && d.ruling.headSHA == d.action.headSHA
  {
    AuthorityParts(p, rp, configured, r, now, o);
    var d := DocumentsOf(r);
    ChecksArePermutations(rp.requiredChecks, d);
    SameUniqueExactly(d.envelope.requiredChecks, rp.requiredChecks, "");
    IdentityBindsHead(r, d);
    assert MatchesRepositoryPolicy(p, rp, d);
  }

  lemma {:induction false} ChecksArePermutations(expected: seq<string>, d: Documents)
    requires ValidateChecks(expected, d).None?
    ensures multiset(Names(d.ruling.requiredChecks)) == multiset(expected)
    ensures multiset(Names(d.action.requiredChecks)) == multiset(expected)
  {
    SameUniqueExactly(Names(d.ruling.requiredChecks), expected, "");
    SameUniqueExactly(Names(d.action.requiredChecks), expected, "");
  }

  lemma {:induction false} IdentityBindsHead(r: Request, d: Documents)
    requires ValidateIdentity(r, d).None?
    ensures d.ruling.headSHA == d.action.headSHA
  {
  }

  // ----- repository names and forks -----

  /** owner/name, split at its only slash. */
  predicate NamedAt(repository: string, i: nat) {
    0 < i < |repository| - 1 && repository[i] == '/' && '/' !in repository[..i] && '/' !in repository[i + 1..]
  }

  lemma {:induction false} OneSlash(repository: string, i: nat, j: nat)
    requires i < |repository| && repository[i] == '/' && '/' !in repository[..i]
    requires NamedAt(repository, j)
    ensures i == j
  {
    assert forall k :: 0 <= k < |repository[..j]| ==> repository[..j][k] == repository[k];
    assert forall k :: 0 <= k < |repository[..i]| ==> repository[..i][k] == repository[k];
  }

  lemma {:induction false} RepositoryNameExactly(repository: string) returns (i: nat)
    ensures ValidRepositoryName(repository) <==> exists j: nat :: NamedAt(repository, j)
    ensures ValidRepositoryName(repository) ==> NamedAt(repository, i) && repository[i + 1..] == RepositoryNameOf(repository)
  {
    i := 0;
    while i < |repository| && repository[i] != '/'
      invariant i <= |repository| && '/' !in repository[..i]
    {
      assert repository[..i + 1] == repository[..i] + [repository[i]];
      i := i + 1;
    }
    if i < |repository| {
      var head, tail := repository[..i], repository[i + 1..];
      assert repository == head + ['/'] + tail;
      SplitHead(head, tail, '/');
      if '/' in tail {
        MoreParts(tail);
      } else {
        SplitOne(tail, '/');
      }
      assert ValidRepositoryName(repository) <==> NamedAt(repository, i);
      forall j: nat | NamedAt(repository, j) ensures j == i {
        OneSlash(repository, i, j);
      }
    } else {
      assert repository[..i] == repository;
      SplitOne(repository, '/');
    }
  }

  lemma {:induction false} MoreParts(s: string)
    requires '/' in s
    ensures |Split(s, '/')| >= 2
  {
    if s[0] != '/' {
      assert s == [s[0]] + s[1..];
      MoreParts(s[1..]);
    }
  }

  /** The fork is the owner's copy of the repository: the owner, then the slash and the name as they stand there. */
  ghost predicate ForkOf(fork: string, owner: string, repository: string) {
    exists i: nat :: NamedAt(repository, i) && fork == owner + repository[i..]
  }

  lemma {:induction false} ForkExactly(fork: string, owner: string, repository: string)
    requires ValidRepositoryName(repository)
    ensures ForkOf(fork, owner, repository) <==> fork == owner + "/" + RepositoryNameOf(repository)
  {
    var i := RepositoryNameExactly(repository);
    assert owner + repository[i..] == owner + "/" + repository[i + 1..];
    forall j: nat | NamedAt(repository, j) ensures j == i {
      OneSlash(repository, i, j);
    }
  }

  /** The push goes where the policy of the repository sends it: to the operator's own fork of it, or to no fork. */
  ghost predicate RightFork(d: Documents) {
    if d.ruling.pushTarget.OperatorFork? then
      d.envelope.forkOwner.Some? && d.action.fork.Some?
      && ForkOf(d.action.fork.value, d.envelope.forkOwner.value, d.action.repository)
    else d.envelope.forkOwner.None? && d.action.fork.None?
  }

  /** The branch that was triggered on is the one that is routed to, and the action's branch is the repair branch. */
  predicate RightBranches(d: Documents) {
    d.envelope.triggerBranch == d.envelope.routingBranch && d.action.branch == d.envelope.repairBranch
  }

  // ----- what authorisation guarantees -----

  /** All five documents and the request speak of one run, repository, issue, action, base and chain of digests. */
  predicate OneStory(r: Request, d: Documents) {
    && {d.envelope.runID, d.candidate.runID, d.ruling.runID, d.reviewer.runID} == {d.action.runID}
    && {r.repository, d.envelope.repository, d.candidate.repository, d.ruling.repository} == {d.action.repository}
    && r.issueNumber == Some(d.action.issueNumber) && d.candidate.issueNumber == d.action.issueNumber
    && r.action == d.action.action && r.approvedActionDigest == d.action.digest
    && {r.currentBaseSHA, d.envelope.triggerBase, d.envelope.routingBase, d.candidate.baseSHA, d.ruling.baseSHA}
       == {d.action.baseSHA}
    && d.action.envelopeDigest == d.envelope.digest && d.action.candidateDigest == d.candidate.digest
    && d.action.rulingDigest == d.ruling.digest && d.action.reviewerDigest == d.reviewer.digest
  }

  /** What each class of repository may at most be asked for. */
  predicate WithinClass(rp: RepositoryPolicy, d: Documents) {
    var a, m := d.action.action, d.ruling.merge;
    && !m.branchProtectionBypassed
    && (rp.class_.External? ==> (a.PushOperatorFork? || a.OpenUpstreamDraft?) && NoMerge(m) && d.ruling.pushTarget.OperatorFork?)
    && (rp.class_.Team? ==> !a.AutoMerge? && (a.RequestMergeQueue? ==> HumanApproved(d)))
    && (a.AutoMerge? && rp.class_.SoleControl? ==> rp.soleAutoMergeOptIn && m.authorized && m.autoMergeOptIn)
    && (m.authorized ==> a.RequestMergeQueue? || a.AutoMerge?)
  }

  /** An authorised write concerns one story, a candidate with all nine findings and no protected path; its action is
      one that the repository's policy allows, within what its class of repository permits; and it goes from the branch
      of the trigger to the repair branch of the operator's own fork, or of no fork. */
  lemma {:induction false} AuthorisedMeans(p: Policy, rp: RepositoryPolicy, configured: bool, r: Request, now: int, o: Outside)
    requires Authorises(p, rp, configured, r, now, o) && !rp.class_.OtherClass?
    ensures HasDocuments(r) && OneStory(r, DocumentsOf(r)) && WithinClass(rp, DocumentsOf(r))
    ensures var e := DocumentsOf(r).candidate.eligibility;
            && e.openBug && e.targetInRepository && e.noExistingFix && e.currentHeadUnfixed && !e.securitySensitive
            && e.reproductionFeasible && e.localReproduction && e.behaviorGrounded && e.policyCompatible
    ensures DocumentsOf(r).candidate.decision == "selected"
    ensures forall c :: c in r.changedPathClasses ==> c !in p.riskyPathClasses
    ensures r.action in rp.allowedActions && r.action in DocumentsOf(r).envelope.allowedActions
    ensures RightBranches(DocumentsOf(r)) && RightFork(DocumentsOf(r))
  {
    AuthorityParts(p, rp, configured, r, now, o);
    var d := DocumentsOf(r);
    IdentityIsOneStory(r, d);
    ClassIsWithin(p, rp, configured, d);
    RoutingIsRight(rp, d);
    hide RightFork, OneStory, WithinClass, ForkOf, ValidateIdentity, ValidateRouting, ValidateActionClass, ValidateChecks;
    assert MatchesRepositoryPolicy(p, rp, d);
  }

  lemma {:induction false} RoutingIsRight(rp: RepositoryPolicy, d: Documents)
    requires ValidRepositoryName(d.action.repository) && ValidateRouting(rp, d).None?
    ensures RightBranches(d) && RightFork(d)
  {
    if d.envelope.forkOwner.Some? && d.action.fork.Some? {
      ForkExactly(d.action.fork.value, d.envelope.forkOwner.value, d.action.repository);
    }
    hide ForkOf, ValidRepositoryName, RepositoryNameOf;
  }

  lemma {:induction false} IdentityIsOneStory(r: Request, d: Documents)
    requires ValidateIdentity(r, d).None?
    ensures OneStory(r, d)
  {
  }

  lemma {:induction false} ClassIsWithin(p: Policy, rp: RepositoryPolicy, configured: bool, d: Documents)
    requires ValidRepositoryName(d.action.repository) && ValidatePolicyMatch(p, rp, configured, d).None?
    requires ValidateRouting(rp, d).None? && ValidateActionClass(rp, d).None? && !rp.class_.OtherClass?
    ensures WithinClass(rp, d)
  {
  }
}
