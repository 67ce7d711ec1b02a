/** What a ruling says besides its verdict: the reason and the ticket, by the first ticket that covers the effect. */
module PolicyRulings {
  import opened Text
  import opened Contracts
  import opened Policy
  import Paths

  // ----- the evidence of a full claim -----

  predicate StandsAt(text: string, phrase: string, i: nat) {
    i + |phrase| <= |text| && ToLower(text[i..i + |phrase|]) == phrase
  }

  /** The phrase stands somewhere in the text, in letters of either case. */
  ghost predicate Mentions(text: string, phrase: string) {
    exists i: nat :: StandsAt(text, phrase, i)
  }

  lemma {:induction false} MentionsExactly(text: string, phrase: string)
    ensures Contains(ToLower(text), phrase) <==> Mentions(text, phrase)
  {
    var lower := ToLower(text);
    if Contains(lower, phrase) {
      var i: nat :| i <= |lower| && phrase <= lower[i..];
      assert ToLower(text[i..i + |phrase|]) == lower[i..i + |phrase|] == lower[i..][..|phrase|];
      assert StandsAt(text, phrase, i);
    }
    if Mentions(text, phrase) {
      var i: nat :| StandsAt(text, phrase, i);
      assert lower[i..][..|phrase|] == ToLower(text[i..i + |phrase|]);
    }
  }

  /** What a full claim's ticket must name. */
  const FULL_EVIDENCE: seq<string> := ["mutation authority", "rollback", "live self-change"]

  ghost predicate NamesFullEvidence(reason: string) {
    forall phrase :: phrase in FULL_EVIDENCE ==> Mentions(reason, phrase)
  }

  ghost predicate NamesOnlyRollback(reason: string) {
    forall phrase :: phrase in FULL_EVIDENCE ==> (Mentions(reason, phrase) <==> phrase == "rollback")
  }

  lemma {:induction false} EvidenceExactly(reason: string)
    ensures FullEvidenceReason(reason) <==> NamesFullEvidence(reason)
  {
    MentionsExactly(reason, MUTATION);
    MentionsExactly(reason, ROLLBACK);
    MentionsExactly(reason, SELF_CHANGE);
    hide Mentions, Contains, ToLower;
    assert MUTATION == FULL_EVIDENCE[0] && ROLLBACK == FULL_EVIDENCE[1] && SELF_CHANGE == FULL_EVIDENCE[2];
  }

  lemma {:induction false} OnlyRollbackExactly(t: ApprovalTicket)
    ensures MissingEvidenceReason(t) ==
            if NamesOnlyRollback(t.reason) then OnlyRollbackEvidence(t.ticketID) else EvidenceMissing(t.ticketID)
  {
    MentionsExactly(t.reason, MUTATION);
    MentionsExactly(t.reason, ROLLBACK);
    MentionsExactly(t.reason, SELF_CHANGE);
    hide Mentions, Contains, ToLower;
    assert MUTATION == FULL_EVIDENCE[0] && ROLLBACK == FULL_EVIDENCE[1] && SELF_CHANGE == FULL_EVIDENCE[2];
    assert MUTATION[0] != ROLLBACK[0] && SELF_CHANGE[0] != ROLLBACK[0];
  }

  // ----- rulings -----

  predicate NeedsTicket(effectType: string) {
    effectType == "process.spawn" || effectType == "network.request" || effectType == "claim.publish"
  }

  /** Some path of the list has this normal form. */
  ghost predicate Declares(paths: seq<string>, resource: string) {
    exists path :: path in paths && Paths.SlashClean(path) == resource
  }

  ghost predicate NoCover(approvals: seq<ApprovalTicket>, taskID: string, effectType: string, resource: string) {
    forall j :: 0 <= j < |approvals| ==> !Covers(approvals[j], taskID, effectType, resource)
  }

  /** The ruling when no approved ticket covers the effect. */
  function Uncovered(effectType: string, resource: string): Ruling {
    Ruling(DENY,
           if effectType != "claim.publish" then TicketRequired(effectType)
           else if resource == FULL_CLAIM then FullClaimDenied else ClaimTicketRequired,
           "")
  }

  /** The ruling when t is the first approved ticket that covers the effect: an unexpired ticket is named, whether the
      effect is allowed or, for a revoked ticket or a full claim without its evidence, denied. */
  ghost predicate RuledBy(input: Input, clock: Clock, effectType: string, resource: string, t: ApprovalTicket, r: Ruling) {
    if !Unexpired(t, EvaluationTime(input, clock), clock.parse) then
      && r.verdict == DENY && r.ticketID == ""
      && r.reason == if clock.parse(t.expiresAt).Some? then TicketExpired(t.ticketID, t.expiresAt)
                     else TicketBadExpiration(t.ticketID, t.expiresAt)
    else
      && r.ticketID == t.ticketID
      && if t.ticketID in input.revoked then r.verdict == DENY && r.reason == TicketRevoked(t.ticketID)
         else if effectType != "claim.publish" then r.verdict == ALLOW && r.reason == ApprovedByTicket
         else if resource != FULL_CLAIM then r.verdict == ALLOW && r.reason == ApprovedClaim
         else if NamesFullEvidence(t.reason) then r.verdict == ALLOW && r.reason == FullClaimApproved
         else
           && r.verdict == DENY
           && r.reason == if NamesOnlyRollback(t.reason) then OnlyRollbackEvidence(t.ticketID) else EvidenceMissing(t.ticketID)
  }

  lemma {:induction false} TicketRulingExactly(input: Input, clock: Clock, action: ActionRef, k: nat)
    requires input.mode == "strict" && NeedsTicket(action.effectType)
    ensures var resource, r := Paths.SlashClean(action.resource), EvaluateAction(input, clock, action);
            && (NoCover(input.approvals, input.taskID, action.effectType, resource) ==> r == Uncovered(action.effectType, resource))
            && (IsFirstCover(input.approvals, k, input.taskID, action.effectType, resource) ==>
                  RuledBy(input, clock, action.effectType, resource, input.approvals[k], r))
  {
    var resource, now := Paths.SlashClean(action.resource), EvaluationTime(input, clock);
    var found := MatchingTicket(input.approvals, input.taskID, action.effectType, resource, now, clock.parse);
    var j := MatchIsFirstCover(input.approvals, input.taskID, action.effectType, resource, now, clock.parse);
    MatchTellsExpiry(input.approvals, input.taskID, action.effectType, resource, now, clock.parse);
    hide MatchingTicket, FullEvidenceReason, MissingEvidenceReason, NamesFullEvidence, NamesOnlyRollback, Paths.SlashClean, Covers;
    if IsFirstCover(input.approvals, k, input.taskID, action.effectType, resource) {
      if found.Missing? {
        assert false;
      } else {
        OneFirstCover(input.approvals, j, k, input.taskID, action.effectType, resource);
        EvidenceExactly(input.approvals[k].reason);
        OnlyRollbackExactly(input.approvals[k]);
      }
    }
  }

  lemma {:induction false} DeclaresExactly(paths: seq<string>, resource: string)
    ensures ContainsNormalized(paths, resource) <==> Declares(paths, resource)
  {
    if path :| path in paths && Paths.SlashClean(path) == resource {
      var i :| 0 <= i < |paths| && paths[i] == path;
    }
  }

  /** What every ruling says: file effects are ruled by the declared paths and name no ticket; processes, network
      requests and claims by the first approved ticket that covers them. */
  ghost predicate RightRuling(input: Input, clock: Clock, action: ActionRef, r: Ruling) {
    var effectType, resource := action.effectType, Paths.SlashClean(action.resource);
    if input.mode != "strict" then r == Ruling(DENY, UnsupportedMode(input.mode), "")
    else if effectType == "file.write" then
      r == if Declares(input.writePaths, resource) then Ruling(ALLOW, DeclaredWrite, "") else Ruling(DENY, UndeclaredWrite, "")
    else if effectType == "file.read" then
      r == if Declares(input.readPaths, resource) then Ruling(ALLOW, DeclaredRead, "") else Ruling(DENY, UndeclaredRead, "")
    else if !NeedsTicket(effectType) then r == Ruling(DENY, UnknownEffect, "")
    else
      && (NoCover(input.approvals, input.taskID, effectType, resource) ==> r == Uncovered(effectType, resource))
      && forall k :: 0 <= k < |input.approvals| && IsFirstCover(input.approvals, k, input.taskID, effectType, resource) ==>
           RuledBy(input, clock, effectType, resource, input.approvals[k], r)
  }

  lemma {:induction false} RulingExactly(input: Input, clock: Clock, action: ActionRef)
    ensures RightRuling(input, clock, action, EvaluateAction(input, clock, action))
  {
    hide RuledBy, IsFirstCover, NoCover, MatchingTicket, EvaluateClaimPublish, Paths.SlashClean, ContainsNormalized, Declares;
    var resource := Paths.SlashClean(action.resource);
    DeclaresExactly(input.writePaths, resource);
    DeclaresExactly(input.readPaths, resource);
    if input.mode == "strict" && NeedsTicket(action.effectType) {
      TicketRulingExactly(input, clock, action, 0);
      forall k: nat | k < |input.approvals| && IsFirstCover(input.approvals, k, input.taskID, action.effectType, resource)
        ensures RuledBy(input, clock, action.effectType, resource, input.approvals[k], EvaluateAction(input, clock, action))
      {
        TicketRulingExactly(input, clock, action, k);
      }
    }
  }

  // ----- the ticket -----

  /** The ticket at position k is the first approved one that covers the effect, and it has not expired. */
  ghost predicate TicketInUse(input: Input, clock: Clock, action: ActionRef, k: nat) {
    && input.mode == "strict" && NeedsTicket(action.effectType)
    && IsFirstCover(input.approvals, k, input.taskID, action.effectType, Paths.SlashClean(action.resource))
    && Unexpired(input.approvals[k], EvaluationTime(input, clock), clock.parse)
  }

  lemma {:induction false} CoveredOrNot(approvals: seq<ApprovalTicket>, taskID: string, effectType: string, resource: string)
    returns (k: nat)
    ensures NoCover(approvals, taskID, effectType, resource) || IsFirstCover(approvals, k, taskID, effectType, resource)
  {
    hide Covers;
    k := 0;
    while k < |approvals| && !Covers(approvals[k], taskID, effectType, resource)
      invariant k <= |approvals| && forall j :: 0 <= j < k ==> !Covers(approvals[j], taskID, effectType, resource)
    {
      k := k + 1;
    }
  }

  /** A ruling names exactly the ticket in use, and no ticket when there is none. */
  lemma {:induction false} TicketExactly(input: Input, clock: Clock, action: ActionRef)
    ensures var r := EvaluateAction(input, clock, action);
            && (forall k: nat :: TicketInUse(input, clock, action, k) ==> r.ticketID == input.approvals[k].ticketID)
            && ((forall k: nat :: !TicketInUse(input, clock, action, k)) ==> r.ticketID == "")
  {
    var k := CoveredOrNot(input.approvals, input.taskID, action.effectType, Paths.SlashClean(action.resource));
    UsedTicketIsNamed(input, clock, action, k);
    forall j: nat | TicketInUse(input, clock, action, j) ensures EvaluateAction(input, clock, action).ticketID == input.approvals[j].ticketID {
      UsedTicketIsNamed(input, clock, action, j);
    }
  }

  lemma {:induction false} UsedTicketIsNamed(input: Input, clock: Clock, action: ActionRef, k: nat)
    ensures var resource, r := Paths.SlashClean(action.resource), EvaluateAction(input, clock, action);
            && (NoCover(input.approvals, input.taskID, action.effectType, resource) ==> r.ticketID == "")
            && (IsFirstCover(input.approvals, k, input.taskID, action.effectType, resource) ==>
                  r.ticketID == if TicketInUse(input, clock, action, k) then input.approvals[k].ticketID else "")
  {
    RulingExactly(input, clock, action);
    FirstCoverInRange(input.approvals, k, input.taskID, action.effectType, Paths.SlashClean(action.resource));
    hide EvaluateAction, IsFirstCover, NoCover, Unexpired, NamesFullEvidence, NamesOnlyRollback, Declares, Paths.SlashClean;
  }

  lemma {:induction false} FirstCoverInRange(
    approvals: seq<ApprovalTicket>, k: nat, taskID: string, effectType: string, resource: string)
    ensures IsFirstCover(approvals, k, taskID, effectType, resource) ==> k < |approvals|
  {
  }
}
