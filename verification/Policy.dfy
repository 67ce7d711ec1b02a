/** Policy evaluation of a task's declared side effects. */
module Policy {
  import opened Text
  import opened Contracts
  import Paths

  const ALLOW := "allow"
  const DENY := "deny"
  const FULL_CLAIM := "full-autonomous-self-mutating-rsi"

  /** Instants count from Go's zero time, so 0 is the one that time.Time.IsZero reports. */
  const ZERO_TIME: int := 0

  datatype Input = Input(
    mode: string,
    readPaths: seq<string>,
    writePaths: seq<string>,
    taskID: string,
    actions: seq<ActionRef>,
    approvals: seq<ApprovalTicket>,
    evaluationTime: int,
    revoked: set<string>)

  datatype Reason =
    | UnsupportedMode(mode: string)
    | DeclaredWrite
    | UndeclaredWrite
    | DeclaredRead
    | UndeclaredRead
    | ApprovedByTicket
    | TicketRequired(effectType: string)
    | TicketRevoked(ticketID: string)
    | TicketExpired(ticketID: string, at: string)
    | TicketBadExpiration(ticketID: string, at: string)
    | UnknownEffect
    | ApprovedClaim
    | ClaimTicketRequired
    | FullClaimDenied
    | FullClaimApproved
    | OnlyRollbackEvidence(ticketID: string)
    | EvidenceMissing(ticketID: string)

  /** RFC 3339 parsing, the wall clock, and the wording of reasons, which nothing depends on. */
  datatype Clock = Clock(parse: string -> Option<int>, now: int, render: Reason -> string)

  datatype Decision = Decision(
    decisionID: string,
    taskID: string,
    effectType: string,
    resource: string,
    verdict: string,
    reason: string,
    ticketID: string)

  datatype Ruling = Ruling(verdict: string, reason: Reason, ticketID: string)

  datatype TicketMatch =
    | Missing
    | Valid(ticket: ApprovalTicket)
    | Expired(ticket: ApprovalTicket)
    | InvalidExpiration(ticket: ApprovalTicket)

  function EvaluationTime(input: Input, clock: Clock): int {
    if input.evaluationTime != ZERO_TIME then input.evaluationTime else clock.now
  }

  predicate ContainsNormalized(values: seq<string>, resource: string) {
    exists i :: 0 <= i < |values| && Paths.SlashClean(values[i]) == resource
  }

  function MatchingTicket(
    approvals: seq<ApprovalTicket>, taskID: string, effectType: string, resource: string,
    now: int, parse: string -> Option<int>): TicketMatch
  {
    if approvals == [] then Missing
    else
      var t := approvals[0];
      if t.taskID == taskID && t.effectType == effectType && Paths.SlashClean(t.resource) == resource && t.approved then
        if t.expiresAt == "" then Valid(t)
        else match parse(t.expiresAt)
          case None => InvalidExpiration(t)
          case Some(at) => if at <= now then Expired(t) else Valid(t)
      else MatchingTicket(approvals[1..], taskID, effectType, resource, now, parse)
  }

  function RevokedRuling(t: ApprovalTicket): Ruling {
    Ruling(DENY, TicketRevoked(t.ticketID), t.ticketID)
  }

  function ExpiredRuling(t: ApprovalTicket): Ruling {
    Ruling(DENY, TicketExpired(t.ticketID, t.expiresAt), "")
  }

  function InvalidExpirationRuling(t: ApprovalTicket): Ruling {
    Ruling(DENY, TicketBadExpiration(t.ticketID, t.expiresAt), "")
  }

  function EvaluateAction(input: Input, clock: Clock, action: ActionRef): Ruling {
    if input.mode != "strict" then Ruling(DENY, UnsupportedMode(input.mode), "")
    else
      var resource := Paths.SlashClean(action.resource);
      if action.effectType == "file.write" then
        if ContainsNormalized(input.writePaths, resource) then Ruling(ALLOW, DeclaredWrite, "")
        else Ruling(DENY, UndeclaredWrite, "")
      else if action.effectType == "file.read" then
        if ContainsNormalized(input.readPaths, resource) then Ruling(ALLOW, DeclaredRead, "")
        else Ruling(DENY, UndeclaredRead, "")
      else
        var found := MatchingTicket(
          input.approvals, input.taskID, action.effectType, resource, EvaluationTime(input, clock), clock.parse);
        if action.effectType == "network.request" || action.effectType == "process.spawn" then
          match found
          case Valid(t) =>
            if t.ticketID in input.revoked then RevokedRuling(t) else Ruling(ALLOW, ApprovedByTicket, t.ticketID)
          case Expired(t) => ExpiredRuling(t)
          case InvalidExpiration(t) => InvalidExpirationRuling(t)
          case Missing => Ruling(DENY, TicketRequired(action.effectType), "")
        else if action.effectType == "claim.publish" then EvaluateClaimPublish(input, found, resource)
        else Ruling(DENY, UnknownEffect, "")
  }

  function EvaluateClaimPublish(input: Input, found: TicketMatch, resource: string): Ruling {
    match found
    case Expired(t) => ExpiredRuling(t)
    case InvalidExpiration(t) => InvalidExpirationRuling(t)
    case Missing =>
      if resource != FULL_CLAIM then Ruling(DENY, ClaimTicketRequired, "")
      else Ruling(DENY, FullClaimDenied, "")
    case Valid(t) =>
      if t.ticketID in input.revoked then RevokedRuling(t)
      else if resource != FULL_CLAIM then Ruling(ALLOW, ApprovedClaim, t.ticketID)
      else if !FullEvidenceReason(t.reason) then Ruling(DENY, MissingEvidenceReason(t), t.ticketID)
      else Ruling(ALLOW, FullClaimApproved, t.ticketID)
  }

  const MUTATION := "mutation authority"
  const ROLLBACK := "rollback"
  const SELF_CHANGE := "live self-change"

  predicate FullEvidenceReason(reason: string) {
    var text := ToLower(reason);
    Contains(text, MUTATION) && Contains(text, ROLLBACK) && Contains(text, SELF_CHANGE)
  }

  function MissingEvidenceReason(t: ApprovalTicket): Reason {
    var text := ToLower(t.reason);
    if Contains(text, ROLLBACK) && !Contains(text, MUTATION) && !Contains(text, SELF_CHANGE) then
      OnlyRollbackEvidence(t.ticketID)
    else EvidenceMissing(t.ticketID)
  }

  function DecisionID(taskID: string, index: nat): string {
    "policy-" + taskID + "-" + Digits(index + 1)
  }

  function DecisionFor(input: Input, clock: Clock, index: nat): Decision
    requires index < |input.actions|
  {
    var action := input.actions[index];
    var ruling := EvaluateAction(input, clock, action);
    Decision(DecisionID(input.taskID, index), input.taskID, action.effectType,
             Paths.SlashClean(action.resource), ruling.verdict, clock.render(ruling.reason), ruling.ticketID)
  }

  function TaskDecisions(input: Input, clock: Clock): (decisions: seq<Decision>)
    ensures |decisions| == |input.actions|
    ensures forall i :: 0 <= i < |input.actions| ==>
              && decisions[i].taskID == input.taskID
              && decisions[i].effectType == input.actions[i].effectType
              && (decisions[i].verdict == ALLOW || decisions[i].verdict == DENY)
  {
    seq(|input.actions|, i requires 0 <= i < |input.actions| => DecisionFor(input, clock, i))
  }

  method EvaluateTask(input: Input, clock: Clock) returns (decisions: seq<Decision>)
    ensures decisions == TaskDecisions(input, clock)
  {
    decisions := [];
    for index := 0 to |input.actions|
      invariant |decisions| == index
      invariant forall i :: 0 <= i < index ==> decisions[i] == DecisionFor(input, clock, i)
    {
      var action := input.actions[index];
      var ruling := EvaluateAction(input, clock, action);
      decisions := decisions + [Decision(DecisionID(input.taskID, index), input.taskID, action.effectType,
                                         Paths.SlashClean(action.resource),
                                         ruling.verdict, clock.render(ruling.reason), ruling.ticketID)];
    }
  }

  /** Decision IDs tell both the task and the effect index apart, whatever dashes task IDs hold. */
  lemma {:induction false} DecisionIDInjective(task1: string, index1: nat, task2: string, index2: nat)
    requires DecisionID(task1, index1) == DecisionID(task2, index2)
    ensures task1 == task2 && index1 == index2
  {
    DigitsHaveNoDash(index1 + 1);
    DigitsHaveNoDash(index2 + 1);
    LastDashSplits("policy-" + task1, Digits(index1 + 1), "policy-" + task2, Digits(index2 + 1));
    assert ("policy-" + task1)[|"policy-"|..] == task1;
    assert ("policy-" + task2)[|"policy-"|..] == task2;
    DigitsInjective(index1 + 1, index2 + 1);
  }

  // ----- what an allowance means -----

  predicate Covers(t: ApprovalTicket, taskID: string, effectType: string, resource: string) {
    t.taskID == taskID && t.effectType == effectType && Paths.SlashClean(t.resource) == resource && t.approved
  }

  predicate Unexpired(t: ApprovalTicket, now: int, parse: string -> Option<int>) {
    t.expiresAt == "" || (parse(t.expiresAt).Some? && now < parse(t.expiresAt).value)
  }

  /** The first approved ticket that covers the effect: later ones are never looked at. */
  ghost predicate IsFirstCover(
    approvals: seq<ApprovalTicket>, k: nat, taskID: string, effectType: string, resource: string)
  {
    && k < |approvals| && Covers(approvals[k], taskID, effectType, resource)
    && forall j :: 0 <= j < k ==> !Covers(approvals[j], taskID, effectType, resource)
  }

  /** The search finds the first cover, at position k, or there is none. */
  lemma {:induction false} MatchIsFirstCover(
    approvals: seq<ApprovalTicket>, taskID: string, effectType: string, resource: string,
    now: int, parse: string -> Option<int>)
    returns (k: nat)
    ensures var found := MatchingTicket(approvals, taskID, effectType, resource, now, parse);
            if found.Missing? then forall j :: 0 <= j < |approvals| ==> !Covers(approvals[j], taskID, effectType, resource)
            else IsFirstCover(approvals, k, taskID, effectType, resource) && approvals[k] == found.ticket
                 && (found.Valid? <==> Unexpired(approvals[k], now, parse))
  {
    k := 0;
    if approvals != [] && !Covers(approvals[0], taskID, effectType, resource) {
      k := MatchIsFirstCover(approvals[1..], taskID, effectType, resource, now, parse);
      assert forall j :: 1 <= j < |approvals| ==> approvals[j] == approvals[1..][j - 1];
      k := k + 1;
    }
  }

  /** The outcome of the search says which of the four cases the first cover is in. */
  lemma {:induction false} MatchTellsExpiry(
    approvals: seq<ApprovalTicket>, taskID: string, effectType: string, resource: string,
    now: int, parse: string -> Option<int>)
    ensures var found := MatchingTicket(approvals, taskID, effectType, resource, now, parse);
            && (found.InvalidExpiration? ==> found.ticket.expiresAt != "" && parse(found.ticket.expiresAt).None?)
            && (found.Expired? ==> parse(found.ticket.expiresAt).Some?)
            && (found.Valid? ==> found.ticket.expiresAt == "" || parse(found.ticket.expiresAt).Some?)
  {
    if approvals != [] {
      MatchTellsExpiry(approvals[1..], taskID, effectType, resource, now, parse);
    }
  }

  /** The first ticket for the effect is unexpired and not revoked. */
  ghost predicate LiveTicket(input: Input, clock: Clock, action: ActionRef, k: nat) {
    && IsFirstCover(input.approvals, k, input.taskID, action.effectType, Paths.SlashClean(action.resource))
    && Unexpired(input.approvals[k], EvaluationTime(input, clock), clock.parse)
    && input.approvals[k].ticketID !in input.revoked
  }

  /** Under the strict mode: declared file effects, live tickets for processes and the network, and for claims a
      live ticket, whose reason must name the full evidence when the claim is the full one. */
  ghost predicate Permitted(input: Input, clock: Clock, action: ActionRef) {
    var resource := Paths.SlashClean(action.resource);
    && input.mode == "strict"
    && (|| (action.effectType == "file.write" && ContainsNormalized(input.writePaths, resource))
        || (action.effectType == "file.read" && ContainsNormalized(input.readPaths, resource))
        || ((action.effectType == "network.request" || action.effectType == "process.spawn")
            && exists k: nat :: LiveTicket(input, clock, action, k))
        || (action.effectType == "claim.publish"
            && exists k: nat :: LiveTicket(input, clock, action, k)
                 && (resource == FULL_CLAIM ==> FullEvidenceReason(input.approvals[k].reason))))
  }

  lemma {:induction false} OneFirstCover(
    approvals: seq<ApprovalTicket>, j: nat, k: nat, taskID: string, effectType: string, resource: string)
    requires IsFirstCover(approvals, j, taskID, effectType, resource)
    requires IsFirstCover(approvals, k, taskID, effectType, resource)
    ensures j == k
  {
  }

  /** A live ticket is what the search returns, unless it is revoked. */
  lemma {:induction false} LiveTicketExactly(input: Input, clock: Clock, action: ActionRef, k: nat)
    ensures var found := MatchingTicket(input.approvals, input.taskID, action.effectType,
                                        Paths.SlashClean(action.resource), EvaluationTime(input, clock), clock.parse);
            LiveTicket(input, clock, action, k) ==>
              && k < |input.approvals| && found.Valid? && found.ticket == input.approvals[k]
              && found.ticket.ticketID !in input.revoked
    ensures var found := MatchingTicket(input.approvals, input.taskID, action.effectType,
                                        Paths.SlashClean(action.resource), EvaluationTime(input, clock), clock.parse);
            found.Valid? && found.ticket.ticketID !in input.revoked ==>
              exists j: nat :: LiveTicket(input, clock, action, j) && input.approvals[j] == found.ticket
  {
    var resource := Paths.SlashClean(action.resource);
    var j := MatchIsFirstCover(input.approvals, input.taskID, action.effectType, resource,
                               EvaluationTime(input, clock), clock.parse);
    if LiveTicket(input, clock, action, k) {
      assert Covers(input.approvals[k], input.taskID, action.effectType, resource);
      OneFirstCover(input.approvals, j, k, input.taskID, action.effectType, resource);
    }
    assert MatchingTicket(input.approvals, input.taskID, action.effectType, resource,
                          EvaluationTime(input, clock), clock.parse).Valid? ==>
             IsFirstCover(input.approvals, j, input.taskID, action.effectType, resource);
  }

  /** An effect is allowed exactly when it is permitted. */
  lemma {:induction false} AllowedExactly(input: Input, clock: Clock, action: ActionRef)
    ensures EvaluateAction(input, clock, action).verdict == ALLOW <==> Permitted(input, clock, action)
  {
    hide LiveTicket, MatchingTicket, ContainsNormalized, FullEvidenceReason;
    forall k: nat ensures
      var found := MatchingTicket(input.approvals, input.taskID, action.effectType,
                                  Paths.SlashClean(action.resource), EvaluationTime(input, clock), clock.parse);
      LiveTicket(input, clock, action, k) ==>
        && k < |input.approvals| && found.Valid? && found.ticket == input.approvals[k]
        && found.ticket.ticketID !in input.revoked
    {
      LiveTicketExactly(input, clock, action, k);
    }
    LiveTicketExactly(input, clock, action, 0);
  }

  // ----- antitonicity -----

  /** The two inputs agree except for revocations and evaluation time. */
  ghost predicate SameButRevocationAndTime(a: Input, b: Input) {
    b == a.(revoked := b.revoked, evaluationTime := b.evaluationTime)
  }

  lemma {:induction false} LaterMatch(
    approvals: seq<ApprovalTicket>, taskID: string, effectType: string, resource: string,
    early: int, late: int, parse: string -> Option<int>)
    requires early <= late
    ensures var now := MatchingTicket(approvals, taskID, effectType, resource, early, parse);
            var then_ := MatchingTicket(approvals, taskID, effectType, resource, late, parse);
            then_ == now || (now.Valid? && then_ == Expired(now.ticket))
  {
    if approvals != [] {
      LaterMatch(approvals[1..], taskID, effectType, resource, early, late, parse);
    }
  }

  /** More revocations or a later effective instant never turn a denial into an allowance. */
  lemma {:induction false} PolicyIsAntitone(a: Input, b: Input, clockA: Clock, clockB: Clock, action: ActionRef)
    requires SameButRevocationAndTime(a, b) && a.revoked <= b.revoked
    requires clockA.parse == clockB.parse
    requires EvaluationTime(a, clockA) <= EvaluationTime(b, clockB)
    ensures EvaluateAction(b, clockB, action).verdict == ALLOW ==>
              EvaluateAction(a, clockA, action) == EvaluateAction(b, clockB, action)
  {
    LaterMatch(a.approvals, a.taskID, action.effectType, Paths.SlashClean(action.resource),
               EvaluationTime(a, clockA), EvaluationTime(b, clockB), clockA.parse);
  }

  ghost predicate NeverLoosens(timeA: int, timeB: int, clock: Clock) {
    forall a: Input, b: Input, action: ActionRef ::
      && SameButRevocationAndTime(a, b) && a.revoked <= b.revoked
      && a.evaluationTime == timeA && b.evaluationTime == timeB
      && EvaluateAction(b, clock, action).verdict == ALLOW
      ==> EvaluateAction(a, clock, action).verdict == ALLOW
  }

  function EffectiveTime(t: int, clock: Clock): int {
    if t != ZERO_TIME then t else clock.now
  }

  /** A zero evaluation time means the wall clock, so moving the field later tightens verdicts
      exactly when the effective instants are ordered: with a parser that can express the instant
      between them, an input evaluated at the zero time is denied where a later nonzero one is allowed. */
  lemma {:induction false} AntitoneExactly(timeA: int, timeB: int, clock: Clock, stamp: string)
    requires stamp != "" && clock.parse(stamp) == Some(EffectiveTime(timeA, clock))
    ensures NeverLoosens(timeA, timeB, clock) <==> EffectiveTime(timeA, clock) <= EffectiveTime(timeB, clock)
  {
    if EffectiveTime(timeA, clock) <= EffectiveTime(timeB, clock) {
      forall a: Input, b: Input, action: ActionRef |
        && SameButRevocationAndTime(a, b) && a.revoked <= b.revoked
        && a.evaluationTime == timeA && b.evaluationTime == timeB
        && EvaluateAction(b, clock, action).verdict == ALLOW
        ensures EvaluateAction(a, clock, action).verdict == ALLOW
      {
        PolicyIsAntitone(a, b, clock, clock, action);
      }
    } else {
      var ticket := ApprovalTicket("covenant.approval-ticket.v1", "t", "k", "network.request", "r", true, "why", stamp);
      var a := Input("strict", [], [], "k", [], [ticket], timeA, {});
      var b := a.(evaluationTime := timeB);
      var action := ActionRef("network.request", "r");
      assert SameButRevocationAndTime(a, b);
      assert EvaluateAction(b, clock, action).verdict == ALLOW;
      assert EvaluateAction(a, clock, action).verdict == DENY;
    }
  }

  // ----- resources matter only through their normal form -----

  ghost predicate SameNormalForms(xs: seq<string>, ys: seq<string>) {
    |xs| == |ys| && forall i :: 0 <= i < |xs| ==> Paths.SlashClean(xs[i]) == Paths.SlashClean(ys[i])
  }

  ghost predicate SameTickets(xs: seq<ApprovalTicket>, ys: seq<ApprovalTicket>) {
    && |xs| == |ys|
    && forall i :: 0 <= i < |xs| ==>
         && Paths.SlashClean(xs[i].resource) == Paths.SlashClean(ys[i].resource)
         && ys[i] == xs[i].(resource := ys[i].resource)
  }

  ghost predicate SameUpToSpelling(a: Input, b: Input) {
    && SameNormalForms(a.readPaths, b.readPaths)
    && SameNormalForms(a.writePaths, b.writePaths)
    && SameTickets(a.approvals, b.approvals)
    && b == a.(readPaths := b.readPaths, writePaths := b.writePaths, approvals := b.approvals, actions := b.actions)
  }

  function SameKind(a: TicketMatch, b: TicketMatch): bool {
    match a
    case Missing => b.Missing?
    case Valid(t) => b.Valid? && b.ticket == t.(resource := b.ticket.resource)
    case Expired(t) => b.Expired? && b.ticket == t.(resource := b.ticket.resource)
    case InvalidExpiration(t) => b.InvalidExpiration? && b.ticket == t.(resource := b.ticket.resource)
  }

  lemma {:induction false} MatchSeesNormalForm(
    xs: seq<ApprovalTicket>, ys: seq<ApprovalTicket>, taskID: string, effectType: string, resource: string,
    now: int, parse: string -> Option<int>)
    requires SameTickets(xs, ys)
    ensures SameKind(MatchingTicket(xs, taskID, effectType, resource, now, parse),
                     MatchingTicket(ys, taskID, effectType, resource, now, parse))
  {
    if xs != [] {
      assert ys[0] == xs[0].(resource := ys[0].resource);
      assert SameTickets(xs[1..], ys[1..]);
      MatchSeesNormalForm(xs[1..], ys[1..], taskID, effectType, resource, now, parse);
    }
  }

  lemma {:induction false} VerdictSeesNormalForm(a: Input, b: Input, clock: Clock, x: ActionRef, y: ActionRef)
    requires SameUpToSpelling(a, b)
    requires x.effectType == y.effectType && Paths.SlashClean(x.resource) == Paths.SlashClean(y.resource)
    ensures EvaluateAction(a, clock, x) == EvaluateAction(b, clock, y)
  {
    var resource := Paths.SlashClean(x.resource);
    MatchSeesNormalForm(a.approvals, b.approvals, a.taskID, x.effectType, resource, EvaluationTime(a, clock), clock.parse);
    assert ContainsNormalized(a.writePaths, resource) == ContainsNormalized(b.writePaths, resource);
    assert ContainsNormalized(a.readPaths, resource) == ContainsNormalized(b.readPaths, resource);
  }

  /** An allowed file.write resolves, under every base, to the file some declared write names. */
  lemma {:induction false} AllowedWriteIsDeclared(input: Input, clock: Clock, action: ActionRef)
    requires action.effectType == "file.write" && EvaluateAction(input, clock, action).verdict == ALLOW
    ensures exists i :: 0 <= i < |input.writePaths| && forall base ::
              && Paths.SafeJoin(base, input.writePaths[i]).Ok? == Paths.SafeJoin(base, action.resource).Ok?
              && (Paths.SafeJoin(base, action.resource).Ok? ==>
                    Paths.SafeJoin(base, input.writePaths[i]) == Paths.SafeJoin(base, action.resource))
  {
    var i :| 0 <= i < |input.writePaths| && Paths.SlashClean(input.writePaths[i]) == Paths.SlashClean(action.resource);
    forall base: string ensures
      && Paths.SafeJoin(base, input.writePaths[i]).Ok? == Paths.SafeJoin(base, action.resource).Ok?
      && (Paths.SafeJoin(base, action.resource).Ok? ==>
            Paths.SafeJoin(base, input.writePaths[i]) == Paths.SafeJoin(base, action.resource))
    {
      Paths.SafeJoinSeesNormalForm(base, input.writePaths[i], action.resource);
    }
  }
}
