/** The evidence verifier: it rebuilds the links between evidence and ledger with its own maps and counters. */
module Verifier {
  import opened Text
  import opened EventSchema
  import opened Ledger
  import opened Evidence
  import Policy
  import Closure

  /** A map filled in order, so that the last entry under a key is the one that stays. */
  function LastWins<T>(xs: seq<T>, key: T -> string): map<string, T> {
    if xs == [] then map[] else LastWins(xs[..|xs| - 1], key)[key(xs[|xs| - 1]) := xs[|xs| - 1]]
  }

  method IndexBy<T>(xs: seq<T>, key: T -> string) returns (m: map<string, T>)
    ensures m == LastWins(xs, key)
  {
    m := map[];
    for i := 0 to |xs|
      invariant m == LastWins(xs[..i], key)
    {
      m := m[key(xs[i]) := xs[i]];
      assert xs[..i + 1][..i] == xs[..i];
    }
    assert xs[..|xs|] == xs;
  }

  lemma {:induction false} LastWinsHolds<T>(xs: seq<T>, key: T -> string)
    ensures forall k :: k in LastWins(xs, key) <==> exists i :: 0 <= i < |xs| && key(xs[i]) == k
    ensures forall k :: k in LastWins(xs, key) ==> LastWins(xs, key)[k] in xs && key(LastWins(xs, key)[k]) == k
  {
    if xs != [] {
      var n := |xs| - 1;
      LastWinsHolds(xs[..n], key);
      forall k ensures k in LastWins(xs, key) <==> exists i :: 0 <= i < |xs| && key(xs[i]) == k {
        if i :| 0 <= i < |xs| && key(xs[i]) == k {
          if i < n {
            assert key(xs[..n][i]) == k;
          }
        }
      }
    }
  }

  lemma {:induction false} LastWinsAt<T>(xs: seq<T>, key: T -> string, i: nat)
    requires i < |xs|
    requires forall j :: i < j < |xs| ==> key(xs[j]) != key(xs[i])
    ensures key(xs[i]) in LastWins(xs, key) && LastWins(xs, key)[key(xs[i])] == xs[i]
  {
    var n := |xs| - 1;
    if i < n {
      LastWinsAt(xs[..n], key, i);
      assert key(xs[n]) != key(xs[i]);
    }
  }

  const EventKey: Event -> string := (e: Event) => e.body.eventID
  const ArtifactKey: ArtifactRef -> string := (a: ArtifactRef) => a.artifactID
  const DecisionKey: Policy.Decision -> string := (d: Policy.Decision) => d.decisionID

  // ----- matching decisions with ledger events -----

  const NUL: char := 0 as char

  function PolicyEventKey(taskID: string, status: string, reason: string): string {
    taskID + [NUL] + status + [NUL] + reason
  }

  function EventPolicyKey(e: Event): string {
    PolicyEventKey(e.body.taskID, e.body.status, e.body.message)
  }

  function DecisionPolicyKey(d: Policy.Decision): string {
    PolicyEventKey(d.taskID, PolicyStatus(d.verdict), d.reason)
  }

  predicate Identified(e: Event) {
    e.body.kind.PolicyDecided? && e.body.decisionID != ""
  }

  predicate Legacy(e: Event) {
    e.body.kind.PolicyDecided? && e.body.decisionID == ""
  }

  /** A policy_decided event vouches for a decision by its decision ID, or by task, status and reason when it has none. */
  predicate Vouches(e: Event, d: Policy.Decision) {
    || (Identified(e) && e.body.decisionID == d.decisionID)
    || (Legacy(e) && EventPolicyKey(e) == DecisionPolicyKey(d))
  }

  /** How many unused events are left under each decision ID and each legacy key. */
  datatype Stock = Stock(byDecisionID: multiset<string>, legacy: multiset<string>)

  function AddEvent(s: Stock, e: Event): Stock {
    if Identified(e) then s.(byDecisionID := s.byDecisionID + multiset{e.body.decisionID})
    else if Legacy(e) then s.(legacy := s.legacy + multiset{EventPolicyKey(e)})
    else s
  }

  function StockOf(events: seq<Event>): Stock {
    if events == [] then Stock(multiset{}, multiset{}) else AddEvent(StockOf(events[..|events| - 1]), events[|events| - 1])
  }

  function Take(s: Stock, d: Policy.Decision): Option<Stock> {
    if s.byDecisionID[d.decisionID] > 0 then Some(s.(byDecisionID := s.byDecisionID - multiset{d.decisionID}))
    else if s.legacy[DecisionPolicyKey(d)] > 0 then Some(s.(legacy := s.legacy - multiset{DecisionPolicyKey(d)}))
    else None
  }

  predicate TakesAll(s: Stock, decisions: seq<Policy.Decision>)
    decreases |decisions|
  {
    decisions == [] || (Take(s, decisions[0]).Some? && TakesAll(Take(s, decisions[0]).value, decisions[1..]))
  }

  /** What is left when all these decisions have been taken. */
  function Leaves(s: Stock, decisions: seq<Policy.Decision>): Stock
    requires TakesAll(s, decisions)
    decreases |decisions|
  {
    if decisions == [] then s else Leaves(Take(s, decisions[0]).value, decisions[1..])
  }

  lemma {:induction false} TakesOneMore(s: Stock, decisions: seq<Policy.Decision>, d: Policy.Decision)
    requires TakesAll(s, decisions)
    ensures TakesAll(s, decisions + [d]) <==> Take(Leaves(s, decisions), d).Some?
    ensures TakesAll(s, decisions + [d]) ==> Leaves(s, decisions + [d]) == Take(Leaves(s, decisions), d).value
    decreases |decisions|
  {
    if decisions == [] {
      assert [] + [d] == [d] && [d][1..] == [];
    } else {
      assert (decisions + [d])[1..] == decisions[1..] + [d];
      TakesOneMore(Take(s, decisions[0]).value, decisions[1..], d);
    }
  }

  lemma {:induction false} TakesPrefix(s: Stock, decisions: seq<Policy.Decision>, i: nat)
    requires i <= |decisions| && TakesAll(s, decisions)
    ensures TakesAll(s, decisions[..i])
    decreases |decisions|
  {
    if i > 0 {
      assert decisions[..i][1..] == decisions[1..][..i - 1];
      TakesPrefix(Take(s, decisions[0]).value, decisions[1..], i - 1);
    }
  }

  lemma {:induction false} TakesNone(s: Stock)
    ensures TakesAll(s, []) && Leaves(s, []) == s
  {
  }

  lemma {:induction false} TakesNext(s: Stock, decisions: seq<Policy.Decision>, i: nat)
    requires i < |decisions| && TakesAll(s, decisions[..i])
    ensures var next := Take(Leaves(s, decisions[..i]), decisions[i]);
            if next.Some? then TakesAll(s, decisions[..i + 1]) && Leaves(s, decisions[..i + 1]) == next.value
            else !TakesAll(s, decisions)
  {
    assert decisions[..i + 1] == decisions[..i] + [decisions[i]];
    TakesOneMore(s, decisions[..i], decisions[i]);
    if TakesAll(s, decisions) {
      TakesPrefix(s, decisions, i + 1);
    }
  }

  lemma {:induction false} CountUp(m: multiset<string>, x: string)
    ensures m[x := m[x] + 1] == m + multiset{x}
  {
  }

  class PolicyEventIndex {
    var byDecisionID: multiset<string>
    var legacy: multiset<string>

    ghost function Left(): Stock
      reads this
    {
      Stock(byDecisionID, legacy)
    }

    constructor (events: seq<Event>)
      ensures Left() == StockOf(events)
    {
      byDecisionID, legacy := multiset{}, multiset{};
      new;
      for i := 0 to |events|
        invariant Left() == StockOf(events[..i])
      {
        assert events[..i + 1][..i] == events[..i];
        var body := events[i].body;
        CountUp(byDecisionID, body.decisionID);
        CountUp(legacy, EventPolicyKey(events[i]));
        if !body.kind.PolicyDecided? {
          continue;
        }
        if body.decisionID != "" {
          byDecisionID := byDecisionID[body.decisionID := byDecisionID[body.decisionID] + 1];
          continue;
        }
        var key := PolicyEventKey(body.taskID, body.status, body.message);
        legacy := legacy[key := legacy[key] + 1];
      }
      assert events[..|events|] == events;
    }

    method Consume(d: Policy.Decision) returns (found: bool)
      modifies this
      ensures found == Take(old(Left()), d).Some?
      ensures Left() == if found then Take(old(Left()), d).value else old(Left())
    {
      if byDecisionID[d.decisionID] > 0 {
        byDecisionID := byDecisionID[d.decisionID := byDecisionID[d.decisionID] - 1];
        return true;
      }
      var key := PolicyEventKey(d.taskID, PolicyStatus(d.verdict), d.reason);
      if legacy[key] == 0 {
        return false;
      }
      legacy := legacy[key := legacy[key] - 1];
      found := true;
    }
  }

  // ----- provenance -----

  datatype Problem =
    | DecisionUnmatched(decisionID: string)
    | ArtifactUnproduced(artifactID: string)
    | RowArtifactForeign(obligationID: string, artifactID: string)
    | RowArtifactOmitted(obligationID: string, artifactID: string)
    | RowDecisionForeign(obligationID: string, decisionID: string)
    | RowDecisionOmitted(obligationID: string, decisionID: string)

  /** The artifact's producer is an artifact_recorded event that lists it. */
  predicate ProducerLists(events: map<string, Event>, a: ArtifactRef) {
    && a.producerEventID in events
    && events[a.producerEventID].body.kind.ArtifactRecorded?
    && a.artifactID in events[a.producerEventID].body.artifactIDs
  }

  /** One of these tasks produced the artifact. */
  predicate ProducedBy(events: map<string, Event>, taskIDs: seq<string>, a: ArtifactRef) {
    a.producerEventID in events && events[a.producerEventID].body.taskID in taskIDs
  }

  /** The lookup maps of the verifier. */
  datatype Lookup = Lookup(
    events: map<string, Event>,
    artifacts: map<string, ArtifactRef>,
    decisions: map<string, Policy.Decision>)

  function LookupOf(evidence: EvidencePack, events: seq<Event>): Lookup {
    Lookup(LastWins(events, EventKey), LastWins(evidence.artifacts, ArtifactKey), LastWins(evidence.decisions, DecisionKey))
  }

  predicate RowArtifactsAccepted(row: Closure.Row, artifacts: seq<ArtifactRef>, l: Lookup) {
    && (forall id :: id in row.artifactIDs ==> id in l.artifacts && ProducedBy(l.events, row.taskIDs, l.artifacts[id]))
    && (forall a :: a in artifacts && ProducedBy(l.events, row.taskIDs, a) ==> a.artifactID in row.artifactIDs)
  }

  predicate RowDecisionsAccepted(row: Closure.Row, decisions: seq<Policy.Decision>, l: Lookup) {
    && (forall id :: id in row.decisionIDs ==> id in l.decisions && l.decisions[id].taskID in row.taskIDs)
    && (forall d :: d in decisions && d.taskID in row.taskIDs ==> d.decisionID in row.decisionIDs)
  }

  predicate RowAccepted(row: Closure.Row, evidence: EvidencePack, l: Lookup) {
    RowArtifactsAccepted(row, evidence.artifacts, l) && RowDecisionsAccepted(row, evidence.decisions, l)
  }

  predicate ProvenanceAccepted(evidence: EvidencePack, events: seq<Event>) {
    var l := LookupOf(evidence, events);
    && TakesAll(StockOf(events), evidence.decisions)
    && (forall a :: a in evidence.artifacts ==> ProducerLists(l.events, a))
    && (forall row :: row in evidence.matrix.rows ==> RowAccepted(row, evidence, l))
  }

  /** The decision at position i is the first that finds no event left for it. */
  ghost predicate FirstUnmatched(decisions: seq<Policy.Decision>, events: seq<Event>, i: nat) {
    && i < |decisions| && TakesAll(StockOf(events), decisions[..i])
    && Take(Leaves(StockOf(events), decisions[..i]), decisions[i]).None?
  }

  /** The problem is one that evidence and events have. */
  ghost predicate Real(problem: Problem, evidence: EvidencePack, events: seq<Event>) {
    var l := LookupOf(evidence, events);
    match problem
    case DecisionUnmatched(id) =>
      exists i: nat :: FirstUnmatched(evidence.decisions, events, i) && evidence.decisions[i].decisionID == id
    case ArtifactUnproduced(id) => exists a :: a in evidence.artifacts && a.artifactID == id && !ProducerLists(l.events, a)
    case _ => exists row :: row in evidence.matrix.rows && RealOfRow(problem, row, evidence, l)
  }

  ghost predicate RealOfRow(problem: Problem, row: Closure.Row, evidence: EvidencePack, l: Lookup) {
    RealOfArtifacts(problem, row, evidence.artifacts, l) || RealOfDecisions(problem, row, evidence.decisions, l)
  }

  ghost predicate RealOfArtifacts(problem: Problem, row: Closure.Row, artifacts: seq<ArtifactRef>, l: Lookup) {
    match problem
    case RowArtifactForeign(obligation, id) =>
      && row.obligationID == obligation && id in row.artifactIDs
      && !(id in l.artifacts && ProducedBy(l.events, row.taskIDs, l.artifacts[id]))
    case RowArtifactOmitted(obligation, id) =>
      && row.obligationID == obligation && id !in row.artifactIDs
      && exists a :: a in artifacts && a.artifactID == id && ProducedBy(l.events, row.taskIDs, a)
    case _ => false
  }

  ghost predicate RealOfDecisions(problem: Problem, row: Closure.Row, decisions: seq<Policy.Decision>, l: Lookup) {
    match problem
    case RowDecisionForeign(obligation, id) =>
      && row.obligationID == obligation && id in row.decisionIDs
      && !(id in l.decisions && l.decisions[id].taskID in row.taskIDs)
    case RowDecisionOmitted(obligation, id) =>
      && row.obligationID == obligation && id !in row.decisionIDs
      && exists d :: d in decisions && d.decisionID == id && d.taskID in row.taskIDs
    case _ => false
  }

  method CheckDecisions(decisions: seq<Policy.Decision>, events: seq<Event>) returns (problem: Option<Problem>)
    ensures problem.None? <==> TakesAll(StockOf(events), decisions)
    ensures problem.Some? ==> exists i: nat :: FirstUnmatched(decisions, events, i)
                                && problem.value == DecisionUnmatched(decisions[i].decisionID)
  {
    hide TakesAll, Leaves, Take, StockOf;
    var index := new PolicyEventIndex(events);
    TakesNone(index.Left());
    ghost var stock := index.Left();
    for i := 0 to |decisions|
      invariant TakesAll(stock, decisions[..i]) && index.Left() == Leaves(stock, decisions[..i])
    {
      TakesNext(stock, decisions, i);
      var found := index.Consume(decisions[i]);
      if !found {
        assert FirstUnmatched(decisions, events, i);
        return Some(DecisionUnmatched(decisions[i].decisionID));
      }
    }
    assert decisions[..|decisions|] == decisions;
    problem := None;
  }

  method CheckArtifacts(artifacts: seq<ArtifactRef>, events: map<string, Event>) returns (problem: Option<Problem>)
    ensures problem.None? <==> forall a :: a in artifacts ==> ProducerLists(events, a)
    ensures problem.Some? ==> exists a :: a in artifacts && !ProducerLists(events, a)
                                && problem.value == ArtifactUnproduced(a.artifactID)
  {
    for i := 0 to |artifacts|
      invariant forall k :: 0 <= k < i ==> ProducerLists(events, artifacts[k])
    {
      var a := artifacts[i];
      assert a in artifacts;
      if a.producerEventID !in events {
        return Some(ArtifactUnproduced(a.artifactID));
      }
      var body := events[a.producerEventID].body;
      if !body.kind.ArtifactRecorded? {
        return Some(ArtifactUnproduced(a.artifactID));
      }
      if a.artifactID !in body.artifactIDs {
        return Some(ArtifactUnproduced(a.artifactID));
      }
    }
    problem := None;
  }

  method CheckRowArtifacts(row: Closure.Row, artifacts: seq<ArtifactRef>, l: Lookup) returns (problem: Option<Problem>)
    ensures problem.None? <==> RowArtifactsAccepted(row, artifacts, l)
    ensures problem.Some? ==> RealOfArtifacts(problem.value, row, artifacts, l)
  {
    for i := 0 to |row.artifactIDs|
      invariant forall k :: 0 <= k < i ==>
                  && row.artifactIDs[k] in l.artifacts
                  && ProducedBy(l.events, row.taskIDs, l.artifacts[row.artifactIDs[k]])
    {
      var id := row.artifactIDs[i];
      if id !in l.artifacts {
        return Some(RowArtifactForeign(row.obligationID, id));
      }
      var a := l.artifacts[id];
      if a.producerEventID !in l.events {
        return Some(RowArtifactForeign(row.obligationID, id));
      }
      if l.events[a.producerEventID].body.taskID !in row.taskIDs {
        return Some(RowArtifactForeign(row.obligationID, id));
      }
    }
    for i := 0 to |artifacts|
      invariant forall k :: 0 <= k < i && ProducedBy(l.events, row.taskIDs, artifacts[k]) ==>
                  artifacts[k].artifactID in row.artifactIDs
    {
      var a := artifacts[i];
      if a.producerEventID !in l.events {
        continue;
      }
      if l.events[a.producerEventID].body.taskID in row.taskIDs && a.artifactID !in row.artifactIDs {
        return Some(RowArtifactOmitted(row.obligationID, a.artifactID));
      }
    }
    problem := None;
  }

  method CheckRowDecisions(row: Closure.Row, decisions: seq<Policy.Decision>, l: Lookup) returns (problem: Option<Problem>)
    ensures problem.None? <==> RowDecisionsAccepted(row, decisions, l)
    ensures problem.Some? ==> RealOfDecisions(problem.value, row, decisions, l)
  {
    for i := 0 to |row.decisionIDs|
      invariant forall k :: 0 <= k < i ==>
                  row.decisionIDs[k] in l.decisions && l.decisions[row.decisionIDs[k]].taskID in row.taskIDs
    {
      var id := row.decisionIDs[i];
      if id !in l.decisions {
        return Some(RowDecisionForeign(row.obligationID, id));
      }
      if l.decisions[id].taskID !in row.taskIDs {
        return Some(RowDecisionForeign(row.obligationID, id));
      }
    }
    for i := 0 to |decisions|
      invariant forall k :: 0 <= k < i && decisions[k].taskID in row.taskIDs ==> decisions[k].decisionID in row.decisionIDs
    {
      if decisions[i].taskID in row.taskIDs && decisions[i].decisionID !in row.decisionIDs {
        return Some(RowDecisionOmitted(row.obligationID, decisions[i].decisionID));
      }
    }
    problem := None;
  }

  method CheckRows(evidence: EvidencePack, l: Lookup) returns (problem: Option<Problem>)
    ensures problem.None? <==> forall row :: row in evidence.matrix.rows ==> RowAccepted(row, evidence, l)
    ensures problem.Some? ==> exists row :: row in evidence.matrix.rows && RealOfRow(problem.value, row, evidence, l)
  {
    var rows := evidence.matrix.rows;
    for i := 0 to |rows|
      invariant forall k :: 0 <= k < i ==> RowAccepted(rows[k], evidence, l)
    {
      assert rows[i] in rows;
      problem := CheckRowArtifacts(rows[i], evidence.artifacts, l);
      if problem.Some? {
        return;
      }
      problem := CheckRowDecisions(rows[i], evidence.decisions, l);
      if problem.Some? {
        return;
      }
    }
    problem := None;
  }

  method VerifyEvidenceProvenance(evidence: EvidencePack, events: seq<Event>) returns (problem: Option<Problem>)
    ensures problem.None? <==> ProvenanceAccepted(evidence, events)
    ensures problem.Some? ==> Real(problem.value, evidence, events)
  {
    var eventByID := IndexBy(events, EventKey);
    var artifactByID := IndexBy(evidence.artifacts, ArtifactKey);
    var policyByID := IndexBy(evidence.decisions, DecisionKey);
    problem := CheckDecisions(evidence.decisions, events);
    if problem.Some? {
      return;
    }
    problem := CheckArtifacts(evidence.artifacts, eventByID);
    if problem.Some? {
      return;
    }
    problem := CheckRows(evidence, Lookup(eventByID, artifactByID, policyByID));
  }

  // ----- revoked tickets and failures -----

  predicate NoRevokedTicket(decisions: seq<Policy.Decision>, revoked: set<string>) {
    forall d :: d in decisions && d.ticketID != "" ==> d.ticketID !in revoked
  }

  method VerifyRevokedApprovalTickets(decisions: seq<Policy.Decision>, revoked: set<string>)
    returns (problem: Option<Policy.Decision>)
    ensures problem.None? <==> NoRevokedTicket(decisions, revoked)
    ensures problem.Some? ==>
              problem.value in decisions && problem.value.ticketID != "" && problem.value.ticketID in revoked
  {
    if |revoked| == 0 {
      return None;
    }
    for i := 0 to |decisions|
      invariant forall k :: 0 <= k < i && decisions[k].ticketID != "" ==> decisions[k].ticketID !in revoked
    {
      if decisions[i].ticketID != "" && decisions[i].ticketID in revoked {
        return Some(decisions[i]);
      }
    }
    problem := None;
  }

  datatype FailureSummary = FailureSummary(record: FailureRecord, eventLine: nat)

  /** The number of the last line that holds an event with this ID; lines count from 1. */
  function LineOf(events: seq<Event>, id: string): Option<nat> {
    if events == [] then None
    else if events[|events| - 1].body.eventID == id then Some(|events|)
    else LineOf(events[..|events| - 1], id)
  }

  function LineMap(events: seq<Event>): map<string, nat> {
    if events == [] then map[]
    else LineMap(events[..|events| - 1])[events[|events| - 1].body.eventID := |events|]
  }

  lemma {:induction false} LineMapHolds(events: seq<Event>, id: string)
    ensures LineOf(events, id) == if id in LineMap(events) then Some(LineMap(events)[id]) else None
  {
    if events != [] {
      LineMapHolds(events[..|events| - 1], id);
    }
  }

  method EventLines(events: seq<Event>) returns (lines: map<string, nat>)
    ensures lines == LineMap(events)
  {
    lines := map[];
    for i := 0 to |events|
      invariant lines == LineMap(events[..i])
    {
      assert events[..i + 1][..i] == events[..i];
      lines := lines[events[i].body.eventID := i + 1];
    }
    assert events[..|events|] == events;
  }

  predicate FailuresLocated(failures: seq<FailureRecord>, events: seq<Event>) {
    forall f :: f in failures ==> LineOf(events, f.eventID).Some?
  }

  method SummarizeFailures(failures: seq<FailureRecord>, events: seq<Event>)
    returns (r: Result<seq<FailureSummary>, FailureRecord>)
    ensures r.Ok? <==> FailuresLocated(failures, events)
    ensures r.Err? ==> r.error in failures && LineOf(events, r.error.eventID).None?
    ensures r.Ok? ==> |r.value| == |failures| && forall i :: 0 <= i < |failures| ==>
              r.value[i].record == failures[i] && LineOf(events, failures[i].eventID) == Some(r.value[i].eventLine)
  {
    var lines := EventLines(events);
    var summaries: seq<FailureSummary> := [];
    for i := 0 to |failures|
      invariant |summaries| == i
      invariant forall k :: 0 <= k < i ==>
                  summaries[k].record == failures[k] && LineOf(events, failures[k].eventID) == Some(summaries[k].eventLine)
    {
      LineMapHolds(events, failures[i].eventID);
      if failures[i].eventID !in lines {
        return Err(failures[i]);
      }
      summaries := summaries + [FailureSummary(failures[i], lines[failures[i].eventID])];
    }
    r := Ok(summaries);
  }

  // ----- the whole check -----

  datatype Rejection =
    | BadLine(line: Event)
    | EmptyLedger
    | BadChain(chain: ChainProblem)
    | LedgerDigestMismatch
    | RunIDMismatch
    | BadProvenance(provenance: Problem)
    | RevokedTicket(decision: Policy.Decision)
    | FailureWithoutEvent(failure: FailureRecord)

  ghost predicate Accepted(
    events: seq<Event>, evidence: EvidencePack, hash: Hash, digest: seq<Event> -> string, revoked: set<string>)
  {
    && LinesValid(events) && events != [] && ChainAccepted(events, hash)
    && evidence.ledgerDigest == digest(events)
    && evidence.runID == events[0].body.runID
    && ProvenanceAccepted(evidence, events)
    && NoRevokedTicket(evidence.decisions, revoked)
    && FailuresLocated(evidence.failures, events)
  }

  /** A rejection names the first part of the check that fails, and what fails there. */
  ghost predicate RejectedBy(
    rejection: Rejection, lines: seq<Event>, evidence: EvidencePack, hash: Hash, digest: seq<Event> -> string,
    revoked: set<string>)
  {
    match rejection
    case BadLine(line) => exists i :: 0 <= i < |lines| && lines[i] == line && FirstInvalid(lines, i)
    case EmptyLedger => lines == []
    case BadChain(chain) => LinesValid(lines) && lines != [] && FirstBreak(chain, lines, hash)
    case LedgerDigestMismatch => Chained(lines, hash) && evidence.ledgerDigest != digest(lines)
    case RunIDMismatch => Chained(lines, hash) && evidence.ledgerDigest == digest(lines) && evidence.runID != lines[0].body.runID
    case BadProvenance(provenance) => Belongs(lines, evidence, hash, digest) && Real(provenance, evidence, lines)
    case RevokedTicket(decision) =>
      && Belongs(lines, evidence, hash, digest) && ProvenanceAccepted(evidence, lines)
      && decision in evidence.decisions && decision.ticketID != "" && decision.ticketID in revoked
    case FailureWithoutEvent(failure) =>
      && Belongs(lines, evidence, hash, digest) && ProvenanceAccepted(evidence, lines)
      && NoRevokedTicket(evidence.decisions, revoked)
      && failure in evidence.failures && LineOf(lines, failure.eventID).None?
  }

  /** The ledger can be read and its chain holds. */
  ghost predicate Chained(lines: seq<Event>, hash: Hash) {
    LinesValid(lines) && lines != [] && ChainAccepted(lines, hash)
  }

  /** And the evidence is of this ledger. */
  ghost predicate Belongs(lines: seq<Event>, evidence: EvidencePack, hash: Hash, digest: seq<Event> -> string) {
    Chained(lines, hash) && evidence.ledgerDigest == digest(lines) && evidence.runID == lines[0].body.runID
  }

  method Verify(
    lines: seq<Event>, evidence: EvidencePack, hash: Hash, digest: seq<Event> -> string, revoked: set<string>)
    returns (r: Result<seq<FailureSummary>, Rejection>)
    ensures r.Ok? <==> Accepted(lines, evidence, hash, digest, revoked)
    ensures r.Err? ==> RejectedBy(r.error, lines, evidence, hash, digest, revoked)
    ensures r.Ok? ==> |r.value| == |evidence.failures| && forall i :: 0 <= i < |r.value| ==>
              && r.value[i].record == evidence.failures[i]
              && LineOf(lines, evidence.failures[i].eventID) == Some(r.value[i].eventLine)
  {
    var ledger := ReadLedger(lines);
    if ledger.Err? {
      return Err(BadLine(ledger.error));
    }
    var events := ledger.value;
    if |events| == 0 {
      return Err(EmptyLedger);
    }
    var broken := VerifyChain(events, hash);
    if broken.Some? {
      return Err(BadChain(broken.value));
    }
    if evidence.ledgerDigest != digest(events) {
      return Err(LedgerDigestMismatch);
    }
    if evidence.runID != events[0].body.runID {
      return Err(RunIDMismatch);
    }
    var problem := VerifyEvidenceProvenance(evidence, events);
    if problem.Some? {
      return Err(BadProvenance(problem.value));
    }
    var revokedUse := VerifyRevokedApprovalTickets(evidence.decisions, revoked);
    if revokedUse.Some? {
      return Err(RevokedTicket(revokedUse.value));
    }
    var summaries := SummarizeFailures(evidence.failures, events);
    match summaries {
      case Err(failure) => r := Err(FailureWithoutEvent(failure));
      case Ok(list) => r := Ok(list);
    }
  }
}
