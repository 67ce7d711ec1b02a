/** What an accepted provenance check means, and how far its greedy matching of decisions goes. */
module Provenance {
  import opened EventSchema
  import opened Ledger
  import opened Evidence
  import opened Verifier
  import Policy
  import Closure

  // ----- decisions and events -----

  /** Decision i is vouched for by event f[i], and no event vouches for two decisions. */
  ghost predicate Assignment(events: seq<Event>, decisions: seq<Policy.Decision>, f: seq<nat>) {
    && |f| == |decisions|
    && (forall i :: 0 <= i < |f| ==> f[i] < |events| && Vouches(events[f[i]], decisions[i]))
    && (forall i, j :: 0 <= i < j < |f| ==> f[i] != f[j])
  }

  ghost predicate Uses(f: seq<nat>, unused: set<nat>) {
    forall i :: 0 <= i < |f| ==> f[i] in unused
  }

  predicate HasID(e: Event, id: string) {
    Identified(e) && e.body.decisionID == id
  }

  predicate HasKey(e: Event, key: string) {
    Legacy(e) && EventPolicyKey(e) == key
  }

  function WithID(events: seq<Event>, unused: set<nat>, id: string): set<nat> {
    set i | i in unused && i < |events| && HasID(events[i], id)
  }

  function WithKey(events: seq<Event>, unused: set<nat>, key: string): set<nat> {
    set i | i in unused && i < |events| && HasKey(events[i], key)
  }

  /** The counters hold, under each ID and key, the number of unused events. */
  ghost predicate Stocked(s: Stock, events: seq<Event>, unused: set<nat>) {
    && (forall id :: s.byDecisionID[id] == |WithID(events, unused, id)|)
    && (forall key :: s.legacy[key] == |WithKey(events, unused, key)|)
  }

  function UpTo(n: nat): (s: set<nat>)
    ensures forall i: nat :: i in s <==> i < n
  {
    if n == 0 then {} else UpTo(n - 1) + {n - 1}
  }

  lemma {:induction false} StockedAtFirst(events: seq<Event>)
    ensures Stocked(StockOf(events), events, UpTo(|events|))
  {
    if events != [] {
      var n := |events| - 1;
      var front, e := events[..n], events[n];
      StockedAtFirst(front);
      forall id ensures StockOf(events).byDecisionID[id] == |WithID(events, UpTo(n + 1), id)| {
        LastWithID(events, id);
      }
      forall key ensures StockOf(events).legacy[key] == |WithKey(events, UpTo(n + 1), key)| {
        LastWithKey(events, key);
      }
    }
  }

  lemma {:induction false} LastWithID(events: seq<Event>, id: string)
    requires events != []
    ensures var n := |events| - 1;
            |WithID(events, UpTo(n + 1), id)|
            == |WithID(events[..n], UpTo(n), id)| + if HasID(events[n], id) then 1 else 0
  {
    var n := |events| - 1;
    var before := WithID(events[..n], UpTo(n), id);
    assert n !in before;
    if HasID(events[n], id) {
      assert WithID(events, UpTo(n + 1), id) == before + {n};
    } else {
      assert WithID(events, UpTo(n + 1), id) == before;
    }
  }

  lemma {:induction false} LastWithKey(events: seq<Event>, key: string)
    requires events != []
    ensures var n := |events| - 1;
            |WithKey(events, UpTo(n + 1), key)|
            == |WithKey(events[..n], UpTo(n), key)| + if HasKey(events[n], key) then 1 else 0
  {
    var n := |events| - 1;
    var before := WithKey(events[..n], UpTo(n), key);
    assert n !in before;
    if HasKey(events[n], key) {
      assert WithKey(events, UpTo(n + 1), key) == before + {n};
    } else {
      assert WithKey(events, UpTo(n + 1), key) == before;
    }
  }

  lemma {:induction false} WithIDLess(events: seq<Event>, unused: set<nat>, p: nat, id: string)
    requires p in unused && p < |events|
    ensures |WithID(events, unused - {p}, id)| == |WithID(events, unused, id)| - if HasID(events[p], id) then 1 else 0
  {
    var before, after := WithID(events, unused, id), WithID(events, unused - {p}, id);
    if HasID(events[p], id) {
      assert p in before && after == before - {p};
    } else {
      assert after == before;
    }
  }

  lemma {:induction false} WithKeyLess(events: seq<Event>, unused: set<nat>, p: nat, key: string)
    requires p in unused && p < |events|
    ensures |WithKey(events, unused - {p}, key)| == |WithKey(events, unused, key)| - if HasKey(events[p], key) then 1 else 0
  {
    var before, after := WithKey(events, unused, key), WithKey(events, unused - {p}, key);
    if HasKey(events[p], key) {
      assert p in before && after == before - {p};
    } else {
      assert after == before;
    }
  }

  function UseEvent(s: Stock, e: Event): Stock {
    if Identified(e) then s.(byDecisionID := s.byDecisionID - multiset{e.body.decisionID})
    else if Legacy(e) then s.(legacy := s.legacy - multiset{EventPolicyKey(e)})
    else s
  }

  lemma {:induction false} StockedLess(s: Stock, events: seq<Event>, unused: set<nat>, p: nat)
    requires Stocked(s, events, unused) && p in unused && p < |events|
    ensures Stocked(UseEvent(s, events[p]), events, unused - {p})
  {
    forall id ensures UseEvent(s, events[p]).byDecisionID[id] == |WithID(events, unused - {p}, id)| {
      WithIDLess(events, unused, p, id);
    }
    forall key ensures UseEvent(s, events[p]).legacy[key] == |WithKey(events, unused - {p}, key)| {
      WithKeyLess(events, unused, p, key);
    }
  }

  lemma {:induction false} NonEmpty(s: set<nat>) returns (p: nat)
    requires |s| > 0
    ensures p in s
  {
    assert s != {};
    p :| p in s;
  }

  /** A counter that lets a decision through stands for an unused event that vouches for it. */
  lemma {:induction false} TakeFindsEvent(s: Stock, events: seq<Event>, unused: set<nat>, d: Policy.Decision) returns (p: nat)
    requires Stocked(s, events, unused) && Take(s, d).Some?
    ensures p in unused && p < |events| && Vouches(events[p], d)
    ensures s.byDecisionID[d.decisionID] > 0 ==> HasID(events[p], d.decisionID)
    ensures Stocked(Take(s, d).value, events, unused - {p})
  {
    if s.byDecisionID[d.decisionID] > 0 {
      p := NonEmpty(WithID(events, unused, d.decisionID));
      StockedLess(s, events, unused, p);
    } else {
      p := NonEmpty(WithKey(events, unused, DecisionPolicyKey(d)));
      StockedLess(s, events, unused, p);
    }
  }

  lemma {:induction false} Prepend(
    events: seq<Event>, unused: set<nat>, decisions: seq<Policy.Decision>, p: nat, rest: seq<nat>)
    returns (f: seq<nat>)
    requires decisions != [] && p in unused && p < |events| && Vouches(events[p], decisions[0])
    requires Assignment(events, decisions[1..], rest) && Uses(rest, unused - {p})
    ensures Assignment(events, decisions, f) && Uses(f, unused)
  {
    f := [p] + rest;
    assert forall i :: 0 <= i < |rest| ==> f[i + 1] == rest[i] && Vouches(events[rest[i]], decisions[1..][i]);
  }

  lemma {:induction false} GreedyAssigns(s: Stock, events: seq<Event>, unused: set<nat>, decisions: seq<Policy.Decision>)
    returns (f: seq<nat>)
    requires Stocked(s, events, unused) && TakesAll(s, decisions)
    ensures Assignment(events, decisions, f) && Uses(f, unused)
    decreases |decisions|
  {
    f := [];
    if decisions != [] {
      var p := TakeFindsEvent(s, events, unused, decisions[0]);
      var rest := GreedyAssigns(Take(s, decisions[0]).value, events, unused - {p}, decisions[1..]);
      f := Prepend(events, unused, decisions, p, rest);
    }
  }

  /** Greedy matching is sound on every ledger. */
  lemma {:induction false} GreedySound(events: seq<Event>, decisions: seq<Policy.Decision>) returns (f: seq<nat>)
    requires TakesAll(StockOf(events), decisions)
    ensures Assignment(events, decisions, f)
  {
    StockedAtFirst(events);
    f := GreedyAssigns(StockOf(events), events, UpTo(|events|), decisions);
  }

  predicate SharesID(a: Policy.Decision, b: Policy.Decision) {
    a.decisionID == b.decisionID && a.decisionID != ""
  }

  /** Decisions that share an ID also share task, status and reason. */
  ghost predicate SameIDSameKey(decisions: seq<Policy.Decision>) {
    forall i, j :: 0 <= i < j < |decisions| && SharesID(decisions[i], decisions[j]) ==>
      DecisionPolicyKey(decisions[i]) == DecisionPolicyKey(decisions[j])
  }

  lemma {:induction false} CountsMember(s: set<nat>, p: nat)
    requires p in s
    ensures |s| > 0
  {
  }

  lemma {:induction false} TakeSucceeds(s: Stock, events: seq<Event>, unused: set<nat>, d: Policy.Decision, p: nat)
    requires Stocked(s, events, unused) && p in unused && p < |events| && Vouches(events[p], d)
    ensures Take(s, d).Some?
    ensures Identified(events[p]) || s.byDecisionID[d.decisionID] == 0 ==> Take(s, d).value == UseEvent(s, events[p])
  {
    if Identified(events[p]) {
      CountsMember(WithID(events, unused, d.decisionID), p);
    } else {
      CountsMember(WithKey(events, unused, DecisionPolicyKey(d)), p);
    }
  }

  /** Hands f[0]'s event to whichever later decision loses its own to the greedy choice p. */
  lemma {:induction false} Exchange(events: seq<Event>, unused: set<nat>, decisions: seq<Policy.Decision>, f: seq<nat>, p: nat)
    returns (g: seq<nat>)
    requires decisions != [] && Assignment(events, decisions, f) && Uses(f, unused) && SameIDSameKey(decisions)
    requires p in unused && p < |events| && HasID(events[p], decisions[0].decisionID) && Legacy(events[f[0]])
    ensures Assignment(events, decisions[1..], g) && Uses(g, unused - {p})
  {
    g := f[1..];
    if k :| 0 <= k < |g| && g[k] == p {
      assert decisions[k + 1].decisionID == decisions[0].decisionID;
      assert DecisionPolicyKey(decisions[0]) == DecisionPolicyKey(decisions[k + 1]);
      g := g[k := f[0]];
      assert forall i :: 0 <= i < |g| && i != k ==> g[i] == f[i + 1];
    }
  }

  lemma {:induction false} RestAssigned(events: seq<Event>, unused: set<nat>, decisions: seq<Policy.Decision>, f: seq<nat>)
    requires decisions != [] && Assignment(events, decisions, f) && Uses(f, unused)
    ensures Assignment(events, decisions[1..], f[1..]) && Uses(f[1..], unused - {f[0]})
  {
    var rest, g := decisions[1..], f[1..];
    assert forall i :: 0 <= i < |g| ==> g[i] == f[i + 1] && rest[i] == decisions[i + 1];
  }

  lemma {:induction false} RestSameKey(decisions: seq<Policy.Decision>)
    requires decisions != [] && SameIDSameKey(decisions)
    ensures SameIDSameKey(decisions[1..])
  {
    var rest := decisions[1..];
    assert forall i :: 0 <= i < |rest| ==> rest[i] == decisions[i + 1];
  }

  /** No event is matched by task, status and reason: every policy_decided event has its decision ID. */
  predicate NoLegacy(events: seq<Event>) {
    forall e :: e in events ==> !Legacy(e)
  }

  /** A greedy choice can be undone: there is nothing to choose between, or the choices are interchangeable. */
  ghost predicate Forgiving(events: seq<Event>, decisions: seq<Policy.Decision>) {
    NoLegacy(events) || SameIDSameKey(decisions)
  }

  lemma {:induction false} GreedyFinds(
    s: Stock, events: seq<Event>, unused: set<nat>, decisions: seq<Policy.Decision>, f: seq<nat>)
    requires Stocked(s, events, unused) && Assignment(events, decisions, f) && Uses(f, unused)
    requires Forgiving(events, decisions)
    ensures TakesAll(s, decisions)
    decreases |decisions|
  {
    if decisions != [] {
      var d := decisions[0];
      TakeSucceeds(s, events, unused, d, f[0]);
      if SameIDSameKey(decisions) {
        RestSameKey(decisions);
      }
      var next := Take(s, d).value;
      assert events[f[0]] in events;
      if Legacy(events[f[0]]) && s.byDecisionID[d.decisionID] > 0 {
        var p := TakeFindsEvent(s, events, unused, d);
        var g := Exchange(events, unused, decisions, f, p);
        GreedyFinds(next, events, unused - {p}, decisions[1..], g);
      } else {
        StockedLess(s, events, unused, f[0]);
        RestAssigned(events, unused, decisions, f);
        GreedyFinds(next, events, unused - {f[0]}, decisions[1..], f[1..]);
      }
    }
  }

  ghost predicate Assignable(events: seq<Event>, decisions: seq<Policy.Decision>) {
    exists f :: Assignment(events, decisions, f)
  }

  /** Where every policy_decided event has its decision ID, greedy matching is exact. */
  lemma {:induction false} GreedyExact(events: seq<Event>, decisions: seq<Policy.Decision>)
    requires NoLegacy(events)
    ensures TakesAll(StockOf(events), decisions) <==> Assignable(events, decisions)
  {
    if TakesAll(StockOf(events), decisions) {
      var _ := GreedySound(events, decisions);
    }
    if Assignable(events, decisions) {
      var f :| Assignment(events, decisions, f);
      StockedAtFirst(events);
      GreedyFinds(StockOf(events), events, UpTo(|events|), decisions, f);
    }
  }

  /** On every ledger whose lines the schema lets through, the check of the decisions misses no assignment. */
  lemma {:induction false} LedgerMatchingExact(events: seq<Event>, decisions: seq<Policy.Decision>)
    requires LinesValid(events)
    ensures NoLegacy(events)
    ensures TakesAll(StockOf(events), decisions) <==> Assignable(events, decisions)
  {
    forall e | e in events ensures !Legacy(e) {
      assert ValidLine(e);
    }
    GreedyExact(events, decisions);
  }

  // ----- event lists that no schema has seen -----

  /** On every chained event list the greedy check finds an assignment whenever there is one. */
  ghost predicate GreedyComplete(decisions: seq<Policy.Decision>, hash: Hash) {
    forall events :: events != [] && ChainAccepted(events, hash) && Assignable(events, decisions) ==>
      TakesAll(StockOf(events), decisions)
  }

  function Keys(decisions: seq<Policy.Decision>): (keys: seq<string>)
    ensures |keys| == |decisions|
    ensures forall i :: 0 <= i < |decisions| ==> keys[i] == DecisionPolicyKey(decisions[i])
  {
    seq(|decisions|, i requires 0 <= i < |decisions| => DecisionPolicyKey(decisions[i]))
  }

  function Demand(decisions: seq<Policy.Decision>, key: string): nat {
    multiset(Keys(decisions))[key]
  }

  lemma {:induction false} DemandHead(decisions: seq<Policy.Decision>, key: string)
    requires decisions != []
    ensures Demand(decisions, key) == Demand(decisions[1..], key) + if DecisionPolicyKey(decisions[0]) == key then 1 else 0
  {
    assert Keys(decisions) == [Keys(decisions)[0]] + Keys(decisions[1..]);
  }

  lemma {:induction false} DemandLast(decisions: seq<Policy.Decision>, n: nat, key: string)
    requires n < |decisions|
    ensures Demand(decisions[..n + 1], key)
         == Demand(decisions[..n], key) + if DecisionPolicyKey(decisions[n]) == key then 1 else 0
  {
    assert Keys(decisions[..n + 1]) == Keys(decisions[..n]) + [Keys(decisions[..n + 1])[n]];
  }

  lemma {:induction false} LegacyLimits(legacy: multiset<string>, decisions: seq<Policy.Decision>, key: string)
    requires TakesAll(Stock(multiset{}, legacy), decisions)
    ensures Demand(decisions, key) <= legacy[key]
    decreases |decisions|
  {
    if decisions != [] {
      LegacyLimits(legacy - multiset{DecisionPolicyKey(decisions[0])}, decisions[1..], key);
      DemandHead(decisions, key);
    }
  }

  predicate FirstWithID(decisions: seq<Policy.Decision>, first: nat, id: string) {
    && first < |decisions| && decisions[first].decisionID == id
    && forall k :: 0 <= k < first ==> decisions[k].decisionID != id
  }

  /** While one event is identified, a decision takes it or a legacy event. */
  lemma {:induction false} TakesRest(legacy: multiset<string>, id: string, decisions: seq<Policy.Decision>)
    requires decisions != [] && TakesAll(Stock(multiset{id}, legacy), decisions)
    ensures var d, rest := decisions[0], decisions[1..];
            if d.decisionID == id then TakesAll(Stock(multiset{}, legacy), rest)
            else legacy[DecisionPolicyKey(d)] > 0
                 && TakesAll(Stock(multiset{id}, legacy - multiset{DecisionPolicyKey(d)}), rest)
  {
    assert multiset{id} - multiset{id} == multiset{};
  }

  lemma {:induction false} FirstOfRest(decisions: seq<Policy.Decision>, first: nat, id: string)
    requires FirstWithID(decisions, first, id) && first > 0
    ensures FirstWithID(decisions[1..], first - 1, id) && decisions[0].decisionID != id
  {
    var rest := decisions[1..];
    assert forall k :: 0 <= k < first - 1 ==> rest[k] == decisions[k + 1];
  }

  /** The one identified event goes to the first decision with its ID; every other decision needs a legacy event. */
  lemma {:induction false} FirstTakesIt(
    legacy: multiset<string>, id: string, decisions: seq<Policy.Decision>, first: nat, key: string)
    requires TakesAll(Stock(multiset{id}, legacy), decisions)
    requires FirstWithID(decisions, first, id) && DecisionPolicyKey(decisions[first]) != key
    ensures Demand(decisions, key) <= legacy[key]
    decreases |decisions|
  {
    DemandHead(decisions, key);
    TakesRest(legacy, id, decisions);
    if first == 0 {
      LegacyLimits(legacy, decisions[1..], key);
    } else {
      FirstOfRest(decisions, first, id);
      FirstTakesIt(legacy - multiset{DecisionPolicyKey(decisions[0])}, id, decisions[1..], first - 1, key);
    }
  }

  function LegacyDraft(d: Policy.Decision): Draft {
    Draft(PolicyDecided, d.taskID, PolicyStatus(d.verdict), d.reason, [], "", "", "", "", "")
  }

  function IdentifiedDraft(id: string): Draft {
    Draft(PolicyDecided, "", "", "", [], id, "", "", "", "")
  }

  function ScarceDrafts(decisions: seq<Policy.Decision>, j: nat): (drafts: seq<Draft>)
    requires j < |decisions|
    ensures |drafts| == |decisions|
  {
    seq(|decisions|, k requires 0 <= k < |decisions| =>
      if k == j then IdentifiedDraft(decisions[j].decisionID) else LegacyDraft(decisions[k]))
  }

  /** One chained event for each decision: decision j's carries its ID, the others are legacy events. */
  function ScarceLedger(decisions: seq<Policy.Decision>, j: nat, hash: Hash): (events: seq<Event>)
    requires j < |decisions|
    ensures |events| == |decisions|
  {
    Chain("", hash, ScarceDrafts(decisions, j))
  }

  lemma {:induction false} ScarceEvent(decisions: seq<Policy.Decision>, j: nat, hash: Hash, k: nat)
    requires j < |decisions| && k < |decisions| && decisions[j].decisionID != ""
    ensures var e := ScarceLedger(decisions, j, hash)[k];
            if k == j then HasID(e, decisions[j].decisionID) else HasKey(e, DecisionPolicyKey(decisions[k]))
  {
    ChainAt("", hash, ScarceDrafts(decisions, j), k);
  }

  /** The counters of the first n events of the scarce ledger. */
  ghost predicate ScarceAt(s: Stock, decisions: seq<Policy.Decision>, j: nat, n: nat)
    requires j < |decisions| && n <= |decisions|
  {
    var id, key := decisions[j].decisionID, DecisionPolicyKey(decisions[j]);
    && s.byDecisionID == (if n > j then multiset{id} else multiset{})
    && s.legacy[key] + (if n > j then 1 else 0) == Demand(decisions[..n], key)
  }

  lemma {:induction false} ScarceStep(s: Stock, decisions: seq<Policy.Decision>, j: nat, hash: Hash, n: nat)
    requires j < |decisions| && n < |decisions| && decisions[j].decisionID != ""
    requires ScarceAt(s, decisions, j, n)
    ensures ScarceAt(AddEvent(s, ScarceLedger(decisions, j, hash)[n]), decisions, j, n + 1)
  {
    ScarceEvent(decisions, j, hash, n);
    DemandLast(decisions, n, DecisionPolicyKey(decisions[j]));
  }

  lemma {:induction false} StockSnoc(events: seq<Event>, n: nat)
    requires n < |events|
    ensures StockOf(events[..n + 1]) == AddEvent(StockOf(events[..n]), events[n])
  {
    assert events[..n + 1][..n] == events[..n];
  }

  lemma {:induction false} ScarceStock(decisions: seq<Policy.Decision>, j: nat, hash: Hash, n: nat)
    requires j < |decisions| && n <= |decisions| && decisions[j].decisionID != ""
    ensures ScarceAt(StockOf(ScarceLedger(decisions, j, hash)[..n]), decisions, j, n)
  {
    if n == 0 {
      assert Keys(decisions[..0]) == [];
    } else {
      var events := ScarceLedger(decisions, j, hash);
      ScarceStock(decisions, j, hash, n - 1);
      StockSnoc(events, n - 1);
      ScarceStep(StockOf(events[..n - 1]), decisions, j, hash, n - 1);
    }
  }

  lemma {:induction false} FirstOccurrence(decisions: seq<Policy.Decision>, i: nat) returns (first: nat)
    requires i < |decisions|
    ensures FirstWithID(decisions, first, decisions[i].decisionID)
    decreases i
  {
    if k :| 0 <= k < i && decisions[k].decisionID == decisions[i].decisionID {
      first := FirstOccurrence(decisions, k);
    } else {
      first := i;
    }
  }

  function Identity(n: nat): (f: seq<nat>)
    ensures |f| == n && forall i :: 0 <= i < n ==> f[i] == i
  {
    seq(n, (i: nat) => i)
  }

  lemma {:induction false} ScarceAssignable(decisions: seq<Policy.Decision>, j: nat, hash: Hash)
    requires j < |decisions| && decisions[j].decisionID != ""
    ensures Assignable(ScarceLedger(decisions, j, hash), decisions)
    ensures ChainAccepted(ScarceLedger(decisions, j, hash), hash)
  {
    RecordedChainAccepted("", hash, ScarceDrafts(decisions, j));
    forall k: nat | k < |decisions| ensures Vouches(ScarceLedger(decisions, j, hash)[k], decisions[k]) {
      ScarceEvent(decisions, j, hash, k);
    }
    assert Assignment(ScarceLedger(decisions, j, hash), decisions, Identity(|decisions|));
  }

  /** A chained event list with an event for every decision, whose decisions cannot all be taken. */
  lemma {:induction false} GreedyMisses(decisions: seq<Policy.Decision>, hash: Hash, first: nat, j: nat)
    requires j < |decisions| && decisions[j].decisionID != ""
    requires FirstWithID(decisions, first, decisions[j].decisionID)
    requires DecisionPolicyKey(decisions[first]) != DecisionPolicyKey(decisions[j])
    ensures !TakesAll(StockOf(ScarceLedger(decisions, j, hash)), decisions)
  {
    var events := ScarceLedger(decisions, j, hash);
    ScarceStock(decisions, j, hash, |decisions|);
    assert events[..|decisions|] == events && decisions[..|decisions|] == decisions;
    var s, key := StockOf(events), DecisionPolicyKey(decisions[j]);
    assert s == Stock(multiset{decisions[j].decisionID}, s.legacy);
    if TakesAll(s, decisions) {
      FirstTakesIt(s.legacy, decisions[j].decisionID, decisions, first, key);
    }
  }

  /** On event lists that bypass the schema, and may hold legacy events, greedy matching misses no assignment
      exactly when decisions that share an ID share their key. */
  lemma {:induction false} GreedyCompleteExactly(decisions: seq<Policy.Decision>, hash: Hash)
    ensures GreedyComplete(decisions, hash) <==> SameIDSameKey(decisions)
  {
    if SameIDSameKey(decisions) {
      forall events | events != [] && ChainAccepted(events, hash) && Assignable(events, decisions)
        ensures TakesAll(StockOf(events), decisions)
      {
        var f :| Assignment(events, decisions, f);
        StockedAtFirst(events);
        GreedyFinds(StockOf(events), events, UpTo(|events|), decisions, f);
      }
    } else {
      var i, j :| 0 <= i < j < |decisions| && SharesID(decisions[i], decisions[j])
                  && DecisionPolicyKey(decisions[i]) != DecisionPolicyKey(decisions[j]);
      var first := FirstOccurrence(decisions, i);
      var other := if DecisionPolicyKey(decisions[first]) != DecisionPolicyKey(decisions[i]) then i else j;
      ScarceAssignable(decisions, other, hash);
      GreedyMisses(decisions, hash, first, other);
    }
  }

  // ----- rows -----

  ghost function ClaimedArtifactIDs(row: Closure.Row, evidence: EvidencePack, events: map<string, Event>): set<string> {
    set a | a in evidence.artifacts && ProducedBy(events, row.taskIDs, a) :: a.artifactID
  }

  ghost function ClaimedDecisionIDs(row: Closure.Row, evidence: EvidencePack): set<string> {
    set d | d in evidence.decisions && d.taskID in row.taskIDs :: d.decisionID
  }

  /** The row lists exactly what its tasks produced and decided. */
  ghost predicate RowExact(row: Closure.Row, evidence: EvidencePack, events: map<string, Event>) {
    && (forall id :: id in row.artifactIDs <==> id in ClaimedArtifactIDs(row, evidence, events))
    && (forall id :: id in row.decisionIDs <==> id in ClaimedDecisionIDs(row, evidence))
  }

  ghost predicate DistinctBy<T(!new)>(xs: seq<T>, key: T -> string) {
    forall i, j :: 0 <= i < j < |xs| ==> key(xs[i]) != key(xs[j])
  }

  lemma {:induction false} LookupIsExact<T(!new)>(xs: seq<T>, key: T -> string, x: T)
    requires DistinctBy(xs, key) && x in xs
    ensures key(x) in LastWins(xs, key) && LastWins(xs, key)[key(x)] == x
  {
    var i :| 0 <= i < |xs| && xs[i] == x;
    LastWinsAt(xs, key, i);
  }

  lemma {:induction false} AcceptedRowIsExact(row: Closure.Row, evidence: EvidencePack, events: seq<Event>)
    requires RowAccepted(row, evidence, LookupOf(evidence, events))
    ensures RowExact(row, evidence, LookupOf(evidence, events).events)
  {
    LastWinsHolds(evidence.artifacts, ArtifactKey);
    LastWinsHolds(evidence.decisions, DecisionKey);
  }

  /** With distinct IDs the row check is exact in both directions. */
  lemma {:induction false} RowAcceptedExactly(row: Closure.Row, evidence: EvidencePack, events: seq<Event>)
    requires DistinctBy(evidence.artifacts, ArtifactKey) && DistinctBy(evidence.decisions, DecisionKey)
    ensures RowAccepted(row, evidence, LookupOf(evidence, events)) <==>
            RowExact(row, evidence, LookupOf(evidence, events).events)
  {
    var l := LookupOf(evidence, events);
    if RowExact(row, evidence, l.events) {
      forall id | id in row.artifactIDs ensures id in l.artifacts && ProducedBy(l.events, row.taskIDs, l.artifacts[id]) {
        var a :| a in evidence.artifacts && ProducedBy(l.events, row.taskIDs, a) && a.artifactID == id;
        LookupIsExact(evidence.artifacts, ArtifactKey, a);
      }
      forall id | id in row.decisionIDs ensures id in l.decisions && l.decisions[id].taskID in row.taskIDs {
        var d :| d in evidence.decisions && d.taskID in row.taskIDs && d.decisionID == id;
        LookupIsExact(evidence.decisions, DecisionKey, d);
      }
    } else if RowAccepted(row, evidence, l) {
      AcceptedRowIsExact(row, evidence, events);
    }
  }

  predicate Records(e: Event, a: ArtifactRef) {
    e.body.eventID == a.producerEventID && e.body.kind.ArtifactRecorded? && a.artifactID in e.body.artifactIDs
  }

  /** Acceptance links every decision to a ledger event of its own and fixes each row's contents. */
  lemma {:induction false} AcceptanceMeans(evidence: EvidencePack, events: seq<Event>)
    requires ProvenanceAccepted(evidence, events)
    ensures Assignable(events, evidence.decisions)
    ensures forall row :: row in evidence.matrix.rows ==> RowExact(row, evidence, LookupOf(evidence, events).events)
    ensures forall a :: a in evidence.artifacts ==> exists e :: e in events && Records(e, a)
  {
    var _ := GreedySound(events, evidence.decisions);
    forall row | row in evidence.matrix.rows ensures RowExact(row, evidence, LookupOf(evidence, events).events) {
      AcceptedRowIsExact(row, evidence, events);
    }
    LastWinsHolds(events, EventKey);
  }

  ghost predicate AllRecorded(artifacts: seq<ArtifactRef>, events: seq<Event>) {
    forall a :: a in artifacts ==> exists e :: e in events && Records(e, a)
  }

  ghost predicate RowsExact(evidence: EvidencePack, events: seq<Event>) {
    forall row :: row in evidence.matrix.rows ==> RowExact(row, evidence, LookupOf(evidence, events).events)
  }

  /** On a ledger whose lines the schema lets through, with no event, artifact or decision ID used twice, provenance
      is accepted exactly when the decisions can be given events of their own, every artifact is recorded, and every
      row lists exactly what its tasks produced and decided. */
  lemma {:induction false} AcceptedProvenanceExactly(evidence: EvidencePack, events: seq<Event>)
    requires LinesValid(events) && DistinctBy(events, EventKey)
    requires DistinctBy(evidence.artifacts, ArtifactKey) && DistinctBy(evidence.decisions, DecisionKey)
    ensures ProvenanceAccepted(evidence, events) <==>
            && Assignable(events, evidence.decisions)
            && AllRecorded(evidence.artifacts, events) && RowsExact(evidence, events)
  {
    LedgerMatchingExact(events, evidence.decisions);
    var l := LookupOf(evidence, events);
    forall row | row in evidence.matrix.rows
      ensures RowAccepted(row, evidence, l) <==> RowExact(row, evidence, l.events)
    {
      RowAcceptedExactly(row, evidence, events);
    }
    forall a | a in evidence.artifacts
      ensures ProducerLists(l.events, a) <==> exists e :: e in events && Records(e, a)
    {
      RecordedExactly(a, events);
    }
  }

  lemma {:induction false} RecordedExactly(a: ArtifactRef, events: seq<Event>)
    requires DistinctBy(events, EventKey)
    ensures ProducerLists(LastWins(events, EventKey), a) <==> exists e :: e in events && Records(e, a)
  {
    LastWinsHolds(events, EventKey);
    forall e | e in events && Records(e, a)
      ensures a.producerEventID in LastWins(events, EventKey) && LastWins(events, EventKey)[a.producerEventID] == e
    {
      LookupIsExact(events, EventKey, e);
    }
  }
}
