/** Everything a run leaves behind is accepted by the independent verifier. */
module RunVerify {
  import opened Text
  import opened Contracts
  import opened Ledger
  import opened EventSchema
  import opened Evidence
  import opened Run
  import opened Verifier
  import Provenance
  import LedgerGrammar
  import Policy
  import Closure

  // ----- event IDs -----

  lemma {:induction false} SealedAt(runID: string, hash: Hash, drafts: seq<Draft>, i: nat)
    requires i < |drafts|
    ensures var body := Chain(runID, hash, drafts)[i].body;
            && body.eventID == EventID(i + 1) && body.sequence == i + 1 && body.runID == runID
            && body.kind == drafts[i].kind && body.taskID == drafts[i].taskID
            && body.artifactIDs == drafts[i].artifactIDs && body.decisionID == drafts[i].decisionID
  {
    ChainAt(runID, hash, drafts, i);
  }

  /** Looking an event up by the ID of its line finds that line. */
  lemma {:induction false} EventLookup(runID: string, hash: Hash, drafts: seq<Draft>, i: nat)
    requires i < |drafts|
    ensures var events := Chain(runID, hash, drafts);
            EventID(i + 1) in LastWins(events, EventKey) && LastWins(events, EventKey)[EventID(i + 1)] == events[i]
  {
    var events := Chain(runID, hash, drafts);
    SealedAt(runID, hash, drafts, i);
    forall j | i < j < |events| ensures EventKey(events[j]) != EventKey(events[i]) {
      SealedAt(runID, hash, drafts, j);
      if EventID(j + 1) == EventID(i + 1) {
        EventIDInjective(j + 1, i + 1);
      }
    }
    LastWinsAt(events, EventKey, i);
  }

  /** Events carry their line numbers: the event with the n-th ID is on line n. */
  lemma {:induction false} LineLookup(runID: string, hash: Hash, drafts: seq<Draft>, n: nat)
    requires 1 <= n <= |drafts|
    ensures LineOf(Chain(runID, hash, drafts), EventID(n)) == Some(n)
    decreases |drafts|
  {
    var events := Chain(runID, hash, drafts);
    var last := |drafts| - 1;
    SealedAt(runID, hash, drafts, last);
    if n == |drafts| {
      assert events[|events| - 1].body.eventID == EventID(n);
    } else {
      if EventID(last + 1) == EventID(n) {
        EventIDInjective(last + 1, n);
      }
      assert events[..last] == Chain(runID, hash, drafts[..last]);
      LineLookup(runID, hash, drafts[..last], n);
    }
  }

  // ----- decisions -----

  /** The decision IDs among policy_decided drafts. */
  function PolicyIDs(drafts: seq<Draft>): multiset<string> {
    if drafts == [] then multiset{}
    else
      var d := drafts[|drafts| - 1];
      PolicyIDs(drafts[..|drafts| - 1])
      + if d.kind.PolicyDecided? && d.decisionID != "" then multiset{d.decisionID} else multiset{}
  }

  lemma {:induction false} StockOfChain(runID: string, hash: Hash, drafts: seq<Draft>)
    ensures StockOf(Chain(runID, hash, drafts)).byDecisionID == PolicyIDs(drafts)
  {
    if drafts != [] {
      var front := drafts[..|drafts| - 1];
      StockOfChain(runID, hash, front);
      var events := Chain(runID, hash, drafts);
      assert events[..|events| - 1] == Chain(runID, hash, front);
      SealedAt(runID, hash, drafts, |drafts| - 1);
    }
  }

  lemma {:induction false} PolicyIDsConcat(a: seq<Draft>, b: seq<Draft>)
    ensures PolicyIDs(a + b) == PolicyIDs(a) + PolicyIDs(b)
    decreases |b|
  {
    if b == [] {
      assert a + b == a;
    } else {
      assert (a + b)[..|a + b| - 1] == a + b[..|b| - 1];
      PolicyIDsConcat(a, b[..|b| - 1]);
    }
  }

  lemma {:induction false} NoPolicyIDs(drafts: seq<Draft>)
    requires forall i :: 0 <= i < |drafts| ==> !drafts[i].kind.PolicyDecided?
    ensures PolicyIDs(drafts) == multiset{}
  {
    if drafts != [] {
      NoPolicyIDs(drafts[..|drafts| - 1]);
    }
  }

  function IDs(decisions: seq<Policy.Decision>): seq<string> {
    seq(|decisions|, i requires 0 <= i < |decisions| => decisions[i].decisionID)
  }

  ghost predicate AllIdentified(decisions: seq<Policy.Decision>) {
    forall d :: d in decisions ==> d.decisionID != ""
  }

  lemma {:induction false} DecisionDraftIDs(decisions: seq<Policy.Decision>)
    requires AllIdentified(decisions)
    ensures PolicyIDs(DecisionDrafts(decisions)) == multiset(IDs(decisions))
  {
    if decisions != [] {
      var n := |decisions| - 1;
      assert decisions == decisions[..n] + [decisions[n]];
      DecisionDraftIDs(decisions[..n]);
      assert DecisionDrafts(decisions)[..n] == DecisionDrafts(decisions[..n]);
      assert IDs(decisions) == IDs(decisions[..n]) + [decisions[n].decisionID];
      assert decisions[n] in decisions;
    }
  }

  lemma {:induction false} OutcomeHasNoDecisions(taskID: string, outcome: Outcome)
    ensures PolicyIDs(OutcomeDrafts(taskID, outcome)) == multiset{}
  {
    NoPolicyIDs(OutcomeDrafts(taskID, outcome));
  }

  lemma {:induction false} BlockPolicyIDs(b: Block)
    requires AllIdentified(b.decisions)
    ensures PolicyIDs(BlockDrafts(b)) == multiset(IDs(b.decisions))
  {
    PolicyIDsConcat(GateDrafts(b.task, b.decisions), OutcomeDrafts(b.task.id, b.outcome));
    PolicyIDsConcat([Started(b.task)], DecisionDrafts(b.decisions));
    NoPolicyIDs([Started(b.task)]);
    DecisionDraftIDs(b.decisions);
    OutcomeHasNoDecisions(b.task.id, b.outcome);
  }

  /** What the scheduler guarantees of every block of a history. */
  ghost predicate WellShaped(blocks: seq<Block>) {
    blocks == [] ||
    (var before, b := blocks[..|blocks| - 1], blocks[|blocks| - 1];
     WellShaped(before) && AllDone(before) && LedgerGrammar.BlockShape(b) && b.task.id !in DoneIDs(before))
  }

  lemma {:induction false} LegalIsWellShaped(c: Contract, w: World, opts: Options, blocks: seq<Block>)
    requires LegalRun(c, w, opts, blocks)
    ensures WellShaped(blocks)
  {
    if blocks != [] {
      var before, b := blocks[..|blocks| - 1], blocks[|blocks| - 1];
      LegalIsWellShaped(c, w, opts, before);
      LedgerGrammar.MadeBlock(c, w, opts, before, b.index);
    }
  }

  lemma {:induction false} ShapeIdentified(b: Block)
    requires LedgerGrammar.BlockShape(b)
    ensures AllIdentified(b.decisions)
  {
    forall d | d in b.decisions ensures d.decisionID != "" {
      var i :| 0 <= i < |b.decisions| && b.decisions[i] == d;
      assert d.decisionID == Policy.DecisionID(b.task.id, i);
      assert d.decisionID[0] == 'p';
    }
  }

  lemma {:induction false} IDsConcat(a: seq<Policy.Decision>, b: seq<Policy.Decision>)
    ensures multiset(IDs(a + b)) == multiset(IDs(a)) + multiset(IDs(b))
  {
    assert IDs(a + b) == IDs(a) + IDs(b);
  }

  lemma {:induction false} RunPolicyIDs(blocks: seq<Block>)
    requires WellShaped(blocks)
    ensures PolicyIDs(Drafts(blocks)) == multiset(IDs(Decisions(blocks)))
  {
    if blocks == [] {
      NoPolicyIDs([RUN_STARTED]);
      assert IDs([]) == [];
    } else {
      var before, b := blocks[..|blocks| - 1], blocks[|blocks| - 1];
      RunPolicyIDs(before);
      PolicyIDsConcat(Drafts(before), BlockDrafts(b));
      ShapeIdentified(b);
      BlockPolicyIDs(b);
      IDsConcat(Decisions(before), b.decisions);
    }
  }

  lemma {:induction false} EnoughIDs(s: Stock, decisions: seq<Policy.Decision>)
    requires multiset(IDs(decisions)) <= s.byDecisionID
    ensures TakesAll(s, decisions)
    decreases |decisions|
  {
    if decisions != [] {
      var id := decisions[0].decisionID;
      assert IDs(decisions) == [id] + IDs(decisions[1..]);
      assert multiset(IDs(decisions)) == multiset{id} + multiset(IDs(decisions[1..]));
      EnoughIDs(s.(byDecisionID := s.byDecisionID - multiset{id}), decisions[1..]);
    }
  }

  lemma {:induction false} DecisionsMatch(runID: string, hash: Hash, blocks: seq<Block>, status: string)
    requires WellShaped(blocks)
    ensures TakesAll(StockOf(Chain(runID, hash, FinishedDrafts(blocks, status))), Decisions(blocks))
  {
    var drafts := FinishedDrafts(blocks, status);
    StockOfChain(runID, hash, drafts);
    PolicyIDsConcat(Drafts(blocks), [RunFinishedDraft(status)]);
    NoPolicyIDs([RunFinishedDraft(status)]);
    RunPolicyIDs(blocks);
    EnoughIDs(StockOf(Chain(runID, hash, drafts)), Decisions(blocks));
  }

  /** Every decision of a history names its task and its effect's position. */
  ghost predicate Numbered(blocks: seq<Block>, d: Policy.Decision) {
    d.taskID in StartedIDs(blocks) && exists i: nat :: d.decisionID == Policy.DecisionID(d.taskID, i)
  }

  function StartedIDs(blocks: seq<Block>): set<string> {
    LedgerGrammar.StartedIDs(blocks)
  }

  lemma {:induction false} DecisionsNumbered(blocks: seq<Block>)
    requires WellShaped(blocks)
    ensures forall d :: d in Decisions(blocks) ==> Numbered(blocks, d)
  {
    if blocks != [] {
      var before, b := blocks[..|blocks| - 1], blocks[|blocks| - 1];
      DecisionsNumbered(before);
      forall d | d in Decisions(blocks) ensures Numbered(blocks, d) {
        if d in Decisions(before) {
          assert Numbered(before, d);
        } else {
          var i :| 0 <= i < |b.decisions| && b.decisions[i] == d;
          assert d.decisionID == Policy.DecisionID(d.taskID, i);
        }
      }
    }
  }

  lemma {:induction false} BlockDecisionsDistinct(b: Block)
    requires LedgerGrammar.BlockShape(b)
    ensures Provenance.DistinctBy(b.decisions, DecisionKey)
  {
    forall i, j | 0 <= i < j < |b.decisions| ensures DecisionKey(b.decisions[i]) != DecisionKey(b.decisions[j]) {
      if b.decisions[i].decisionID == b.decisions[j].decisionID {
        Policy.DecisionIDInjective(b.task.id, i, b.task.id, j);
      }
    }
  }

  lemma {:induction false} DistinctConcat<T(!new)>(a: seq<T>, b: seq<T>, key: T -> string)
    requires Provenance.DistinctBy(a, key) && Provenance.DistinctBy(b, key)
    requires forall x, y :: x in a && y in b ==> key(x) != key(y)
    ensures Provenance.DistinctBy(a + b, key)
  {
    var all := a + b;
    forall i, j | 0 <= i < j < |all| ensures key(all[i]) != key(all[j]) {
      if i < |a| <= j {
        assert all[i] in a && all[j] in b;
      }
    }
  }

  /** No two decisions of a run share an ID. */
  lemma {:induction false} DecisionsDistinct(blocks: seq<Block>)
    requires WellShaped(blocks)
    ensures Provenance.DistinctBy(Decisions(blocks), DecisionKey)
  {
    if blocks != [] {
      var before, b := blocks[..|blocks| - 1], blocks[|blocks| - 1];
      DecisionsDistinct(before);
      BlockDecisionsDistinct(b);
      DecisionsNumbered(before);
      LedgerGrammar.AllDoneStarted(before);
      forall x, y | x in Decisions(before) && y in b.decisions ensures DecisionKey(x) != DecisionKey(y) {
        assert Numbered(before, x);
        var i: nat :| x.decisionID == Policy.DecisionID(x.taskID, i);
        var j :| 0 <= j < |b.decisions| && b.decisions[j] == y;
        if x.decisionID == y.decisionID {
          Policy.DecisionIDInjective(x.taskID, i, b.task.id, j);
        }
      }
      DistinctConcat(Decisions(before), b.decisions, DecisionKey);
    }
  }

  // ----- artifacts -----

  /** For each artifact of the run, the task that produced it and its line in the ledger, counted from 0. */
  datatype Origin = Origin(taskID: string, line: nat)

  function BlockOrigins(before: seq<Block>, b: Block): seq<Origin> {
    seq(|ArtifactsIn(b)|, (i: nat) => Origin(b.task.id, GateLength(before, b) + i))
  }

  function Origins(blocks: seq<Block>): (origins: seq<Origin>)
    ensures |origins| == |Artifacts(blocks)|
  {
    if blocks == [] then []
    else
      var before, b := blocks[..|blocks| - 1], blocks[|blocks| - 1];
      Origins(before) + BlockOrigins(before, b)
  }

  /** The draft at the artifact's line records it. */
  ghost predicate RecordedAt(a: ArtifactRef, o: Origin, drafts: seq<Draft>) {
    && o.line < |drafts| && a.producerEventID == EventID(o.line + 1)
    && drafts[o.line].kind.ArtifactRecorded? && drafts[o.line].taskID == o.taskID
    && drafts[o.line].artifactIDs == [a.artifactID]
  }

  lemma {:induction false} BlockArtifactRecorded(before: seq<Block>, b: Block, i: nat)
    requires i < |ArtifactsIn(b)|
    ensures RecordedAt(Stamp(ArtifactsIn(b), GateLength(before, b))[i], BlockOrigins(before, b)[i],
                       Drafts(before) + BlockDrafts(b))
  {
    var artifacts, taskID := ArtifactsIn(b), b.task.id;
    var gate, outcome := GateDrafts(b.task, b.decisions), OutcomeDrafts(taskID, b.outcome);
    var line := GateLength(before, b) + i;
    assert |gate| == 1 + |b.decisions|;
    assert outcome[i] == ArtifactDraft(taskID, artifacts[i]);
    hide Drafts, GateDrafts, OutcomeDrafts, EventID;
    assert (Drafts(before) + (gate + outcome))[line] == outcome[i];
  }

  lemma {:induction false} RecordedStays(a: ArtifactRef, o: Origin, drafts: seq<Draft>, more: seq<Draft>)
    requires RecordedAt(a, o, drafts)
    ensures RecordedAt(a, o, drafts + more)
  {
  }

  lemma {:induction false} ArtifactsRecorded(blocks: seq<Block>)
    ensures forall k :: 0 <= k < |Artifacts(blocks)| ==> RecordedAt(Artifacts(blocks)[k], Origins(blocks)[k], Drafts(blocks))
  {
    if blocks != [] {
      var before, b := blocks[..|blocks| - 1], blocks[|blocks| - 1];
      ArtifactsRecorded(before);
      var n := |Artifacts(before)|;
      forall k | 0 <= k < |Artifacts(blocks)|
        ensures RecordedAt(Artifacts(blocks)[k], Origins(blocks)[k], Drafts(blocks))
      {
        if k < n {
          RecordedStays(Artifacts(before)[k], Origins(before)[k], Drafts(before), BlockDrafts(b));
        } else {
          BlockArtifactRecorded(before, b, k - n);
        }
      }
    }
  }

  /** Task t produced an artifact with this ID. */
  ghost predicate Made(artifacts: seq<ArtifactRef>, origins: seq<Origin>, t: string, id: string)
    requires |origins| == |artifacts|
  {
    exists k :: 0 <= k < |artifacts| && artifacts[k].artifactID == id && origins[k].taskID == t
  }

  lemma {:induction false} MadeConcat(a: seq<ArtifactRef>, oa: seq<Origin>, b: seq<ArtifactRef>, ob: seq<Origin>, t: string, id: string)
    requires |a| == |oa| && |b| == |ob|
    ensures Made(a + b, oa + ob, t, id) <==> Made(a, oa, t, id) || Made(b, ob, t, id)
  {
    if Made(a, oa, t, id) {
      var k :| 0 <= k < |a| && a[k].artifactID == id && oa[k].taskID == t;
      assert (a + b)[k] == a[k] && (oa + ob)[k] == oa[k];
    }
    if Made(b, ob, t, id) {
      var k :| 0 <= k < |b| && b[k].artifactID == id && ob[k].taskID == t;
      assert (a + b)[|a| + k] == b[k] && (oa + ob)[|a| + k] == ob[k];
    }
  }

  lemma {:induction false} BlockMade(before: seq<Block>, b: Block, t: string, id: string)
    ensures Made(Stamp(ArtifactsIn(b), GateLength(before, b)), BlockOrigins(before, b), t, id) <==>
            t == b.task.id && id in IDsOf(ArtifactsIn(b))
  {
    var ids := IDsOf(ArtifactsIn(b));
    if t == b.task.id && id in ids {
      var k :| 0 <= k < |ids| && ids[k] == id;
      assert Stamp(ArtifactsIn(b), GateLength(before, b))[k].artifactID == id;
      assert BlockOrigins(before, b)[k].taskID == t;
    }
    if k :| 0 <= k < |ids| && Stamp(ArtifactsIn(b), GateLength(before, b))[k].artifactID == id
            && BlockOrigins(before, b)[k].taskID == t {
      assert ids[k] == id;
    }
  }

  /** The executor's per-task artifact lists hold exactly what each task produced. */
  lemma {:induction false} TaskArtifactsExact(blocks: seq<Block>, t: string, id: string)
    ensures id in Closure.ArtifactsOf(TaskArtifacts(blocks), t) <==> Made(Artifacts(blocks), Origins(blocks), t, id)
  {
    if blocks != [] {
      var before, b := blocks[..|blocks| - 1], blocks[|blocks| - 1];
      TaskArtifactsExact(before, t, id);
      BlockMade(before, b, t, id);
      MadeConcat(Artifacts(before), Origins(before), Stamp(ArtifactsIn(b), GateLength(before, b)),
                 BlockOrigins(before, b), t, id);
    }
  }

  // ----- the ledger's side of an artifact -----

  /** The verifier finds the artifact's own event and task. */
  lemma {:induction false} ArtifactLookup(runID: string, hash: Hash, drafts: seq<Draft>, a: ArtifactRef, o: Origin)
    requires RecordedAt(a, o, drafts)
    ensures var events := LastWins(Chain(runID, hash, drafts), EventKey);
            && ProducerLists(events, a)
            && forall taskIDs :: ProducedBy(events, taskIDs, a) <==> o.taskID in taskIDs
  {
    EventLookup(runID, hash, drafts, o.line);
    SealedAt(runID, hash, drafts, o.line);
  }

  lemma {:induction false} RunArtifactLookup(w: World, opts: Options, blocks: seq<Block>, status: string, k: nat)
    requires k < |Artifacts(blocks)|
    ensures var events := LastWins(LedgerOf(w, opts, blocks, status), EventKey);
            && ProducerLists(events, Artifacts(blocks)[k])
            && forall taskIDs :: ProducedBy(events, taskIDs, Artifacts(blocks)[k]) <==> Origins(blocks)[k].taskID in taskIDs
  {
    ArtifactsRecorded(blocks);
    RecordedStays(Artifacts(blocks)[k], Origins(blocks)[k], Drafts(blocks), [RunFinishedDraft(status)]);
    ArtifactLookup(opts.runID, w.hash, FinishedDrafts(blocks, status), Artifacts(blocks)[k], Origins(blocks)[k]);
  }

  // ----- rows -----

  ghost function EventsOf(w: World, opts: Options, blocks: seq<Block>, status: string): map<string, Event> {
    LastWins(LedgerOf(w, opts, blocks, status), EventKey)
  }

  /** A row's artifact IDs are those that its tasks produced, as the ledger sees it. */
  lemma {:induction false} RowArtifactsExact(w: World, opts: Options, blocks: seq<Block>, status: string, taskIDs: seq<string>, id: string)
    ensures id in Closure.ArtifactIDs(TaskArtifacts(blocks), taskIDs) <==>
            exists a :: a in Artifacts(blocks) && ProducedBy(EventsOf(w, opts, blocks, status), taskIDs, a) && a.artifactID == id
  {
    hide Artifacts, Origins, TaskArtifacts, Closure.ArtifactIDs, Closure.ArtifactsOf, LedgerOf, LastWins, ProducedBy;
    var events := EventsOf(w, opts, blocks, status);
    Closure.ArtifactIDsExact(TaskArtifacts(blocks), taskIDs);
    if id in Closure.ArtifactIDs(TaskArtifacts(blocks), taskIDs) {
      var t :| t in taskIDs && id in Closure.ArtifactsOf(TaskArtifacts(blocks), t);
      TaskArtifactsExact(blocks, t, id);
      var k :| 0 <= k < |Artifacts(blocks)| && Artifacts(blocks)[k].artifactID == id && Origins(blocks)[k].taskID == t;
      RunArtifactLookup(w, opts, blocks, status, k);
      assert Artifacts(blocks)[k] in Artifacts(blocks);
    }
    if a :| a in Artifacts(blocks) && ProducedBy(events, taskIDs, a) && a.artifactID == id {
      var k :| 0 <= k < |Artifacts(blocks)| && Artifacts(blocks)[k] == a;
      RunArtifactLookup(w, opts, blocks, status, k);
      TaskArtifactsExact(blocks, Origins(blocks)[k].taskID, id);
    }
  }

  lemma {:induction false} RowIsExact(c: Contract, w: World, opts: Options, blocks: seq<Block>, status: string, o: Obligation)
    ensures Provenance.RowExact(Closure.RowFor(ClosureInput(c, opts, blocks, status), o),
                                EvidenceOf(c, w, opts, blocks, status), EventsOf(w, opts, blocks, status))
  {
    var row := Closure.RowFor(ClosureInput(c, opts, blocks, status), o);
    var evidence, events := EvidenceOf(c, w, opts, blocks, status), EventsOf(w, opts, blocks, status);
    forall id ensures id in row.artifactIDs <==> id in Provenance.ClaimedArtifactIDs(row, evidence, events) {
      RowArtifactsExact(w, opts, blocks, status, row.taskIDs, id);
    }
    forall id ensures id in row.decisionIDs <==> id in Provenance.ClaimedDecisionIDs(row, evidence) {
      RowDecisionsExact(Decisions(blocks), row.taskIDs, id);
    }
  }

  lemma {:induction false} RowDecisionsExact(decisions: seq<Policy.Decision>, taskIDs: seq<string>, id: string)
    ensures id in Closure.DecisionIDs(decisions, set x | x in taskIDs) <==>
            exists d :: d in decisions && d.taskID in taskIDs && d.decisionID == id
  {
    var ids := set x | x in taskIDs;
    Closure.DecisionIDsExact(decisions, ids);
    if d :| d in decisions && d.taskID in taskIDs && d.decisionID == id {
      var i :| 0 <= i < |decisions| && decisions[i] == d;
      assert decisions[i].taskID in ids;
    }
    if i :| 0 <= i < |decisions| && decisions[i].taskID in ids && decisions[i].decisionID == id {
      assert decisions[i] in decisions;
    }
  }

  // ----- artifact IDs that are used more than once -----

  /** For each artifact ID the task that made the last artifact of that ID. */
  function LastMakers(artifacts: seq<ArtifactRef>, origins: seq<Origin>): map<string, string>
    requires |origins| == |artifacts|
  {
    if artifacts == [] then map[]
    else
      var n := |artifacts| - 1;
      LastMakers(artifacts[..n], origins[..n])[artifacts[n].artifactID := origins[n].taskID]
  }

  /** The verifier's map holds the last artifact of each ID. */
  lemma {:induction false} LastIndex(artifacts: seq<ArtifactRef>, origins: seq<Origin>, k: nat) returns (m: nat)
    requires |origins| == |artifacts| && k < |artifacts|
    ensures m < |artifacts| && artifacts[m].artifactID == artifacts[k].artifactID
    ensures var id := artifacts[k].artifactID;
            && id in LastWins(artifacts, ArtifactKey) && LastWins(artifacts, ArtifactKey)[id] == artifacts[m]
            && id in LastMakers(artifacts, origins) && LastMakers(artifacts, origins)[id] == origins[m].taskID
  {
    var n := |artifacts| - 1;
    m := n;
    if artifacts[k].artifactID != artifacts[n].artifactID {
      m := LastIndex(artifacts[..n], origins[..n], k);
    }
  }

  /** A claimant of the obligation made the artifact at position k. */
  ghost predicate MadeByClaimant(c: Contract, blocks: seq<Block>, o: Obligation, k: nat)
    requires k < |Artifacts(blocks)|
  {
    Origins(blocks)[k].taskID in Closure.ClaimingTaskIDs(c.tasks, o.id)
  }

  /** Whenever a claimant of the obligation made an artifact, a claimant made the last artifact of the same ID. */
  ghost predicate LastByClaimant(c: Contract, blocks: seq<Block>, o: Obligation) {
    var makers := LastMakers(Artifacts(blocks), Origins(blocks));
    forall k :: 0 <= k < |Artifacts(blocks)| && MadeByClaimant(c, blocks, o, k) ==>
      && Artifacts(blocks)[k].artifactID in makers
      && makers[Artifacts(blocks)[k].artifactID] in Closure.ClaimingTaskIDs(c.tasks, o.id)
  }

  /** Artifact IDs are shared among tasks only where the last maker claims what the others claim. */
  ghost predicate SharedIDsClaimed(c: Contract, blocks: seq<Block>) {
    forall o :: o in c.obligations ==> LastByClaimant(c, blocks, o)
  }

  lemma {:induction false} DistinctIDsClaimed(c: Contract, blocks: seq<Block>)
    requires Provenance.DistinctBy(Artifacts(blocks), ArtifactKey)
    ensures SharedIDsClaimed(c, blocks)
  {
    hide Artifacts, Origins, LastMakers, Closure.ClaimingTaskIDs;
    forall o, k: nat | o in c.obligations && k < |Artifacts(blocks)| && MadeByClaimant(c, blocks, o, k)
      ensures var makers := LastMakers(Artifacts(blocks), Origins(blocks));
              && Artifacts(blocks)[k].artifactID in makers
              && makers[Artifacts(blocks)[k].artifactID] in Closure.ClaimingTaskIDs(c.tasks, o.id)
    {
      var m := LastIndex(Artifacts(blocks), Origins(blocks), k);
      assert ArtifactKey(Artifacts(blocks)[m]) == ArtifactKey(Artifacts(blocks)[k]);
      assert m == k;
    }
  }

  // ----- the theorem -----

  function RowOf(c: Contract, opts: Options, blocks: seq<Block>, status: string, o: Obligation): Closure.Row {
    Closure.RowFor(ClosureInput(c, opts, blocks, status), o)
  }

  lemma {:induction false} RowDecisionsPass(c: Contract, w: World, opts: Options, blocks: seq<Block>, status: string, o: Obligation)
    requires WellShaped(blocks)
    ensures RowDecisionsAccepted(RowOf(c, opts, blocks, status, o), Decisions(blocks),
                                 LookupOf(EvidenceOf(c, w, opts, blocks, status), LedgerOf(w, opts, blocks, status)))
  {
    var row, evidence := RowOf(c, opts, blocks, status, o), EvidenceOf(c, w, opts, blocks, status);
    var l := LookupOf(evidence, LedgerOf(w, opts, blocks, status));
    RowIsExact(c, w, opts, blocks, status, o);
    DecisionsDistinct(blocks);
    forall id | id in row.decisionIDs ensures id in l.decisions && l.decisions[id].taskID in row.taskIDs {
      assert id in Provenance.ClaimedDecisionIDs(row, evidence);
      var d :| d in evidence.decisions && d.taskID in row.taskIDs && d.decisionID == id;
      Provenance.LookupIsExact(evidence.decisions, DecisionKey, d);
    }
    forall d | d in Decisions(blocks) && d.taskID in row.taskIDs ensures d.decisionID in row.decisionIDs {
      assert d.decisionID in Provenance.ClaimedDecisionIDs(row, evidence);
    }
  }

  lemma {:induction false} RowListsItsArtifacts(
    c: Contract, opts: Options, blocks: seq<Block>, status: string, o: Obligation, id: string)
    ensures var row := RowOf(c, opts, blocks, status, o);
            id in row.artifactIDs <==>
            exists k :: 0 <= k < |Artifacts(blocks)| && Artifacts(blocks)[k].artifactID == id && MadeByClaimant(c, blocks, o, k)
  {
    RowListsTaskArtifacts(c, opts, blocks, status, o);
    hide RowOf, Artifacts, Origins, TaskArtifacts, Closure.ArtifactIDs, Closure.ClaimingTaskIDs, Closure.ArtifactsOf;
    var taskIDs := Closure.ClaimingTaskIDs(c.tasks, o.id);
    Closure.ArtifactIDsExact(TaskArtifacts(blocks), taskIDs);
    forall t: string ensures id in Closure.ArtifactsOf(TaskArtifacts(blocks), t) <==> Made(Artifacts(blocks), Origins(blocks), t, id) {
      TaskArtifactsExact(blocks, t, id);
    }
    if id in RowOf(c, opts, blocks, status, o).artifactIDs {
      var t :| t in taskIDs && id in Closure.ArtifactsOf(TaskArtifacts(blocks), t);
      var k: nat :| k < |Artifacts(blocks)| && Artifacts(blocks)[k].artifactID == id && Origins(blocks)[k].taskID == t;
      assert MadeByClaimant(c, blocks, o, k);
    }
    if k: nat :| k < |Artifacts(blocks)| && Artifacts(blocks)[k].artifactID == id && MadeByClaimant(c, blocks, o, k) {
      assert Made(Artifacts(blocks), Origins(blocks), Origins(blocks)[k].taskID, id);
    }
  }

  lemma {:induction false} RowListsTaskArtifacts(c: Contract, opts: Options, blocks: seq<Block>, status: string, o: Obligation)
    ensures RowOf(c, opts, blocks, status, o).artifactIDs ==
            Closure.ArtifactIDs(TaskArtifacts(blocks), Closure.ClaimingTaskIDs(c.tasks, o.id))
  {
  }

  /** What the verifier's maps say of the artifact at position k. */
  lemma {:induction false} ArtifactAtPosition(
    c: Contract, w: World, opts: Options, blocks: seq<Block>, status: string, o: Obligation, k: nat)
    requires k < |Artifacts(blocks)|
    ensures var id, taskIDs := Artifacts(blocks)[k].artifactID, Closure.ClaimingTaskIDs(c.tasks, o.id);
            var last, makers := LastWins(Artifacts(blocks), ArtifactKey), LastMakers(Artifacts(blocks), Origins(blocks));
            && id in last && id in makers
            && (ProducedBy(EventsOf(w, opts, blocks, status), taskIDs, last[id]) <==> makers[id] in taskIDs)
            && (ProducedBy(EventsOf(w, opts, blocks, status), taskIDs, Artifacts(blocks)[k]) <==> MadeByClaimant(c, blocks, o, k))
  {
    var m := LastIndex(Artifacts(blocks), Origins(blocks), k);
    hide Artifacts, Origins, LastWins, LastMakers, ProducedBy;
    RunArtifactLookup(w, opts, blocks, status, m);
    RunArtifactLookup(w, opts, blocks, status, k);
  }

  lemma {:induction false} RowOfIsRow(c: Contract, opts: Options, blocks: seq<Block>, status: string, o: Obligation)
    ensures RowOf(c, opts, blocks, status, o).taskIDs == Closure.ClaimingTaskIDs(c.tasks, o.id)
  {
  }

  lemma {:induction false} LookupParts(c: Contract, w: World, opts: Options, blocks: seq<Block>, status: string)
    ensures var l := LookupOf(EvidenceOf(c, w, opts, blocks, status), LedgerOf(w, opts, blocks, status));
            l.artifacts == LastWins(Artifacts(blocks), ArtifactKey) && l.events == EventsOf(w, opts, blocks, status)
  {
  }

  /** The artifact check of a row, in the run's own terms. */
  lemma {:induction false} RowArtifactsExactly(c: Contract, w: World, opts: Options, blocks: seq<Block>, status: string, o: Obligation)
    ensures RowArtifactsAccepted(RowOf(c, opts, blocks, status, o), Artifacts(blocks),
                                 LookupOf(EvidenceOf(c, w, opts, blocks, status), LedgerOf(w, opts, blocks, status))) <==>
            LastByClaimant(c, blocks, o)
  {
    hide RowOf, LookupOf, ProducedBy, Artifacts, Origins, LastWins, LastMakers, EvidenceOf, LedgerOf, EventsOf,
      Closure.ClaimingTaskIDs, MadeByClaimant;
    var row, artifacts := RowOf(c, opts, blocks, status, o), Artifacts(blocks);
    var l := LookupOf(EvidenceOf(c, w, opts, blocks, status), LedgerOf(w, opts, blocks, status));
    LookupParts(c, w, opts, blocks, status);
    RowOfIsRow(c, opts, blocks, status, o);
    if LastByClaimant(c, blocks, o) {
      forall id | id in row.artifactIDs ensures id in l.artifacts && ProducedBy(l.events, row.taskIDs, l.artifacts[id]) {
        RowListsItsArtifacts(c, opts, blocks, status, o, id);
        var k: nat :| k < |artifacts| && artifacts[k].artifactID == id && MadeByClaimant(c, blocks, o, k);
        ArtifactAtPosition(c, w, opts, blocks, status, o, k);
      }
      forall a | a in artifacts && ProducedBy(l.events, row.taskIDs, a) ensures a.artifactID in row.artifactIDs {
        var k: nat :| k < |artifacts| && artifacts[k] == a;
        ArtifactAtPosition(c, w, opts, blocks, status, o, k);
        RowListsItsArtifacts(c, opts, blocks, status, o, a.artifactID);
      }
    }
    if RowArtifactsAccepted(row, artifacts, l) {
      forall k: nat | k < |artifacts| && MadeByClaimant(c, blocks, o, k)
        ensures var makers := LastMakers(artifacts, Origins(blocks));
                artifacts[k].artifactID in makers && makers[artifacts[k].artifactID] in row.taskIDs
      {
        RowListsItsArtifacts(c, opts, blocks, status, o, artifacts[k].artifactID);
        ArtifactAtPosition(c, w, opts, blocks, status, o, k);
      }
    }
  }

  lemma {:induction false} ProducersListed(c: Contract, w: World, opts: Options, blocks: seq<Block>, status: string)
    ensures var l := LookupOf(EvidenceOf(c, w, opts, blocks, status), LedgerOf(w, opts, blocks, status));
            forall a :: a in Artifacts(blocks) ==> ProducerLists(l.events, a)
  {
    forall a | a in Artifacts(blocks) ensures ProducerLists(EventsOf(w, opts, blocks, status), a) {
      var k :| 0 <= k < |Artifacts(blocks)| && Artifacts(blocks)[k] == a;
      RunArtifactLookup(w, opts, blocks, status, k);
    }
  }

  /** The parts of a run's evidence that the provenance check reads. */
  lemma {:induction false} EvidenceParts(c: Contract, w: World, opts: Options, blocks: seq<Block>, status: string)
    ensures var evidence := EvidenceOf(c, w, opts, blocks, status);
            && evidence.artifacts == Artifacts(blocks) && evidence.decisions == Decisions(blocks)
            && |evidence.matrix.rows| == |c.obligations|
            && forall i :: 0 <= i < |c.obligations| ==> evidence.matrix.rows[i] == RowOf(c, opts, blocks, status, c.obligations[i])
  {
  }

  lemma {:induction false} RowExactly(c: Contract, w: World, opts: Options, blocks: seq<Block>, status: string, o: Obligation)
    requires WellShaped(blocks)
    ensures var evidence := EvidenceOf(c, w, opts, blocks, status);
            RowAccepted(RowOf(c, opts, blocks, status, o), evidence, LookupOf(evidence, LedgerOf(w, opts, blocks, status))) <==>
            LastByClaimant(c, blocks, o)
  {
    EvidenceParts(c, w, opts, blocks, status);
    hide WellShaped, EvidenceOf, LedgerOf, LookupOf, RowOf, RowArtifactsAccepted, RowDecisionsAccepted, LastByClaimant;
    RowDecisionsPass(c, w, opts, blocks, status, o);
    RowArtifactsExactly(c, w, opts, blocks, status, o);
  }

  lemma {:induction false} RunProvenanceExactly(c: Contract, w: World, opts: Options, blocks: seq<Block>, status: string)
    requires WellShaped(blocks)
    ensures ProvenanceAccepted(EvidenceOf(c, w, opts, blocks, status), LedgerOf(w, opts, blocks, status)) <==>
            SharedIDsClaimed(c, blocks)
  {
    hide TakesAll, LookupOf, LastByClaimant, RowOf, WellShaped, EvidenceOf, ProducerLists, RowAccepted, Artifacts, Decisions,
      FinishedDrafts, StockOf, Chain;
    var evidence, events := EvidenceOf(c, w, opts, blocks, status), LedgerOf(w, opts, blocks, status);
    EvidenceParts(c, w, opts, blocks, status);
    DecisionsMatch(opts.runID, w.hash, blocks, status);
    ProducersListed(c, w, opts, blocks, status);
    var rows := evidence.matrix.rows;
    forall o ensures RowAccepted(RowOf(c, opts, blocks, status, o), evidence, LookupOf(evidence, events)) <==>
                     LastByClaimant(c, blocks, o) {
      RowExactly(c, w, opts, blocks, status, o);
    }
    if SharedIDsClaimed(c, blocks) {
      forall row | row in rows ensures RowAccepted(row, evidence, LookupOf(evidence, events)) {
        var i: nat :| i < |rows| && rows[i] == row;
        assert c.obligations[i] in c.obligations;
      }
    }
    if forall row :: row in rows ==> RowAccepted(row, evidence, LookupOf(evidence, events)) {
      forall o | o in c.obligations ensures LastByClaimant(c, blocks, o) {
        var i: nat :| i < |rows| && c.obligations[i] == o;
        assert rows[i] in rows;
      }
    }
  }

  lemma {:induction false} RunFailuresLocated(w: World, opts: Options, blocks: seq<Block>, status: string)
    ensures FailuresLocated(Failures(blocks), LedgerOf(w, opts, blocks, status))
    ensures forall f :: f in Failures(blocks) ==>
              LineOf(LedgerOf(w, opts, blocks, status), f.eventID) == Some(|Drafts(blocks)|)
  {
    LineLookup(opts.runID, w.hash, FinishedDrafts(blocks, status), |Drafts(blocks)|);
  }

  /** Run-to-verify completeness: whatever the adapter answers, the verifier accepts the ledger and evidence of a
      finished run, successful or failed, under any revocations, exactly when it can read the ledger's lines, no
      decision cites a revoked ticket, and artifact IDs are shared only where the last maker claims what the others
      claim. */
  lemma {:induction false} FinishedRunAccepted(
    c: Contract, w: World, opts: Options, blocks: seq<Block>, status: string, revoked: set<string>)
    requires LegalRun(c, w, opts, blocks)
    ensures Accepted(LedgerOf(w, opts, blocks, status), EvidenceOf(c, w, opts, blocks, status), w.hash, w.digest, revoked) <==>
            && LinesValid(LedgerOf(w, opts, blocks, status)) && NoRevokedTicket(Decisions(blocks), revoked)
            && SharedIDsClaimed(c, blocks)
  {
    var drafts := FinishedDrafts(blocks, status);
    LegalIsWellShaped(c, w, opts, blocks);
    RecordedChainAccepted(opts.runID, w.hash, drafts);
    SealedAt(opts.runID, w.hash, drafts, 0);
    RunProvenanceExactly(c, w, opts, blocks, status);
    RunFailuresLocated(w, opts, blocks, status);
  }
}
