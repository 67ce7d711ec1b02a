/** Which runs write only lines that the event schema lets through. */
module RunLines {
  import opened Contracts
  import opened EventSchema
  import opened Ledger
  import opened Evidence
  import opened Run
  import Checksums
  import Paths
  import Policy
  import Validation
  import ValidContract

  // ----- one line -----

  /** A run whose ID is portable and whose hashes print as 64 hexadecimal digits. */
  ghost predicate Printable(runID: string, hash: Hash) {
    PortableID(runID) && forall b: Body :: Checksums.IsHexDigest(hash(b))
  }

  /** What the schema asks of the fields that an emit call supplies. */
  predicate GoodDraft(d: Draft) {
    && (d.status == "success" || d.status == "failed")
    && (forall id :: id in d.artifactIDs ==> PortableID(id))
    && if d.kind.PolicyDecided? then
         && PortableID(d.taskID) && DecisionIDShape(d.decisionID)
         && (d.decision == Policy.ALLOW || d.decision == Policy.DENY)
         && d.effectType in Validation.EFFECT_TYPES && d.resource != "" && OptionalID(d.ticketID)
       else
         && OptionalID(d.taskID) && d.decisionID == "" && d.decision == "" && d.effectType == "" && d.resource == ""
         && d.ticketID == ""
  }

  predicate GoodDrafts(drafts: seq<Draft>) {
    forall i :: 0 <= i < |drafts| ==> GoodDraft(drafts[i])
  }

  lemma {:induction false} GenesisIsHex()
    ensures Checksums.IsHexDigest(Genesis())
  {
  }

  lemma {:induction false} HashesAreHex(runID: string, hash: Hash, drafts: seq<Draft>)
    requires Printable(runID, hash)
    ensures Checksums.IsHexDigest(LastHash(Chain(runID, hash, drafts)))
  {
    if drafts == [] {
      GenesisIsHex();
    } else {
      ChainAt(runID, hash, drafts, |drafts| - 1);
    }
  }

  lemma {:induction false} LineExactly(runID: string, hash: Hash, drafts: seq<Draft>, i: nat)
    requires Printable(runID, hash) && i < |drafts|
    ensures ValidLine(Chain(runID, hash, drafts)[i]) <==> i < LAST_EVENT && GoodDraft(drafts[i])
  {
    ChainAt(runID, hash, drafts, i);
    HashesAreHex(runID, hash, drafts[..i]);
    EventIDShapeExactly(i + 1);
  }

  /** A recorded ledger is valid line by line exactly when its drafts are good and six digits number its events. */
  lemma {:induction false} LedgerExactly(runID: string, hash: Hash, drafts: seq<Draft>)
    requires Printable(runID, hash)
    ensures LinesValid(Chain(runID, hash, drafts)) <==> |drafts| <= LAST_EVENT && GoodDrafts(drafts)
  {
    var events := Chain(runID, hash, drafts);
    forall i: nat | i < |drafts| ensures ValidLine(events[i]) <==> i < LAST_EVENT && GoodDraft(drafts[i]) {
      LineExactly(runID, hash, drafts, i);
    }
    hide ValidLine, GoodDraft;
    assert forall i :: 0 <= i < |drafts| ==> events[i] in events;
    if |drafts| > LAST_EVENT {
      assert !ValidLine(events[LAST_EVENT]) && events[LAST_EVENT] in events;
    }
  }

  // ----- the decisions of a valid contract -----

  lemma {:induction false} CleanIsNotEmpty(p: string)
    ensures Paths.SlashClean(p) != ""
  {
    var q := Paths.Slashed(p);
    Paths.SegmentsAreNormal(q);
    if !Paths.IsAbs(q) && Paths.Segments(q) != [] {
      Paths.RelativeJoinHasNoLeadingSlash(Paths.Segments(q));
    }
  }

  /** A ruling names no ticket, or one of the contract's. */
  lemma {:induction false} TicketIsApproval(input: Policy.Input, clock: Policy.Clock, action: ActionRef)
    ensures var id := Policy.EvaluateAction(input, clock, action).ticketID;
            id == "" || exists t :: t in input.approvals && t.ticketID == id
  {
    var found := Policy.MatchingTicket(input.approvals, input.taskID, action.effectType,
                                       Paths.SlashClean(action.resource), Policy.EvaluationTime(input, clock), clock.parse);
    var k := Policy.MatchIsFirstCover(input.approvals, input.taskID, action.effectType,
                                      Paths.SlashClean(action.resource), Policy.EvaluationTime(input, clock), clock.parse);
    if !found.Missing? {
      assert input.approvals[k] in input.approvals;
    }
  }

  lemma {:induction false} DecisionIsGood(c: Contract, task: Task, opts: Options, w: World, turn: nat, i: nat)
    requires ValidContract.Valid(c, w.oracle) && task in c.tasks && i < |task.effects|
    ensures GoodDraft(PolicyDraft(TaskPolicy(c, task, opts, w, turn)[i]))
  {
    var input, clock := PolicyInput(c, task, opts, w.now(turn)), ClockAt(w, turn);
    var d := TaskPolicy(c, task, opts, w, turn)[i];
    assert d == Policy.DecisionFor(input, clock, i);
    assert ValidContract.ValidTask(task, ValidContract.ObligationIDs(c.obligations)) && task.effects[i] in task.effects;
    DecisionIDHasShape(task.id, i);
    CleanIsNotEmpty(task.effects[i].resource);
    TicketIsApproval(input, clock, task.effects[i]);
    assert d.taskID == task.id && d.effectType in Validation.EFFECT_TYPES;
    assert OptionalID(d.ticketID) by {
      if d.ticketID != "" {
        var t :| t in c.approvals && t.ticketID == d.ticketID;
        assert ValidContract.ValidTicket(t, c.tasks, w.oracle.parse);
      }
    }
    assert d.verdict == Policy.ALLOW || d.verdict == Policy.DENY;
  }

  // ----- a whole run -----

  predicate AllPortable(artifacts: seq<ArtifactRef>) {
    forall i :: 0 <= i < |artifacts| ==> PortableID(artifacts[i].artifactID)
  }

  lemma {:induction false} GoodConcat(a: seq<Draft>, b: seq<Draft>)
    ensures GoodDrafts(a + b) <==> GoodDrafts(a) && GoodDrafts(b)
  {
    hide GoodDraft;
    assert forall i :: 0 <= i < |a| ==> (a + b)[i] == a[i];
    assert forall i :: 0 <= i < |b| ==> (a + b)[|a| + i] == b[i];
  }

  lemma {:induction false} PortableConcat(a: seq<ArtifactRef>, b: seq<ArtifactRef>)
    ensures AllPortable(a + b) <==> AllPortable(a) && AllPortable(b)
  {
    hide PortableID;
    assert forall i :: 0 <= i < |a| ==> (a + b)[i] == a[i];
    assert forall i :: 0 <= i < |b| ==> (a + b)[|a| + i] == b[i];
  }

  lemma {:induction false} OutcomeExactly(taskID: string, outcome: Outcome)
    requires PortableID(taskID)
    ensures GoodDrafts(OutcomeDrafts(taskID, outcome)) <==> outcome.Done? ==> AllPortable(outcome.artifacts)
  {
    match outcome
    case Denied(_) =>
    case Failed(_, _, _) =>
    case Done(artifacts, _) =>
      var last := Plain(TaskFinished, taskID, "success", "task completed", IDsOf(artifacts));
      GoodConcat(ArtifactDrafts(taskID, artifacts), [last]);
      forall i | 0 <= i < |artifacts|
        ensures GoodDraft(ArtifactDrafts(taskID, artifacts)[i]) <==> PortableID(artifacts[i].artifactID)
      {
        assert [artifacts[i].artifactID][0] in [artifacts[i].artifactID];
      }
      assert GoodDraft(last) <==> forall i :: 0 <= i < |artifacts| ==> PortableID(IDsOf(artifacts)[i]);
  }

  lemma {:induction false} TaskIsPortable(c: Contract, oracle: Validation.Oracle, task: Task)
    requires ValidContract.Valid(c, oracle) && task in c.tasks
    ensures PortableID(task.id)
  {
    assert ValidContract.ValidTask(task, ValidContract.ObligationIDs(c.obligations));
  }

  lemma {:induction false} BlockShape(c: Contract, w: World, opts: Options, before: seq<Block>, b: Block)
    requires LegalBlock(c, w, opts, before, b)
    ensures b.task in c.tasks && b.decisions == TaskPolicy(c, b.task, opts, w, |before|)
    ensures |b.decisions| == |b.task.effects|
  {
    assert b.task == c.tasks[b.index];
  }

  lemma {:induction false} StartIsGood(task: Task)
    requires PortableID(task.id)
    ensures GoodDrafts([Started(task)])
  {
  }

  lemma {:induction false} GateIsGood(c: Contract, w: World, opts: Options, before: seq<Block>, b: Block)
    requires ValidContract.Valid(c, w.oracle) && LegalBlock(c, w, opts, before, b)
    ensures GoodDrafts(GateDrafts(b.task, b.decisions)) && PortableID(b.task.id)
  {
    hide GoodDraft, ValidContract.Valid, PortableID, LegalBlock, Started, PolicyDraft, TaskPolicy;
    BlockShape(c, w, opts, before, b);
    TaskIsPortable(c, w.oracle, b.task);
    StartIsGood(b.task);
    forall i: nat | i < |b.decisions| ensures GoodDraft(DecisionDrafts(b.decisions)[i]) {
      DecisionIsGood(c, b.task, opts, w, |before|, i);
    }
    GoodConcat([Started(b.task)], DecisionDrafts(b.decisions));
  }

  lemma {:induction false} StampKeepsPortable(artifacts: seq<ArtifactRef>, base: nat)
    ensures AllPortable(Stamp(artifacts, base)) <==> AllPortable(artifacts)
  {
    hide PortableID;
    assert forall i :: 0 <= i < |artifacts| ==> Stamp(artifacts, base)[i].artifactID == artifacts[i].artifactID;
  }

  lemma {:induction false} DoneArtifacts(b: Block)
    ensures (b.outcome.Done? ==> AllPortable(b.outcome.artifacts)) <==> AllPortable(ArtifactsIn(b))
  {
  }

  lemma {:induction false} BeginningIsGood()
    ensures GoodDrafts([RUN_STARTED]) && AllPortable([])
  {
  }

  lemma {:induction false} DraftsExactly(c: Contract, w: World, opts: Options, blocks: seq<Block>)
    requires ValidContract.Valid(c, w.oracle) && LegalRun(c, w, opts, blocks)
    ensures GoodDrafts(Drafts(blocks)) <==> AllPortable(Artifacts(blocks))
  {
    BeginningIsGood();
    hide GoodDrafts, AllPortable, GoodDraft, PortableID, ValidContract.Valid, LegalBlock, OutcomeDrafts, GateDrafts, Stamp, ArtifactsIn, AllDone,
      GateLength;
    if blocks != [] {
      var before, b := blocks[..|blocks| - 1], blocks[|blocks| - 1];
      DraftsExactly(c, w, opts, before);
      GateIsGood(c, w, opts, before, b);
      OutcomeExactly(b.task.id, b.outcome);
      GoodConcat(GateDrafts(b.task, b.decisions), OutcomeDrafts(b.task.id, b.outcome));
      GoodConcat(Drafts(before), BlockDrafts(b));
      PortableConcat(Artifacts(before), Stamp(ArtifactsIn(b), GateLength(before, b)));
      StampKeepsPortable(ArtifactsIn(b), GateLength(before, b));
      DoneArtifacts(b);
    }
  }

  lemma {:induction false} FinishIsGood(status: string)
    requires status == "success" || status == "failed"
    ensures GoodDrafts([RunFinishedDraft(status)])
  {
  }

  /** Every line of a finished run of a valid contract passes the event schema exactly when the adapter's artifact
      IDs are portable and the run has at most 999999 events. */
  lemma {:induction false} RunLinesExactly(c: Contract, w: World, opts: Options, blocks: seq<Block>, status: string)
    requires ValidContract.Valid(c, w.oracle) && LegalRun(c, w, opts, blocks) && Printable(opts.runID, w.hash)
    requires status == "success" || status == "failed"
    ensures LinesValid(LedgerOf(w, opts, blocks, status)) <==>
            |FinishedDrafts(blocks, status)| <= LAST_EVENT && AllPortable(Artifacts(blocks))
  {
    hide GoodDrafts, LinesValid, ValidContract.Valid, LegalRun, Printable, AllPortable, Drafts, Chain, RunFinishedDraft,
      Artifacts;
    FinishIsGood(status);
    LedgerExactly(opts.runID, w.hash, FinishedDrafts(blocks, status));
    DraftsExactly(c, w, opts, blocks);
    GoodConcat(Drafts(blocks), [RunFinishedDraft(status)]);
  }
}
