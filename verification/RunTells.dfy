/** What a run says for itself: the rulings at each turn, the record of its failure and the heads of its evidence. */
module RunTells {
  import opened Text
  import opened Contracts
  import opened Ledger
  import opened Run
  import Closure
  import ClosureRows
  import LedgerGrammar
  import Paths
  import Policy
  import PolicyRulings
  import RunOutcome
  import RunRecords
  import ScheduleOrder

  // ----- rulings -----

  /** The policy's ruling on an effect of the task at turn k: by the contract's mode, paths and tickets, the run's
      revocations and the clock at that turn. */
  ghost predicate Rules(c: Contract, w: World, opts: Options, k: nat, task: Task, action: ActionRef, r: Policy.Ruling) {
    PolicyRulings.RightRuling(
      Policy.Input(mode := c.mode, readPaths := c.readPaths, writePaths := c.writePaths, taskID := task.id,
                   actions := task.effects, approvals := c.approvals, evaluationTime := w.now(k), revoked := opts.revoked),
      Policy.Clock(parse := w.oracle.parse, now := w.now(k), render := w.render), action, r)
  }

  /** The decision tells the ruling on the task's i-th effect. */
  ghost predicate TellsRuling(w: World, task: Task, i: nat, r: Policy.Ruling, d: Policy.Decision)
    requires i < |task.effects|
  {
    && d.decisionID == Policy.DecisionID(task.id, i) && d.taskID == task.id
    && d.effectType == task.effects[i].effectType && d.resource == Paths.SlashClean(task.effects[i].resource)
    && d.verdict == r.verdict && d.ticketID == r.ticketID && d.reason == w.render(r.reason)
  }

  /** At every turn there is one decision per declared effect, in order, and it tells the policy's ruling. */
  lemma {:induction false} TurnIsRuled(c: Contract, w: World, opts: Options, blocks: seq<Block>, k: nat, i: nat)
    returns (r: Policy.Ruling)
    requires LegalRun(c, w, opts, blocks) && k < |blocks| && i < |blocks[k].task.effects|
    ensures |blocks[k].decisions| == |blocks[k].task.effects|
    ensures Rules(c, w, opts, k, blocks[k].task, blocks[k].task.effects[i], r)
    ensures TellsRuling(w, blocks[k].task, i, r, blocks[k].decisions[i])
  {
    var task := blocks[k].task;
    RunOutcome.BlockAt(c, w, opts, blocks, k);
    hide LegalRun, Policy.EvaluateAction, PolicyRulings.RightRuling, NoneReady, DoneIDs, Paths.SlashClean, Policy.DecisionID;
    r := Policy.EvaluateAction(PolicyInput(c, task, opts, w.now(k)), ClockAt(w, k), task.effects[i]);
    PolicyRulings.RulingExactly(PolicyInput(c, task, opts, w.now(k)), ClockAt(w, k), task.effects[i]);
  }

  // ----- the first of a list -----

  lemma {:induction false} FirstDeniedAt(decisions: seq<Policy.Decision>) returns (i: nat)
    requires FirstDenied(decisions).Some?
    ensures i < |decisions| && FirstDenied(decisions) == Some(decisions[i]) && decisions[i].verdict == Policy.DENY
    ensures forall j :: 0 <= j < i ==> decisions[j].verdict != Policy.DENY
  {
    i := 0;
    if decisions[0].verdict != Policy.DENY {
      i := FirstDeniedAt(decisions[1..]);
      assert forall j :: 1 <= j < |decisions| ==> decisions[j] == decisions[1..][j - 1];
      i := i + 1;
    }
  }

  predicate IsMissed(o: Obligation, satisfied: set<string>) {
    o.required && o.id !in satisfied
  }

  lemma {:induction false} FirstUnsatisfiedAt(obligations: seq<Obligation>, satisfied: set<string>) returns (i: nat)
    requires FirstUnsatisfied(obligations, satisfied).Some?
    ensures i < |obligations| && FirstUnsatisfied(obligations, satisfied) == Some(obligations[i].id)
    ensures IsMissed(obligations[i], satisfied) && forall j :: 0 <= j < i ==> !IsMissed(obligations[j], satisfied)
  {
    i := 0;
    if !IsMissed(obligations[0], satisfied) {
      i := FirstUnsatisfiedAt(obligations[1..], satisfied);
      assert forall j :: 1 <= j < |obligations| ==> obligations[j] == obligations[1..][j - 1];
      i := i + 1;
    }
  }

  // ----- why a task failed -----

  /** The first denied decision of the turn is the i-th, and the message tells it. */
  ghost predicate DeniedBy(w: World, task: Task, decisions: seq<Policy.Decision>, i: nat, message: string) {
    && i < |decisions| && decisions[i].verdict == Policy.DENY
    && (forall j :: 0 <= j < i ==> decisions[j].verdict != Policy.DENY)
    && message == w.text(PolicyDenial(taskID := task.id, effectType := decisions[i].effectType,
                                      resource := decisions[i].resource, reason := decisions[i].reason))
  }

  /** The adapter's first error was its answer to the i-th effect. */
  ghost predicate BrokenBy(w: World, task: Task, firstCall: nat, i: nat, message: string) {
    && i < |task.effects| && LedgerGrammar.AllAnswered(w, task, firstCall, 0, i)
    && LedgerGrammar.AnswerTo(w, task, firstCall, i) == Err(message)
  }

  /** The first required obligation that no finished task claims is the i-th. */
  ghost predicate MissedBy(c: Contract, w: World, done: set<string>, i: nat, message: string) {
    var satisfied := SatisfiedObligations(c.tasks, done);
    && i < |c.obligations| && IsMissed(c.obligations[i], satisfied)
    && (forall j :: 0 <= j < i ==> !IsMissed(c.obligations[j], satisfied))
    && message == w.text(Unsatisfied(c.obligations[i].id))
  }

  /** Phase and message of a task that failed at turn k: a denial before anything else; then the adapter's first error
      for the kinds that act, and for the others what their check found. A review whose turn has come cannot fail. */
  ghost predicate WhyFailed(
    c: Contract, w: World, k: nat, b: Block, done: set<string>, firstCall: nat, phase: string, message: string)
  {
    if exists d :: d in b.decisions && d.verdict == Policy.DENY then
      phase == "policy" && exists i: nat :: DeniedBy(w, b.task, b.decisions, i, message)
    else if b.task.kind in {"scripted", "shell", "agent"} then
      phase == "adapter" && exists i: nat :: BrokenBy(w, b.task, firstCall, i, message)
    else
      && phase == "execution" && b.task.kind != "review"
      && (b.task.kind == "verify" ==> w.checkWrites(k) == Some(message))
      && (b.task.kind == "evaluate" ==> exists i: nat :: MissedBy(c, w, done, i, message))
      && (b.task.kind != "verify" && b.task.kind != "evaluate" ==> message == w.text(UnsupportedKind(b.task.kind)))
  }

  lemma {:induction false} ReadyReviewPasses(c: Contract, task: Task, w: World, done: set<string>, calls: nat, turn: nat)
    requires task.kind == "review" && forall d :: d in task.dependsOn ==> d in done
    ensures ExecuteTaskResult(c, task, w, done, calls, turn) == Produced([], 0)
  {
    RunOutcome.FirstIncompleteExactly(task.dependsOn, done);
  }

  lemma {:induction false} BrokenTells(c: Contract, w: World, k: nat, b: Block, done: set<string>, calls: nat)
    requires forall d :: d in b.task.dependsOn ==> d in done
    requires forall d :: d in b.decisions ==> d.verdict != Policy.DENY
    ensures var run := ExecuteTaskResult(c, b.task, w, done, calls, k);
            run.Broken? ==> WhyFailed(c, w, k, b, done, calls, FailurePhase(b.task), run.message)
  {
    var run := ExecuteTaskResult(c, b.task, w, done, calls, k);
    if run.Broken? {
      if RunsEffects(b.task) {
        LedgerGrammar.EffectsExactly(w, b.task, calls, 0);
        assert BrokenBy(w, b.task, calls, run.calls - 1, run.message);
      } else if b.task.kind == "review" {
        ReadyReviewPasses(c, b.task, w, done, calls, k);
        assert false;
      } else if b.task.kind == "evaluate" {
        var i := FirstUnsatisfiedAt(c.obligations, SatisfiedObligations(c.tasks, done));
        assert MissedBy(c, w, done, i, run.message);
      }
    }
  }

  lemma {:induction false} DeniedIffSome(decisions: seq<Policy.Decision>)
    ensures FirstDenied(decisions).Some? <==> exists d :: d in decisions && d.verdict == Policy.DENY
  {
    if decisions != [] {
      DeniedIffSome(decisions[1..]);
      assert decisions == [decisions[0]] + decisions[1..];
    }
  }

  function PhaseOf(outcome: Outcome): string {
    match outcome case Denied(_) => "policy" case Failed(phase, _, _) => phase case Done(_, _) => ""
  }

  lemma {:induction false} TurnTellsFailure(c: Contract, w: World, opts: Options, blocks: seq<Block>, k: nat)
    requires LegalRun(c, w, opts, blocks) && k < |blocks| && !blocks[k].outcome.Done?
    ensures WhyFailed(c, w, k, blocks[k], DoneIDs(blocks[..k]), CallCount(blocks[..k]),
                      PhaseOf(blocks[k].outcome), FailureText(blocks[k]))
  {
    var b, done, calls := blocks[k], DoneIDs(blocks[..k]), CallCount(blocks[..k]);
    RunOutcome.BlockAt(c, w, opts, blocks, k);
    DeniedIffSome(b.decisions);
    hide LegalRun, NoneReady, DoneIDs, CallCount, TaskPolicy, ExecuteTaskResult, FailurePhase, FirstDenied, WhyFailed;
    if FirstDenied(b.decisions).Some? {
      var i := FirstDeniedAt(b.decisions);
      assert DeniedBy(w, b.task, b.decisions, i, FailureText(b));
      DeniedTells(c, w, k, b, done, calls, i, FailureText(b));
    } else {
      BrokenTells(c, w, k, b, done, calls);
    }
  }

  lemma {:induction false} DeniedTells(
    c: Contract, w: World, k: nat, b: Block, done: set<string>, calls: nat, i: nat, message: string)
    requires DeniedBy(w, b.task, b.decisions, i, message)
    ensures WhyFailed(c, w, k, b, done, calls, "policy", message)
  {
    assert b.decisions[i] in b.decisions;
  }

  /** A run that stopped leaves one failure record. It names the ledger's last event before run_finished, which is the
      failed task_finished of the task that stopped it, and both tell why that task failed. */
  lemma {:induction false} FailureTold(c: Contract, w: World, opts: Options, blocks: seq<Block>)
    requires LegalRun(c, w, opts, blocks) && !AllDone(blocks)
    ensures |Failures(blocks)| == 1 && |Drafts(blocks)| > 0
    ensures var k, f := |blocks| - 1, Failures(blocks)[0];
            && f.failureID == "failure-000001" && f.eventID == EventID(|Drafts(blocks)|) && f.taskID == blocks[k].task.id
            && Drafts(blocks)[|Drafts(blocks)| - 1] == Plain(TaskFinished, f.taskID, "failed", f.reason, [])
            && WhyFailed(c, w, k, blocks[k], DoneIDs(blocks[..k]), CallCount(blocks[..k]), f.phase, f.reason)
  {
    TurnTellsFailure(c, w, opts, blocks, |blocks| - 1);
    FirstFailureID();
    hide WhyFailed, DoneIDs, CallCount, EventID, ZeroPad, GateDrafts;
    assert !blocks[|blocks| - 1].outcome.Done?;
  }

  lemma {:induction false} FirstFailureID()
    ensures "failure-" + ZeroPad(Digits(1), 6) == "failure-000001"
  {
    assert Digits(1) == "1";
    assert "0" + "1" == "01" && "0" + "01" == "001" && "0" + "001" == "0001";
    assert "0" + "0001" == "00001" && "0" + "00001" == "000001";
    PadOnce("1", 6);
    PadOnce("01", 6);
    PadOnce("001", 6);
    PadOnce("0001", 6);
    PadOnce("00001", 6);
    PadOnce("000001", 6);
  }

  lemma {:induction false} PadOnce(text: string, width: nat)
    ensures ZeroPad(text, width) == if |text| >= width then text else ZeroPad("0" + text, width)
  {
  }

  // ----- the ledger -----

  /** Each event tells its draft field by field, under the run's ID and its own number, links to the event before it or
      to sixty-four zeros, and carries the hash of all of that. */
  lemma {:induction false} EventTells(runID: string, hash: Hash, drafts: seq<Draft>, i: nat)
    requires i < |drafts|
    ensures var events, d := Chain(runID, hash, drafts), drafts[i];
            var body := events[i].body;
            && events[i].hash == hash(body)
            && body.schemaVersion == "covenant.event.v1" && body.runID == runID
            && body.sequence == i + 1 && body.eventID == EventID(i + 1)
            && (i > 0 ==> body.previousHash == events[i - 1].hash)
            && (i == 0 ==> |body.previousHash| == 64 && forall k :: 0 <= k < 64 ==> body.previousHash[k] == '0')
            && body.kind == d.kind && body.taskID == d.taskID && body.status == d.status && body.message == d.message
            && body.artifactIDs == d.artifactIDs && body.decisionID == d.decisionID && body.decision == d.decision
            && body.effectType == d.effectType && body.resource == d.resource && body.ticketID == d.ticketID
  {
    ChainAt(runID, hash, drafts, i);
    hide Chain, EventID;
    var before := Chain(runID, hash, drafts)[..i];
    assert i > 0 ==> before[i - 1] == Chain(runID, hash, drafts)[i - 1];
  }

  /** The text is this number in decimal digits. */
  predicate Writes(text: string, n: nat) {
    text != "" && (forall i :: 0 <= i < |text| ==> '0' <= text[i] <= '9') && DigitsValue(text) == n
  }

  /** The same without needless zeros in front. */
  predicate Shortest(text: string, n: nat) {
    Writes(text, n) && (n > 0 ==> text[0] != '0') && (n == 0 ==> |text| == 1)
  }

  lemma {:induction false} DigitsAreShortest(n: nat)
    ensures Shortest(Digits(n), n)
  {
    DigitsRoundTrip(n);
    if n >= 10 {
      DigitsAreShortest(n / 10);
      assert Digits(n)[0] == Digits(n / 10)[0];
    }
  }

  /** An event's ID is "event-" and its number, written in six digits or, if it needs more, without zeros in front. */
  lemma {:induction false} EventIDTells(n: nat)
    ensures var text := EventID(n);
            && |text| >= 12 && text[..6] == "event-" && Writes(text[6..], n) && (|text| > 12 ==> Shortest(text[6..], n))
  {
    DigitsAreShortest(n);
    PaddedWrites(Digits(n), n, 6);
    hide Digits, DigitsValue, ZeroPad;
    assert EventID(n)[6..] == ZeroPad(Digits(n), 6);
  }

  lemma {:induction false} PaddedWrites(text: string, n: nat, width: nat)
    requires Writes(text, n)
    ensures var padded := ZeroPad(text, width);
            Writes(padded, n) && |padded| >= width && (|padded| > width ==> padded == text)
    decreases width - |text|
  {
    if |text| < width {
      LeadingZero(text);
      PaddedWrites("0" + text, n, width);
    }
  }

  /** A decision's ID is "policy-", the task, a dash and the number of the effect, counted from one. */
  lemma {:induction false} DecisionIDTells(taskID: string, index: nat)
    ensures var id, m := Policy.DecisionID(taskID, index), 8 + |taskID|;
            && |id| > m && id[..7] == "policy-" && id[7..m - 1] == taskID && id[m - 1] == '-' && Shortest(id[m..], index + 1)
  {
    DigitsAreShortest(index + 1);
    hide Digits, DigitsValue;
    var id, m := Policy.DecisionID(taskID, index), 8 + |taskID|;
    assert id[7..m - 1] == taskID && id[m..] == Digits(index + 1);
  }

  // ----- the books behind the closure matrix -----

  lemma {:induction false} ListOf(m: map<string, seq<string>>, taskID: string, ids: seq<string>, t: string)
    ensures Closure.ArtifactsOf(AddArtifacts(m, taskID, ids), t) ==
            if t == taskID then Closure.ArtifactsOf(m, t) + ids else Closure.ArtifactsOf(m, t)
  {
    assert Closure.ArtifactsOf(m, taskID) + [] == Closure.ArtifactsOf(m, taskID);
  }

  /** The list files the task t by the last of these blocks. */
  ghost predicate FilesTask(m: map<string, seq<string>>, blocks: seq<Block>, t: string) {
    && (forall k :: 0 <= k < |blocks| && blocks[k].task.id == t ==> Closure.ArtifactsOf(m, t) == IDsOf(ArtifactsIn(blocks[k])))
    && ((forall k :: 0 <= k < |blocks| ==> blocks[k].task.id != t) ==> Closure.ArtifactsOf(m, t) == [])
  }

  lemma {:induction false} FilesMore(m: map<string, seq<string>>, before: seq<Block>, b: Block, t: string)
    requires FilesTask(m, before, t) && forall k :: 0 <= k < |before| ==> before[k].task.id != b.task.id
    ensures FilesTask(AddArtifacts(m, b.task.id, IDsOf(ArtifactsIn(b))), before + [b], t)
  {
    ListOf(m, b.task.id, IDsOf(ArtifactsIn(b)), t);
    hide AddArtifacts, Closure.ArtifactsOf, IDsOf, ArtifactsIn;
    assert [] + IDsOf(ArtifactsIn(b)) == IDsOf(ArtifactsIn(b));
    var blocks := before + [b];
    assert blocks[|before|] == b && forall k :: 0 <= k < |before| ==> blocks[k] == before[k];
  }

  /** The artifact list under which the matrix files a task: the IDs of what its block produced, in order, and nothing
      for a task without a block. */
  lemma {:induction false} TaskListTells(c: Contract, w: World, opts: Options, blocks: seq<Block>, t: string)
    requires LegalRun(c, w, opts, blocks)
    ensures FilesTask(TaskArtifacts(blocks), blocks, t)
  {
    TaskListStep(blocks);
    hide *;
    if blocks != [] {
      var n := |blocks| - 1;
      var before, b := blocks[..n], blocks[n];
      RunRecords.HistoryStep(c, w, opts, blocks);
      LastIsNew(c, w, opts, blocks);
      TaskListTells(c, w, opts, before, t);
      FilesMore(TaskArtifacts(before), before, b, t);
      assert before + [b] == blocks;
    }
  }

  lemma {:induction false} TaskListStep(blocks: seq<Block>)
    ensures blocks != [] ==>
              var before, b := blocks[..|blocks| - 1], blocks[|blocks| - 1];
              TaskArtifacts(blocks) == AddArtifacts(TaskArtifacts(before), b.task.id, IDsOf(ArtifactsIn(b)))
    ensures blocks == [] ==> forall t :: FilesTask(TaskArtifacts(blocks), blocks, t)
  {
    hide AddArtifacts, IDsOf, ArtifactsIn;
  }

  lemma {:induction false} LastIsNew(c: Contract, w: World, opts: Options, blocks: seq<Block>)
    requires LegalRun(c, w, opts, blocks) && blocks != []
    ensures forall k :: 0 <= k < |blocks| - 1 ==> blocks[k].task.id != blocks[|blocks| - 1].task.id
  {
    var n := |blocks| - 1;
    ScheduleOrder.TurnOf(c, w, opts, blocks, n);
    hide LegalRun, DoneIDs, NoneReady;
    forall k | 0 <= k < n ensures blocks[k].task.id != blocks[n].task.id {
      assert k < n && blocks[k].task.id == blocks[k].task.id;
    }
  }

  /** The status under which the matrix files a task: success, failed for the one that stopped the run, and otherwise
      none. */
  lemma {:induction false} StatusTells(c: Contract, w: World, opts: Options, blocks: seq<Block>, t: Task)
    requires LegalRun(c, w, opts, blocks) && t in c.tasks
    ensures t.id in Statuses(c, blocks)
    ensures var status := Statuses(c, blocks)[t.id];
            if exists k :: 0 <= k < |blocks| && blocks[k].task.id == t.id && blocks[k].outcome.Done? then status == "success"
            else if exists k :: 0 <= k < |blocks| && blocks[k].task.id == t.id then status == "failed"
            else status == ""
  {
    ScheduleOrder.DoneAt(blocks, t.id);
    ScheduleOrder.AllDoneAt(blocks);
    assert t.id in TaskIDs(c.tasks);
    if blocks != [] {
      LastIsNew(c, w, opts, blocks);
      forall m: nat | m + 1 < |blocks| ensures blocks[m].outcome.Done? {
        ScheduleOrder.EarlierDone(c, w, opts, blocks, m);
      }
    }
    hide LegalRun, DoneIDs, AllDone, TaskIDs;
  }

  // ----- the evidence -----

  /** What the evidence of a finished run says of the run as a whole: its IDs stand in both of its parts, its ledger
      digest is that of the ledger that it is left beside, and its status is the one that run_finished records. */
  lemma {:induction false} EvidenceTells(c: Contract, w: World, opts: Options, blocks: seq<Block>, status: string)
    ensures var evidence, ledger := EvidenceOf(c, w, opts, blocks, status), LedgerOf(w, opts, blocks, status);
            && evidence.runID == evidence.matrix.runID == opts.runID
            && evidence.contractDigest == evidence.matrix.contractDigest == opts.contractDigest
            && evidence.ledgerDigest == w.digest(ledger) && evidence.runStatus == status
            && |ledger| == |Drafts(blocks)| + 1
            && ledger[|Drafts(blocks)|].body.kind == RunFinished && ledger[|Drafts(blocks)|].body.status == status
  {
    EventTells(opts.runID, w.hash, FinishedDrafts(blocks, status), |Drafts(blocks)|);
    hide Drafts, Chain, EventID;
  }

  /** The matrix in the evidence has one row per obligation of the contract, which tells it by the contract's tasks, the
      statuses and artifacts of the run's own blocks, and the decisions that the evidence lists. */
  lemma {:induction false} RunMatrixTells(c: Contract, w: World, opts: Options, blocks: seq<Block>, status: string, i: nat)
    returns (claimants: seq<nat>, offsets: seq<nat>, rulings: seq<nat>)
    requires i < |c.obligations|
    ensures var evidence := EvidenceOf(c, w, opts, blocks, status);
            && |evidence.matrix.rows| == |c.obligations|
            && ClosureRows.TellsObligation(
                 Closure.Input(runID := evidence.runID, contractDigest := evidence.contractDigest,
                               runStatus := evidence.runStatus, obligations := c.obligations, tasks := c.tasks,
                               taskStatuses := Statuses(c, blocks), taskArtifacts := TaskArtifacts(blocks),
                               decisions := evidence.decisions),
                 c.obligations[i], evidence.matrix.rows[i], claimants, offsets, rulings)
  {
    claimants, offsets, rulings := ClosureRows.MatrixTells(ClosureInput(c, opts, blocks, status), i);
    hide Statuses, TaskArtifacts, Decisions, Artifacts, Failures, Chain, FinishedDrafts, ClosureRows.TellsObligation,
      Closure.Rows;
  }
}
