/** How a run's error, its closure matrix and its evidence agree. */
module RunOutcome {
  import opened Text
  import opened Contracts
  import opened Cycles
  import opened Ledger
  import opened EventSchema
  import opened Run
  import opened Verifier
  import Executor
  import Scheduler
  import RunVerify
  import LedgerGrammar
  import Paths
  import Policy
  import Closure
  import Validation
  import ValidContract

  // ----- tickets -----

  lemma {:induction false} AllowedTicketIsLive(input: Policy.Input, clock: Policy.Clock, action: ActionRef)
    ensures var ruling := Policy.EvaluateAction(input, clock, action);
            ruling.verdict == Policy.ALLOW ==> ruling.ticketID == "" || ruling.ticketID !in input.revoked
  {
  }

  /** The first approved ticket for the effect carries an expiry of blanks, which validation takes for none. */
  ghost predicate BlankExpiry(approvals: seq<ApprovalTicket>, taskID: string, action: ActionRef, parse: string -> Option<int>) {
    exists k: nat ::
      && Policy.IsFirstCover(approvals, k, taskID, action.effectType, Paths.SlashClean(action.resource))
      && approvals[k].expiresAt != "" && TrimSpace(approvals[k].expiresAt) == "" && parse(approvals[k].expiresAt).None?
  }

  /** A validated ticket has an unreadable expiry exactly when it consists of blanks. */
  lemma {:induction false} ValidTicketExpiry(c: Contract, oracle: Validation.Oracle, t: ApprovalTicket)
    requires ValidContract.Valid(c, oracle) && t in c.approvals
    ensures oracle.parse(t.expiresAt).None? ==> TrimSpace(t.expiresAt) == ""
  {
    assert ValidContract.ValidTicket(t, c.tasks, oracle.parse);
  }

  lemma {:induction false} InvalidExpirationExactly(
    c: Contract, oracle: Validation.Oracle, taskID: string, action: ActionRef, now: int)
    requires ValidContract.Valid(c, oracle)
    ensures var resource := Paths.SlashClean(action.resource);
            Policy.MatchingTicket(c.approvals, taskID, action.effectType, resource, now, oracle.parse).InvalidExpiration? <==>
            BlankExpiry(c.approvals, taskID, action, oracle.parse)
  {
    hide ValidContract.Valid, Policy.Covers, TrimSpace, Paths.SlashClean;
    var resource := Paths.SlashClean(action.resource);
    var found := Policy.MatchingTicket(c.approvals, taskID, action.effectType, resource, now, oracle.parse);
    var k := Policy.MatchIsFirstCover(c.approvals, taskID, action.effectType, resource, now, oracle.parse);
    Policy.MatchTellsExpiry(c.approvals, taskID, action.effectType, resource, now, oracle.parse);
    if !found.Missing? {
      assert c.approvals[k] in c.approvals;
      ValidTicketExpiry(c, oracle, c.approvals[k]);
    }
  }

  const TICKETED: set<string> := {"process.spawn", "network.request", "claim.publish"}

  /** For a contract that passes validation, an effect is denied for an invalid expiration exactly when it needs a
      ticket and its first approved one carries an expiry of blanks. */
  lemma {:induction false} BadExpirationExactly(c: Contract, task: Task, opts: Options, w: World, turn: nat, action: ActionRef)
    requires ValidContract.Valid(c, w.oracle)
    ensures var ruling := Policy.EvaluateAction(PolicyInput(c, task, opts, w.now(turn)), ClockAt(w, turn), action);
            ruling.verdict == Policy.DENY && ruling.reason.TicketBadExpiration? <==>
            && c.mode == "strict" && action.effectType in TICKETED
            && BlankExpiry(c.approvals, task.id, action, w.oracle.parse)
  {
    var now := Policy.EvaluationTime(PolicyInput(c, task, opts, w.now(turn)), ClockAt(w, turn));
    hide ValidContract.Valid, Policy.MatchingTicket, BlankExpiry, Policy.FullEvidenceReason, Paths.SlashClean;
    InvalidExpirationExactly(c, w.oracle, task.id, action, now);
  }

  lemma {:induction false} TaskTicketsLive(c: Contract, task: Task, opts: Options, w: World, turn: nat)
    ensures forall d :: d in TaskPolicy(c, task, opts, w, turn) && d.verdict == Policy.ALLOW && d.ticketID != "" ==>
              d.ticketID !in opts.revoked
  {
    var input, clock := PolicyInput(c, task, opts, w.now(turn)), ClockAt(w, turn);
    forall d | d in TaskPolicy(c, task, opts, w, turn) && d.verdict == Policy.ALLOW && d.ticketID != ""
      ensures d.ticketID !in opts.revoked
    {
      var i :| 0 <= i < |task.effects| && Policy.TaskDecisions(input, clock)[i] == d;
      AllowedTicketIsLive(input, clock, task.effects[i]);
    }
  }

  lemma {:induction false} NothingDenied(b: Block, d: Policy.Decision)
    requires LedgerGrammar.BlockShape(b) && b.outcome.Done? && d in b.decisions
    ensures d.verdict == Policy.ALLOW
  {
    var i :| 0 <= i < |b.decisions| && b.decisions[i] == d;
  }

  lemma {:induction false} BlockTicketsLive(c: Contract, w: World, opts: Options, before: seq<Block>, b: Block)
    requires LegalBlock(c, w, opts, before, b) && b.outcome.Done?
    ensures NoRevokedTicket(b.decisions, opts.revoked)
  {
    LedgerGrammar.MadeBlock(c, w, opts, before, b.index);
    TaskTicketsLive(c, b.task, opts, w, |before|);
    forall d | d in b.decisions && d.ticketID != "" ensures d.ticketID !in opts.revoked {
      NothingDenied(b, d);
    }
  }

  /** A history of successes used no ticket that the run itself held revoked. */
  lemma {:induction false} SuccessUsesLiveTickets(c: Contract, w: World, opts: Options, blocks: seq<Block>)
    requires LegalRun(c, w, opts, blocks) && AllDone(blocks)
    ensures NoRevokedTicket(Decisions(blocks), opts.revoked)
  {
    if blocks != [] {
      var before, b := blocks[..|blocks| - 1], blocks[|blocks| - 1];
      SuccessUsesLiveTickets(c, w, opts, before);
      BlockTicketsLive(c, w, opts, before, b);
    }
  }

  // ----- denials -----

  lemma {:induction false} BlockAt(c: Contract, w: World, opts: Options, blocks: seq<Block>, k: nat)
    requires LegalRun(c, w, opts, blocks) && k < |blocks|
    ensures LegalBlock(c, w, opts, blocks[..k], blocks[k])
  {
    var n := |blocks| - 1;
    if k < n {
      BlockAt(c, w, opts, blocks[..n], k);
      assert blocks[..n][..k] == blocks[..k];
    }
  }

  /** A task is denied exactly when one of its effects is not permitted at its turn; otherwise all of them are,
      whatever the adapter does with them. */
  lemma {:induction false} DeniedExactly(c: Contract, w: World, opts: Options, blocks: seq<Block>, k: nat)
    requires LegalRun(c, w, opts, blocks) && k < |blocks|
    ensures var task := blocks[k].task;
            blocks[k].outcome.Denied? <==>
            exists i :: 0 <= i < |task.effects|
              && !Policy.Permitted(PolicyInput(c, task, opts, w.now(k)), ClockAt(w, k), task.effects[i])
  {
    BlockAt(c, w, opts, blocks, k);
    var task := blocks[k].task;
    LedgerGrammar.MadeBlock(c, w, opts, blocks[..k], blocks[k].index);
    var decisions := blocks[k].decisions;
    forall i | 0 <= i < |task.effects|
      ensures decisions[i].verdict == Policy.ALLOW <==>
              Policy.Permitted(PolicyInput(c, task, opts, w.now(k)), ClockAt(w, k), task.effects[i])
    {
      Policy.AllowedExactly(PolicyInput(c, task, opts, w.now(k)), ClockAt(w, k), task.effects[i]);
    }
  }

  // ----- obligations -----

  predicate Claimed(tasks: seq<Task>, id: string) {
    exists i :: 0 <= i < |tasks| && id in tasks[i].obligations
  }

  lemma {:induction false} FirstUnsatisfiedExactly(obligations: seq<Obligation>, satisfied: set<string>)
    ensures FirstUnsatisfied(obligations, satisfied).None? <==>
            forall o :: o in obligations && o.required ==> o.id in satisfied
  {
    if obligations != [] {
      FirstUnsatisfiedExactly(obligations[1..], satisfied);
      assert obligations == [obligations[0]] + obligations[1..];
    }
  }

  lemma {:induction false} SatisfiedWhenAllDone(tasks: seq<Task>, id: string)
    ensures id in SatisfiedObligations(tasks, TaskIDs(tasks)) <==> Claimed(tasks, id)
  {
    if i :| 0 <= i < |tasks| && id in tasks[i].obligations {
      assert tasks[i] in tasks;
    }
  }

  lemma {:induction false} FirstIncompleteExactly(deps: seq<string>, done: set<string>)
    ensures FirstIncomplete(deps, done).None? <==> forall d :: d in deps ==> d in done
  {
    if deps != [] {
      FirstIncompleteExactly(deps[1..], done);
      assert deps == [deps[0]] + deps[1..];
    }
  }

  /** What each kind of task needs in order to succeed once it is allowed: answers without error for scripted, shell
      and agent tasks, the declared writes for verify, finished dependencies for review, and every required obligation
      claimed by a finished task for evaluate. */
  ghost predicate Accomplished(c: Contract, task: Task, w: World, done: set<string>, calls: nat, turn: nat) {
    if RunsEffects(task) then LedgerGrammar.AllAnswered(w, task, calls, 0, |task.effects|)
    else if task.kind == "verify" then w.checkWrites(turn).None?
    else if task.kind == "review" then forall d :: d in task.dependsOn ==> d in done
    else
      && task.kind == "evaluate"
      && forall o :: o in c.obligations && o.required ==> o.id in SatisfiedObligations(c.tasks, done)
  }

  /** An allowed task succeeds exactly when it accomplishes what its kind needs. */
  lemma {:induction false} SucceedsExactly(c: Contract, task: Task, w: World, done: set<string>, calls: nat, turn: nat)
    ensures ExecuteTaskResult(c, task, w, done, calls, turn).Produced? <==> Accomplished(c, task, w, done, calls, turn)
  {
    if RunsEffects(task) {
      LedgerGrammar.EffectsExactly(w, task, calls, 0);
    } else if task.kind == "review" {
      FirstIncompleteExactly(task.dependsOn, done);
    } else {
      FirstUnsatisfiedExactly(c.obligations, SatisfiedObligations(c.tasks, done));
    }
  }

  /** When every task has succeeded, evidence is missing exactly if some required obligation is claimed by no task. */
  lemma {:induction false} MissingEvidenceExactly(c: Contract)
    ensures FirstUnsatisfied(c.obligations, SatisfiedObligations(c.tasks, TaskIDs(c.tasks))).None? <==>
            forall o :: o in c.obligations && o.required ==> Claimed(c.tasks, o.id)
  {
    FirstUnsatisfiedExactly(c.obligations, SatisfiedObligations(c.tasks, TaskIDs(c.tasks)));
    forall o | o in c.obligations
      ensures o.id in SatisfiedObligations(c.tasks, TaskIDs(c.tasks)) <==> Claimed(c.tasks, o.id)
    {
      SatisfiedWhenAllDone(c.tasks, o.id);
    }
  }

  ghost predicate RequiredClosed(m: Closure.Matrix) {
    forall row :: row in m.rows && row.required ==> row.status == Closure.CLOSED
  }

  ghost predicate AllOpen(m: Closure.Matrix) {
    forall row :: row in m.rows ==> row.status == Closure.OPEN
  }

  lemma {:induction false} SuccessCloses(c: Contract, opts: Options, blocks: seq<Block>)
    requires AllDone(blocks) && DoneIDs(blocks) == TaskIDs(c.tasks)
    requires forall o :: o in c.obligations && o.required ==> Claimed(c.tasks, o.id)
    ensures var m := Closure.MatrixOf(ClosureInput(c, opts, blocks, "success"));
            m.status == Closure.ACCEPTED && RequiredClosed(m)
  {
    var input := ClosureInput(c, opts, blocks, "success");
    forall o | o in input.obligations && o.required
      ensures exists i :: 0 <= i < |input.tasks| && o.id in input.tasks[i].obligations
                && input.tasks[i].id in input.taskStatuses && input.taskStatuses[input.tasks[i].id] == "success"
    {
      var i :| 0 <= i < |c.tasks| && o.id in c.tasks[i].obligations;
      assert c.tasks[i] in c.tasks;
    }
    Closure.AcceptedExactly(input);
    var m := Closure.MatrixOf(input);
    forall row | row in m.rows && row.required ensures row.status == Closure.CLOSED {
      var k :| 0 <= k < |m.rows| && m.rows[k] == row;
    }
  }

  lemma {:induction false} FailureOpens(c: Contract, opts: Options, blocks: seq<Block>)
    ensures var m := Closure.MatrixOf(ClosureInput(c, opts, blocks, "failed"));
            m.status == Closure.REJECTED && AllOpen(m)
  {
    Closure.FailedRunStaysOpen(ClosureInput(c, opts, blocks, "failed"));
  }

  // ----- the outcome of Execute -----

  /** What a finished run's error says about its evidence. */
  ghost predicate Agrees(c: Contract, w: World, opts: Options, result: Executor.RunResult) {
    && (result.error.None? ==>
          && result.evidence.Some? && result.evidence.value.runStatus == "success"
          && result.evidence.value.failures == []
          && result.evidence.value.matrix.status == Closure.ACCEPTED && RequiredClosed(result.evidence.value.matrix)
          && NoRevokedTicket(result.evidence.value.decisions, opts.revoked))
    && (result.error.Some? && result.evidence.Some? ==>
          && result.evidence.value.runStatus == "failed"
          && |result.evidence.value.failures| == 1
          && result.evidence.value.matrix.status == Closure.REJECTED && AllOpen(result.evidence.value.matrix))
  }

  lemma {:induction false} SuccessAgrees(c: Contract, w: World, opts: Options, blocks: seq<Block>)
    requires LegalRun(c, w, opts, blocks) && AllDone(blocks) && DoneIDs(blocks) == TaskIDs(c.tasks)
    requires forall o :: o in c.obligations && o.required ==> Claimed(c.tasks, o.id)
    ensures Agrees(c, w, opts, Executor.RunResult(LedgerOf(w, opts, blocks, "success"),
                                                  Some(EvidenceOf(c, w, opts, blocks, "success")), None))
  {
    SuccessCloses(c, opts, blocks);
    SuccessUsesLiveTickets(c, w, opts, blocks);
  }

  lemma {:induction false} FailureAgrees(c: Contract, w: World, opts: Options, blocks: seq<Block>, error: Executor.RunError)
    requires LegalRun(c, w, opts, blocks) && !AllDone(blocks)
    ensures Agrees(c, w, opts, Executor.RunResult(LedgerOf(w, opts, blocks, "failed"),
                                                  Some(EvidenceOf(c, w, opts, blocks, "failed")), Some(error)))
  {
    FailureOpens(c, opts, blocks);
  }

  /** Run status, closure and evidence agree at every end of Execute; evidence is missing exactly when every
      task succeeded and a required obligation is claimed by none. */
  lemma {:induction false} StatusAndClosureAgree(
    c: Contract, w: World, opts: Options, blocks: seq<Block>, result: Executor.RunResult)
    requires Scheduler.Describes(c, w, opts, blocks, result)
    ensures Agrees(c, w, opts, result)
    ensures result.evidence.None? <==>
            AllDone(blocks) && !(forall o :: o in c.obligations && o.required ==> Claimed(c.tasks, o.id))
  {
    if AllDone(blocks) {
      MissingEvidenceExactly(c);
      if result.evidence.Some? {
        SuccessAgrees(c, w, opts, blocks);
      }
    } else {
      FailureAgrees(c, w, opts, blocks, Executor.TaskError(FailureText(blocks[|blocks| - 1])));
    }
  }

  // ----- a valid contract whose successful run leaves no evidence -----

  /** A task without effects or dependencies that claims one obligation. */
  function LoneTask(id: string, adapter: string, claimed: string): Task {
    Task(id, "scripted", adapter, [], [claimed], 1, [])
  }

  /** A contract that requires two obligations and has one task. */
  function TwoObligations(objective: string, root: string, task: Task, first: string, second: string): Contract {
    Contract(Validation.CONTRACT_SCHEMA, objective, root, [], [],
             [Obligation(first, "first", true), Obligation(second, "second", true)], [task], "strict", [], [first, second])
  }

  lemma {:induction false} LoneTaskHasNoCycle(task: Task)
    requires task.dependsOn == []
    ensures !HasClosedWalk(DependencyMap([task]))
  {
    var deps := DependencyMap([task]);
    assert [task][..0] == [];
    assert DependencyMap([]) == map[];
    forall walk: seq<string> | |walk| >= 2 ensures !IsWalk(deps, walk) {
      assert !Edge(deps, walk[0], walk[0 + 1]);
    }
  }

  lemma {:induction false} TwoObligationsValid(
    objective: string, root: string, id: string, adapter: string, first: string, second: string, oracle: Validation.Oracle)
    requires TrimSpace(objective) != "" && ValidContract.GoodPath(root) && TrimSpace(adapter) != ""
    requires ValidContract.GoodID(id) && ValidContract.GoodID(first) && ValidContract.GoodID(second) && first != second
    requires oracle.taskSchemaOk(LoneTask(id, adapter, first))
    ensures ValidContract.Valid(TwoObligations(objective, root, LoneTask(id, adapter, first), first, second), oracle)
  {
    hide ValidContract.GoodID, ValidContract.GoodPath, TrimSpace, HasClosedWalk;
    var task := LoneTask(id, adapter, first);
    var c := TwoObligations(objective, root, task, first, second);
    assert ValidContract.ValidObligations(c) by {
      assert c.obligations[0] in c.obligations && c.obligations[0].required;
    }
    assert ValidContract.ObligationIDs(c.obligations) == {first, second} by {
      assert c.obligations[0] in c.obligations && c.obligations[1] in c.obligations;
    }
    assert ValidContract.ValidTask(task, {first, second});
    assert ValidContract.ValidTasks(c, oracle.taskSchemaOk);
    LoneTaskHasNoCycle(task);
  }

  lemma {:induction false} TwoObligationsRun(
    objective: string, root: string, id: string, adapter: string, first: string, second: string, w: World, opts: Options)
    requires first != second
    ensures var task := LoneTask(id, adapter, first);
            var c, blocks := TwoObligations(objective, root, task, first, second), [Block(0, task, [], Done([], 0))];
            && LegalRun(c, w, opts, blocks) && AllDone(blocks) && DoneIDs(blocks) == TaskIDs(c.tasks)
  {
    var task := LoneTask(id, adapter, first);
    var c, b := TwoObligations(objective, root, task, first, second), Block(0, task, [], Done([], 0));
    assert [b][..0] == [];
    assert TaskPolicy(c, task, opts, w, 0) == [];
    assert LegalBlock(c, w, opts, [], b);
    assert LegalRun(c, w, opts, []);
    assert DoneIDs([b]) == {id} == TaskIDs(c.tasks);
  }

  lemma {:induction false} SecondIsUnsatisfied(
    objective: string, root: string, id: string, adapter: string, first: string, second: string)
    requires first != second
    ensures var c := TwoObligations(objective, root, LoneTask(id, adapter, first), first, second);
            FirstUnsatisfied(c.obligations, SatisfiedObligations(c.tasks, TaskIDs(c.tasks))) == Some(second)
  {
    var task := LoneTask(id, adapter, first);
    var c := TwoObligations(objective, root, task, first, second);
    var satisfied := SatisfiedObligations(c.tasks, TaskIDs(c.tasks));
    SatisfiedWhenAllDone(c.tasks, first);
    SatisfiedWhenAllDone(c.tasks, second);
    assert Claimed(c.tasks, first) by {
      assert first in c.tasks[0].obligations;
    }
    assert !Claimed(c.tasks, second);
    assert c.obligations[1..][0] == c.obligations[1];
  }

  /** What Execute leaves of a run whose tasks all succeeded without satisfying the obligation. */
  function WithoutEvidence(w: World, opts: Options, blocks: seq<Block>, obligationID: string): Executor.RunResult {
    Executor.RunResult(Chain(opts.runID, w.hash, Drafts(blocks)), None, Some(Executor.ObligationUnsatisfied(obligationID)))
  }

  lemma {:induction false} SecondIsLost(
    objective: string, root: string, id: string, adapter: string, first: string, second: string, w: World, opts: Options)
    requires first != second
    ensures var task := LoneTask(id, adapter, first);
            var c, blocks := TwoObligations(objective, root, task, first, second), [Block(0, task, [], Done([], 0))];
            AllDone(blocks) && Scheduler.Describes(c, w, opts, blocks, WithoutEvidence(w, opts, blocks, second))
  {
    hide LegalRun, Chain, Drafts;
    TwoObligationsRun(objective, root, id, adapter, first, second, w, opts);
    SecondIsUnsatisfied(objective, root, id, adapter, first, second);
  }

  lemma {:induction false} PlainLettersAreGood()
    ensures ValidContract.GoodID("t") && ValidContract.GoodID("a") && ValidContract.GoodID("b")
    ensures TrimSpace("o") != "" && TrimSpace("local") != "" && ValidContract.GoodPath(".")
  {
  }

  /** A valid contract whose only task succeeds and whose run still ends without evidence, whatever the clock, the
      adapter and the revocations are. */
  lemma {:induction false} UnclaimedLosesEvidence(w: World, opts: Options)
    requires w.oracle.taskSchemaOk(LoneTask("t", "local", "a"))
    ensures var task := LoneTask("t", "local", "a");
            var c, blocks := TwoObligations("o", ".", task, "a", "b"), [Block(0, task, [], Done([], 0))];
            && ValidContract.Valid(c, w.oracle) && AllDone(blocks)
            && Scheduler.Describes(c, w, opts, blocks, WithoutEvidence(w, opts, blocks, "b"))
            && WithoutEvidence(w, opts, blocks, "b").evidence.None?
  {
    PlainLettersAreGood();
    hide ValidContract.Valid, ValidContract.GoodID, ValidContract.GoodPath, TrimSpace, Scheduler.Describes, Chain, Drafts;
    assert "a" != "b";
    TwoObligationsValid("o", ".", "t", "local", "a", "b", w.oracle);
    SecondIsLost("o", ".", "t", "local", "a", "b", w, opts);
  }

  /** The evidence that Execute leaves behind is accepted by the verifier under the run's own revocations exactly when
      the ledger's lines pass their schema, artifact IDs are shared only where the last maker claims what the others
      claim and, for a failed run, no decision cites a ticket that the run held revoked; a successful run has none. */
  lemma {:induction false} ExecutedRunVerified(
    c: Contract, w: World, opts: Options, blocks: seq<Block>, result: Executor.RunResult)
    requires Scheduler.Describes(c, w, opts, blocks, result) && result.evidence.Some?
    ensures Accepted(result.ledger, result.evidence.value, w.hash, w.digest, opts.revoked) <==>
            && LinesValid(result.ledger) && RunVerify.SharedIDsClaimed(c, blocks)
            && (result.error.Some? ==> NoRevokedTicket(result.evidence.value.decisions, opts.revoked))
  {
    StatusAndClosureAgree(c, w, opts, blocks, result);
    RunVerify.FinishedRunAccepted(c, w, opts, blocks, if AllDone(blocks) then "success" else "failed", opts.revoked);
  }
}
