/** The tickets that a run used, and what revoking one of them later does. */
module RunTickets {
  import opened Text
  import opened Contracts
  import opened EventSchema
  import opened Run
  import opened Verifier
  import LedgerGrammar
  import Paths
  import Policy
  import PolicyRulings
  import RunOutcome
  import RunVerify

  /** At turn k the i-th effect of the task needs a ticket, and the one at position j of the contract is the first
      approved one that covers it and has not expired at that turn. */
  ghost predicate Uses(c: Contract, w: World, opts: Options, k: nat, task: Task, i: nat, j: nat) {
    && i < |task.effects|
    && PolicyRulings.TicketInUse(PolicyInput(c, task, opts, w.now(k)), ClockAt(w, k), task.effects[i], j)
  }

  /** Some task's turn in the history used the contract's ticket at position j. */
  ghost predicate Used(c: Contract, w: World, opts: Options, blocks: seq<Block>, j: nat) {
    exists k: nat, i: nat :: k < |blocks| && Uses(c, w, opts, k, blocks[k].task, i, j)
  }

  lemma {:induction false} UsesIsCover(c: Contract, w: World, opts: Options, k: nat, task: Task, i: nat, j: nat)
    requires Uses(c, w, opts, k, task, i, j)
    ensures j < |c.approvals| && c.approvals[j] in c.approvals
    ensures Policy.Covers(c.approvals[j], task.id, task.effects[i].effectType, Paths.SlashClean(task.effects[i].resource))
  {
  }

  /** No ticket that the history used is revoked. */
  ghost predicate NoneRevoked(c: Contract, w: World, opts: Options, blocks: seq<Block>, revoked: set<string>) {
    forall j :: 0 <= j < |c.approvals| && Used(c, w, opts, blocks, j) ==>
      c.approvals[j].ticketID == "" || c.approvals[j].ticketID !in revoked
  }

  /** Every decision of a history is the ruling on one effect at one turn. */
  lemma {:induction false} DecisionOfTurn(c: Contract, w: World, opts: Options, blocks: seq<Block>, d: Policy.Decision)
    returns (k: nat, i: nat)
    requires LegalRun(c, w, opts, blocks) && d in Decisions(blocks)
    ensures k < |blocks| && i < |blocks[k].task.effects|
    ensures d.ticketID == Policy.EvaluateAction(PolicyInput(c, blocks[k].task, opts, w.now(k)), ClockAt(w, k),
                                                blocks[k].task.effects[i]).ticketID
  {
    var n := |blocks| - 1;
    if d in Decisions(blocks[..n]) {
      k, i := DecisionOfTurn(c, w, opts, blocks[..n], d);
    } else {
      k := n;
      var position :| 0 <= position < |blocks[n].decisions| && blocks[n].decisions[position] == d;
      i := position;
    }
  }

  lemma {:induction false} BlockDecisionInRun(blocks: seq<Block>, k: nat, d: Policy.Decision)
    requires k < |blocks| && d in blocks[k].decisions
    ensures d in Decisions(blocks)
  {
    var n := |blocks| - 1;
    if k < n {
      assert blocks[..n][k] == blocks[k];
      BlockDecisionInRun(blocks[..n], k, d);
    }
  }

  lemma {:induction false} TurnOfDecision(c: Contract, w: World, opts: Options, blocks: seq<Block>, k: nat, i: nat)
    returns (d: Policy.Decision)
    requires LegalRun(c, w, opts, blocks) && k < |blocks| && i < |blocks[k].task.effects|
    ensures d in Decisions(blocks)
    ensures d.ticketID == Policy.EvaluateAction(PolicyInput(c, blocks[k].task, opts, w.now(k)), ClockAt(w, k),
                                                blocks[k].task.effects[i]).ticketID
  {
    RunOutcome.BlockAt(c, w, opts, blocks, k);
    LedgerGrammar.MadeBlock(c, w, opts, blocks[..k], blocks[k].index);
    hide LegalRun, Policy.EvaluateAction, LedgerGrammar.BlockShape, NoneReady;
    d := Policy.TaskDecisions(PolicyInput(c, blocks[k].task, opts, w.now(k)), ClockAt(w, k))[i];
    assert blocks[k].decisions[i] == d;
    BlockDecisionInRun(blocks, k, d);
  }

  /** The decisions of a history cite exactly the tickets that it used. */
  lemma {:induction false} CitedExactly(c: Contract, w: World, opts: Options, blocks: seq<Block>, revoked: set<string>)
    requires LegalRun(c, w, opts, blocks)
    ensures NoRevokedTicket(Decisions(blocks), revoked) <==> NoneRevoked(c, w, opts, blocks, revoked)
  {
    hide LegalRun, Decisions, Policy.EvaluateAction, PolicyRulings.TicketInUse;
    if NoRevokedTicket(Decisions(blocks), revoked) {
      forall j | 0 <= j < |c.approvals| && Used(c, w, opts, blocks, j)
        ensures c.approvals[j].ticketID == "" || c.approvals[j].ticketID !in revoked
      {
        var k: nat, i: nat :| k < |blocks| && Uses(c, w, opts, k, blocks[k].task, i, j);
        var d := TurnOfDecision(c, w, opts, blocks, k, i);
        PolicyRulings.TicketExactly(PolicyInput(c, blocks[k].task, opts, w.now(k)), ClockAt(w, k), blocks[k].task.effects[i]);
      }
    }
    if NoneRevoked(c, w, opts, blocks, revoked) {
      forall d | d in Decisions(blocks) && d.ticketID != "" ensures d.ticketID !in revoked {
        var k, i := DecisionOfTurn(c, w, opts, blocks, d);
        var input, clock := PolicyInput(c, blocks[k].task, opts, w.now(k)), ClockAt(w, k);
        PolicyRulings.TicketExactly(input, clock, blocks[k].task.effects[i]);
        var j: nat :| PolicyRulings.TicketInUse(input, clock, blocks[k].task.effects[i], j);
        assert Uses(c, w, opts, k, blocks[k].task, i, j);
        UsesIsCover(c, w, opts, k, blocks[k].task, i, j);
      }
    }
  }

  /** The verifier accepts a finished run under a set of revocations exactly when it can read the ledger's lines,
      artifact IDs are shared only as the claims allow, and no ticket that the run used is among the revoked ones. */
  lemma {:induction false} AcceptedByTickets(
    c: Contract, w: World, opts: Options, blocks: seq<Block>, status: string, revoked: set<string>)
    requires LegalRun(c, w, opts, blocks)
    ensures Accepted(LedgerOf(w, opts, blocks, status), EvidenceOf(c, w, opts, blocks, status), w.hash, w.digest, revoked) <==>
            && LinesValid(LedgerOf(w, opts, blocks, status)) && RunVerify.SharedIDsClaimed(c, blocks)
            && NoneRevoked(c, w, opts, blocks, revoked)
  {
    RunVerify.FinishedRunAccepted(c, w, opts, blocks, status, revoked);
    CitedExactly(c, w, opts, blocks, revoked);
  }

  /** Every process, network request and claim that a run let through used a ticket of the contract, and revoking that
      ticket makes the verifier reject the run. */
  lemma {:induction false} RevokingUsedTicketRejects(
    c: Contract, w: World, opts: Options, blocks: seq<Block>, status: string, k: nat, i: nat)
    returns (j: nat)
    requires LegalRun(c, w, opts, blocks) && k < |blocks| && !blocks[k].outcome.Denied?
    requires i < |blocks[k].task.effects| && PolicyRulings.NeedsTicket(blocks[k].task.effects[i].effectType)
    ensures j < |c.approvals| && Uses(c, w, opts, k, blocks[k].task, i, j)
    ensures forall revoked :: c.approvals[j].ticketID != "" && c.approvals[j].ticketID in revoked ==>
              !Accepted(LedgerOf(w, opts, blocks, status), EvidenceOf(c, w, opts, blocks, status), w.hash, w.digest, revoked)
  {
    var task := blocks[k].task;
    var input, clock := PolicyInput(c, task, opts, w.now(k)), ClockAt(w, k);
    RunOutcome.DeniedExactly(c, w, opts, blocks, k);
    assert Policy.Permitted(input, clock, task.effects[i]);
    j := LiveTicketOf(input, clock, task.effects[i]);
    hide LegalRun, LedgerOf, EvidenceOf, Policy.Permitted, Accepted, PolicyRulings.TicketInUse;
    assert Uses(c, w, opts, k, task, i, j);
    UsesIsCover(c, w, opts, k, task, i, j);
    assert Used(c, w, opts, blocks, j);
    forall revoked | c.approvals[j].ticketID != "" && c.approvals[j].ticketID in revoked
      ensures !Accepted(LedgerOf(w, opts, blocks, status), EvidenceOf(c, w, opts, blocks, status), w.hash, w.digest, revoked)
    {
      AcceptedByTickets(c, w, opts, blocks, status, revoked);
    }
  }

  lemma {:induction false} LiveTicketOf(input: Policy.Input, clock: Policy.Clock, action: ActionRef) returns (j: nat)
    requires Policy.Permitted(input, clock, action) && PolicyRulings.NeedsTicket(action.effectType)
    ensures PolicyRulings.TicketInUse(input, clock, action, j)
  {
    hide Policy.Unexpired, Policy.IsFirstCover, Policy.FullEvidenceReason, Policy.ContainsNormalized, Paths.SlashClean;
    j :| Policy.LiveTicket(input, clock, action, j);
  }
}
