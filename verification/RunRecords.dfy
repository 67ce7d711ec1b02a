/** What the adapter answered and what the policy ruled is what a run's evidence and ledger hold, line by line. */
module RunRecords {
  import opened Text
  import opened Contracts
  import opened Ledger
  import opened Evidence
  import opened Run
  import LedgerGrammar
  import Policy

  // ----- the answers to one task's calls -----

  function ValueOf(answer: Result<seq<ArtifactRef>, string>): seq<ArtifactRef> {
    match answer case Ok(artifacts) => artifacts case Err(_) => []
  }

  /** The values of the answers to a task's effects from `from` up to `end`, one after the other. */
  function Gathered(w: World, task: Task, firstCall: nat, from: nat, end: nat): seq<ArtifactRef>
    requires from <= end
    decreases end
  {
    if from == end then []
    else Gathered(w, task, firstCall, from, end - 1) + ValueOf(LedgerGrammar.AnswerTo(w, task, firstCall, end - 1))
  }

  lemma {:induction false} GatheredFirst(w: World, task: Task, firstCall: nat, from: nat, end: nat)
    requires from < end
    ensures Gathered(w, task, firstCall, from, end)
         == ValueOf(LedgerGrammar.AnswerTo(w, task, firstCall, from)) + Gathered(w, task, firstCall, from + 1, end)
    decreases end
  {
    if from + 1 < end {
      GatheredFirst(w, task, firstCall, from, end - 1);
    }
  }

  /** Actions that succeed bring in what the adapter answered to each of them, in index order and nothing else. */
  lemma {:induction false} EffectsGather(w: World, task: Task, firstCall: nat, from: nat)
    requires from <= |task.effects|
    ensures var run := RunEffects(w, task, firstCall, from);
            run.Produced? ==> run.artifacts == Gathered(w, task, firstCall, from, |task.effects|)
    decreases |task.effects| - from
  {
    if from < |task.effects| {
      EffectsGather(w, task, firstCall, from + 1);
      GatheredFirst(w, task, firstCall, from, |task.effects|);
    }
  }

  // ----- the answers to all calls of a run -----

  /** An artifact and the task it was made for. */
  datatype Product = Product(taskID: string, artifact: ArtifactRef)

  function ProductsOf(taskID: string, artifacts: seq<ArtifactRef>): seq<Product> {
    seq(|artifacts|, i requires 0 <= i < |artifacts| => Product(taskID, artifacts[i]))
  }

  /** What the call at position n of the adapter's log brought in, when its task is one of those that succeeded. */
  function AnswerAt(w: World, calls: seq<Call>, succeeded: set<string>, n: nat): seq<Product>
    requires n < |calls|
  {
    if calls[n].task.id in succeeded then ProductsOf(calls[n].task.id, ValueOf(w.act(n, calls[n].task, calls[n].index)))
    else []
  }

  /** The same for the first n calls. */
  function Answers(w: World, calls: seq<Call>, succeeded: set<string>, n: nat): seq<Product>
    requires n <= |calls|
  {
    if n == 0 then [] else Answers(w, calls, succeeded, n - 1) + AnswerAt(w, calls, succeeded, n - 1)
  }

  lemma {:induction false} AnswersAgree(w: World, a: seq<Call>, s: set<string>, b: seq<Call>, t: set<string>, n: nat)
    requires n <= |a| && n <= |b|
    requires forall k :: 0 <= k < n ==> a[k] == b[k] && (a[k].task.id in s <==> b[k].task.id in t)
    ensures Answers(w, a, s, n) == Answers(w, b, t, n)
  {
    if n > 0 {
      AnswersAgree(w, a, s, b, t, n - 1);
    }
  }

  lemma {:induction false} ProductsConcat(taskID: string, a: seq<ArtifactRef>, b: seq<ArtifactRef>)
    ensures ProductsOf(taskID, a + b) == ProductsOf(taskID, a) + ProductsOf(taskID, b)
  {
  }

  /** The last n calls of the log are one task's. */
  ghost predicate EndsInRun(calls: seq<Call>, base: nat, task: Task, n: nat) {
    base + n <= |calls| && forall k :: base <= k < base + n ==> calls[k].task == task && calls[k].index == k - base
  }

  lemma {:induction false} LastAnswer(w: World, calls: seq<Call>, succeeded: set<string>, base: nat, task: Task, n: nat)
    requires EndsInRun(calls, base, task, n) && n > 0
    ensures AnswerAt(w, calls, succeeded, base + n - 1) ==
            if task.id in succeeded then ProductsOf(task.id, ValueOf(LedgerGrammar.AnswerTo(w, task, base, n - 1))) else []
  {
    var call := calls[base + (n - 1)];
  }

  lemma {:induction false} TaskAnswers(w: World, calls: seq<Call>, succeeded: set<string>, base: nat, task: Task, n: nat)
    requires EndsInRun(calls, base, task, n)
    ensures Answers(w, calls, succeeded, base + n) == Answers(w, calls, succeeded, base)
              + if task.id in succeeded then ProductsOf(task.id, Gathered(w, task, base, 0, n)) else []
  {
    hide AnswerAt;
    if n == 0 {
      assert Answers(w, calls, succeeded, base) + [] == Answers(w, calls, succeeded, base);
    } else {
      LastAnswer(w, calls, succeeded, base, task, n);
      TaskAnswers(w, calls, succeeded, base, task, n - 1);
      var last := ValueOf(LedgerGrammar.AnswerTo(w, task, base, n - 1));
      ProductsConcat(task.id, Gathered(w, task, base, 0, n - 1), last);
    }
  }

  // ----- the lines of one kind -----

  /** The ascending list of exactly the positions of the drafts of this kind. */
  ghost predicate LinesOf(drafts: seq<Draft>, kind: Kind, lines: seq<nat>) {
    && (forall k :: 0 <= k < |lines| ==> lines[k] < |drafts| && drafts[lines[k]].kind == kind)
    && (forall j, k :: 0 <= j < k < |lines| ==> lines[j] < lines[k])
    && (forall i :: 0 <= i < |drafts| && drafts[i].kind == kind ==> i in lines)
  }

  function Shifted(lines: seq<nat>, offset: nat): seq<nat> {
    seq(|lines|, i requires 0 <= i < |lines| => lines[i] + offset)
  }

  lemma {:induction false} LinesJoin(a: seq<Draft>, la: seq<nat>, b: seq<Draft>, lb: seq<nat>, kind: Kind)
    requires LinesOf(a, kind, la) && LinesOf(b, kind, lb)
    ensures LinesOf(a + b, kind, la + Shifted(lb, |a|))
  {
    var all, drafts := la + Shifted(lb, |a|), a + b;
    forall i | 0 <= i < |drafts| && drafts[i].kind == kind ensures i in all {
      if i < |a| {
        assert i in la;
      } else {
        assert b[i - |a|].kind == kind;
        var k :| 0 <= k < |lb| && lb[k] == i - |a|;
        assert all[|la| + k] == i;
      }
    }
  }

  lemma {:induction false} NoLines(drafts: seq<Draft>, kind: Kind)
    requires forall i :: 0 <= i < |drafts| ==> drafts[i].kind != kind
    ensures LinesOf(drafts, kind, [])
  {
  }

  /** Positions 0 to n. */
  function UpTo(n: nat): seq<nat> {
    seq(n, i => i)
  }

  lemma {:induction false} EveryLine(drafts: seq<Draft>, kind: Kind)
    requires forall i :: 0 <= i < |drafts| ==> drafts[i].kind == kind
    ensures LinesOf(drafts, kind, UpTo(|drafts|))
  {
    forall i | 0 <= i < |drafts| ensures i in UpTo(|drafts|) {
      assert UpTo(|drafts|)[i] == i;
    }
  }

  /** One draft of this kind per item, in order, and each tells its item. */
  ghost predicate OnePer<T(!new)>(drafts: seq<Draft>, kind: Kind, lines: seq<nat>, items: seq<T>, tells: (Draft, T) -> bool) {
    && LinesOf(drafts, kind, lines) && |lines| == |items|
    && forall k :: 0 <= k < |lines| ==> tells(drafts[lines[k]], items[k])
  }

  lemma {:induction false} OnePerJoin<T(!new)>(
    a: seq<Draft>, la: seq<nat>, xs: seq<T>, b: seq<Draft>, lb: seq<nat>, ys: seq<T>, kind: Kind, tells: (Draft, T) -> bool)
    requires OnePer(a, kind, la, xs, tells) && OnePer(b, kind, lb, ys, tells)
    ensures OnePer(a + b, kind, la + Shifted(lb, |a|), xs + ys, tells)
  {
    LinesJoin(a, la, b, lb, kind);
    var all := la + Shifted(lb, |a|);
    forall k | 0 <= k < |all| ensures tells((a + b)[all[k]], (xs + ys)[k]) {
      if k < |la| {
        assert tells(a[la[k]], xs[k]);
      } else {
        assert tells(b[lb[k - |la|]], ys[k - |la|]);
      }
    }
  }

  // ----- artifacts -----

  /** The event names the product's task, its path and its ID. */
  predicate TellsProduct(d: Draft, p: Product) {
    d.taskID == p.taskID && d.status == "success" && d.message == p.artifact.path && d.artifactIDs == [p.artifact.artifactID]
  }

  ghost predicate RecordsProducts(drafts: seq<Draft>, lines: seq<nat>, products: seq<Product>) {
    OnePer(drafts, ArtifactRecorded, lines, products, TellsProduct)
  }

  /** The artifacts are the products as the adapter gave them, except that each names its event. */
  ghost predicate Stamped(artifacts: seq<ArtifactRef>, products: seq<Product>, lines: seq<nat>) {
    && |artifacts| == |products| == |lines|
    && forall k :: 0 <= k < |artifacts| ==>
         artifacts[k] == products[k].artifact.(producerEventID := EventID(lines[k] + 1))
  }

  lemma {:induction false} RecordsJoin(
    a: seq<Draft>, la: seq<nat>, pa: seq<Product>, b: seq<Draft>, lb: seq<nat>, pb: seq<Product>)
    requires RecordsProducts(a, la, pa) && RecordsProducts(b, lb, pb)
    ensures RecordsProducts(a + b, la + Shifted(lb, |a|), pa + pb)
  {
    hide OnePer, TellsProduct;
    OnePerJoin(a, la, pa, b, lb, pb, ArtifactRecorded, TellsProduct);
  }

  lemma {:induction false} StampedJoin(
    a: seq<ArtifactRef>, pa: seq<Product>, la: seq<nat>, b: seq<ArtifactRef>, pb: seq<Product>, lb: seq<nat>)
    requires Stamped(a, pa, la) && Stamped(b, pb, lb)
    ensures Stamped(a + b, pa + pb, la + lb)
  {
    hide EventID;
  }

  lemma {:induction false} GateRecordsNothing(task: Task, decisions: seq<Policy.Decision>)
    ensures RecordsProducts(GateDrafts(task, decisions), [], [])
  {
    NoLines(GateDrafts(task, decisions), ArtifactRecorded);
  }

  /** The artifacts of a block, in front of the event that ends it. */
  lemma {:induction false} OutcomeRecords(taskID: string, outcome: Outcome, artifacts: seq<ArtifactRef>)
    requires artifacts == if outcome.Done? then outcome.artifacts else []
    ensures RecordsProducts(OutcomeDrafts(taskID, outcome), UpTo(|artifacts|), ProductsOf(taskID, artifacts))
  {
    var drafts := OutcomeDrafts(taskID, outcome);
    var last := drafts[|drafts| - 1];
    EveryLine(ArtifactDrafts(taskID, artifacts), ArtifactRecorded);
    NoLines([last], ArtifactRecorded);
    assert drafts == ArtifactDrafts(taskID, artifacts) + [last];
    RecordsJoin(ArtifactDrafts(taskID, artifacts), UpTo(|artifacts|), ProductsOf(taskID, artifacts), [last], [], []);
    assert UpTo(|artifacts|) + Shifted([], |artifacts|) == UpTo(|artifacts|);
    assert ProductsOf(taskID, artifacts) + [] == ProductsOf(taskID, artifacts);
  }

  function BlockLines(b: Block): seq<nat> {
    Shifted(UpTo(|ArtifactsIn(b)|), 1 + |b.decisions|)
  }

  lemma {:induction false} BlockRecords(b: Block)
    ensures RecordsProducts(BlockDrafts(b), BlockLines(b), ProductsOf(b.task.id, ArtifactsIn(b)))
  {
    var gate, outcome := GateDrafts(b.task, b.decisions), OutcomeDrafts(b.task.id, b.outcome);
    var lines, products := UpTo(|ArtifactsIn(b)|), ProductsOf(b.task.id, ArtifactsIn(b));
    GateRecordsNothing(b.task, b.decisions);
    OutcomeRecords(b.task.id, b.outcome, ArtifactsIn(b));
    RecordsJoin(gate, [], [], outcome, lines, products);
    assert [] + Shifted(lines, |gate|) == BlockLines(b);
    assert [] + products == products;
  }

  lemma {:induction false} BlockStamped(before: seq<Block>, b: Block)
    ensures Stamped(Stamp(ArtifactsIn(b), GateLength(before, b)), ProductsOf(b.task.id, ArtifactsIn(b)),
                    Shifted(BlockLines(b), |Drafts(before)|))
  {
    hide Drafts, EventID;
    forall k | 0 <= k < |ArtifactsIn(b)|
      ensures Shifted(BlockLines(b), |Drafts(before)|)[k] + 1 == GateLength(before, b) + k + 1
    {
    }
  }

  // ----- the calls of a history -----

  lemma {:induction false} CallLogLength(blocks: seq<Block>)
    ensures |Calls(blocks)| == CallCount(blocks)
  {
    if blocks != [] {
      CallLogLength(blocks[..|blocks| - 1]);
    }
  }

  lemma {:induction false} CallersSucceeded(blocks: seq<Block>)
    requires AllDone(blocks)
    ensures forall k :: 0 <= k < |Calls(blocks)| ==> Calls(blocks)[k].task.id in DoneIDs(blocks)
  {
    if blocks != [] {
      CallersSucceeded(blocks[..|blocks| - 1]);
    }
  }

  function AllAnswers(w: World, blocks: seq<Block>): seq<Product> {
    Answers(w, Calls(blocks), DoneIDs(blocks), |Calls(blocks)|)
  }

  /** A block brings in what the adapter answered to its calls, if it succeeds. */
  lemma {:induction false} BlockGathers(c: Contract, w: World, opts: Options, before: seq<Block>, b: Block)
    requires LegalBlock(c, w, opts, before, b)
    ensures b.outcome.Done? ==> ArtifactsIn(b) == Gathered(w, b.task, CallCount(before), 0, CallsIn(b))
    ensures b.task.id !in DoneIDs(before)
  {
    var task, first := b.task, CallCount(before);
    EffectsGather(w, task, first, 0);
    LedgerGrammar.EffectsExactly(w, task, first, 0);
    hide RunEffects, Gathered, LedgerGrammar.AllAnswered, CallCount, DoneIDs, TaskPolicy, NoneReady;
    assert b == MakeBlock(c, w, opts, before, b.index);
  }

  lemma {:induction false} LogStep(before: seq<Block>, b: Block)
    ensures var calls := Calls(before + [b]);
            && |calls| == CallCount(before) + CallsIn(b)
            && (forall k :: 0 <= k < CallCount(before) ==> k < |Calls(before)| && calls[k] == Calls(before)[k])
            && EndsInRun(calls, CallCount(before), b.task, CallsIn(b))
    ensures DoneIDs(before + [b]) == DoneIDs(before) + if b.outcome.Done? then {b.task.id} else {}
  {
    assert (before + [b])[..|before|] == before;
    CallLogLength(before);
    hide GateLength, CallsIn;
  }

  /** One more task's calls at the end of the log bring in its answers, if it succeeds. */
  lemma {:induction false} AnswersGrow(
    w: World, earlier: seq<Call>, was: set<string>, calls: seq<Call>, task: Task, n: nat, succeeds: bool, found: seq<ArtifactRef>)
    requires |calls| == |earlier| + n && EndsInRun(calls, |earlier|, task, n) && task.id !in was
    requires forall k :: 0 <= k < |earlier| ==> calls[k] == earlier[k] && earlier[k].task.id in was
    requires found == if succeeds then Gathered(w, task, |earlier|, 0, n) else []
    ensures Answers(w, calls, was + if succeeds then {task.id} else {}, |calls|)
         == Answers(w, earlier, was, |earlier|) + ProductsOf(task.id, found)
  {
    hide Answers, Gathered, EndsInRun, ProductsOf;
    var now := was + if succeeds then {task.id} else {};
    TaskAnswers(w, calls, now, |earlier|, task, n);
    AnswersAgree(w, calls, now, earlier, was, |earlier|);
    NoProducts(task.id);
  }

  lemma {:induction false} NoProducts(taskID: string)
    ensures ProductsOf(taskID, []) == []
  {
  }

  lemma {:induction false} AnswersStep(c: Contract, w: World, opts: Options, before: seq<Block>, b: Block)
    requires LegalBlock(c, w, opts, before, b) && AllDone(before)
    ensures AllAnswers(w, before + [b]) == AllAnswers(w, before) + ProductsOf(b.task.id, ArtifactsIn(b))
  {
    LogStep(before, b);
    BlockGathers(c, w, opts, before, b);
    CallLogLength(before);
    CallersSucceeded(before);
    hide LegalBlock, Calls, CallCount, DoneIDs, Answers, Gathered, CallsIn, AllDone, EndsInRun, ProductsOf;
    AnswersGrow(w, Calls(before), DoneIDs(before), Calls(before + [b]), b.task, CallsIn(b), b.outcome.Done?, ArtifactsIn(b));
  }

  /** Every run keeps what it was answered: the evidence lists exactly the artifacts that the adapter answered to the
      calls of the tasks that succeeded, in the order of the calls, and the ledger holds one artifact_recorded event for
      each of them, which it names as its producer. */
  lemma {:induction false} RunKeepsAnswers(c: Contract, w: World, opts: Options, blocks: seq<Block>, status: string)
    returns (lines: seq<nat>)
    requires LegalRun(c, w, opts, blocks)
    ensures RecordsProducts(FinishedDrafts(blocks, status), lines, Answers(w, Calls(blocks), DoneIDs(blocks), |Calls(blocks)|))
    ensures Stamped(Artifacts(blocks), Answers(w, Calls(blocks), DoneIDs(blocks), |Calls(blocks)|), lines)
  {
    lines := HistoryKeepsAnswers(c, w, opts, blocks);
    var last := [RunFinishedDraft(status)];
    hide LegalRun, Drafts, Artifacts, AllAnswers, Stamped, RecordsProducts;
    NoLines(last, ArtifactRecorded);
    RecordsJoin(Drafts(blocks), lines, AllAnswers(w, blocks), last, [], []);
    assert lines + Shifted([], |Drafts(blocks)|) == lines;
    assert AllAnswers(w, blocks) + [] == AllAnswers(w, blocks);
    AllAnswersIs(w, blocks);
  }

  lemma {:induction false} AllAnswersIs(w: World, blocks: seq<Block>)
    ensures AllAnswers(w, blocks) == Answers(w, Calls(blocks), DoneIDs(blocks), |Calls(blocks)|)
  {
  }

  lemma {:induction false} BlockKeepsAnswers(
    w: World, before: seq<Block>, b: Block, earlier: seq<nat>, products: seq<Product>)
    requires RecordsProducts(Drafts(before), earlier, products) && Stamped(Artifacts(before), products, earlier)
    ensures var lines := earlier + Shifted(BlockLines(b), |Drafts(before)|);
            var more := ProductsOf(b.task.id, ArtifactsIn(b));
            && RecordsProducts(Drafts(before) + BlockDrafts(b), lines, products + more)
            && Stamped(Artifacts(before) + Stamp(ArtifactsIn(b), GateLength(before, b)), products + more, lines)
  {
    BlockRecords(b);
    BlockStamped(before, b);
    hide *;
    var more := ProductsOf(b.task.id, ArtifactsIn(b));
    RecordsJoin(Drafts(before), earlier, products, BlockDrafts(b), BlockLines(b), more);
    StampedJoin(Artifacts(before), products, earlier, Stamp(ArtifactsIn(b), GateLength(before, b)), more,
                Shifted(BlockLines(b), |Drafts(before)|));
  }

  lemma {:induction false} NothingKept(w: World)
    ensures RecordsProducts(Drafts([]), [], AllAnswers(w, [])) && Stamped(Artifacts([]), AllAnswers(w, []), [])
  {
    NoLines(Drafts([]), ArtifactRecorded);
  }

  lemma {:induction false} HistoryStep(c: Contract, w: World, opts: Options, blocks: seq<Block>)
    requires blocks != [] && LegalRun(c, w, opts, blocks)
    ensures var before, b := blocks[..|blocks| - 1], blocks[|blocks| - 1];
            && LegalRun(c, w, opts, before) && AllDone(before) && LegalBlock(c, w, opts, before, b)
            && Drafts(blocks) == Drafts(before) + BlockDrafts(b)
            && Artifacts(blocks) == Artifacts(before) + Stamp(ArtifactsIn(b), GateLength(before, b))
  {
    hide LegalBlock, AllDone, BlockDrafts, Stamp, ArtifactsIn, GateLength;
  }

  lemma {:induction false} HistoryKeepsAnswers(c: Contract, w: World, opts: Options, blocks: seq<Block>)
    returns (lines: seq<nat>)
    requires LegalRun(c, w, opts, blocks)
    ensures RecordsProducts(Drafts(blocks), lines, AllAnswers(w, blocks))
    ensures Stamped(Artifacts(blocks), AllAnswers(w, blocks), lines)
    decreases |blocks|
  {
    hide *;
    lines := [];
    if blocks == [] {
      NothingKept(w);
    } else {
      HistoryStep(c, w, opts, blocks);
      var before, b := blocks[..|blocks| - 1], blocks[|blocks| - 1];
      var earlier := HistoryKeepsAnswers(c, w, opts, before);
      lines := earlier + Shifted(BlockLines(b), |Drafts(before)|);
      assert blocks == before + [b];
      AnswersStep(c, w, opts, before, b);
      BlockKeepsAnswers(w, before, b, earlier, AllAnswers(w, before));
    }
  }

  // ----- decisions -----

  /** The event tells every field of the decision, and its status says whether it is a denial. */
  predicate TellsDecision(e: Draft, d: Policy.Decision) {
    && e.taskID == d.taskID && e.decisionID == d.decisionID && e.decision == d.verdict && e.effectType == d.effectType
    && e.resource == d.resource && e.message == d.reason && e.ticketID == d.ticketID && e.artifactIDs == []
    && (e.status == "failed" <==> d.verdict == Policy.DENY) && (e.status == "success" <==> d.verdict != Policy.DENY)
  }

  ghost predicate RecordsDecisions(drafts: seq<Draft>, lines: seq<nat>, decisions: seq<Policy.Decision>) {
    OnePer(drafts, PolicyDecided, lines, decisions, TellsDecision)
  }

  lemma {:induction false} DecisionsJoin(
    a: seq<Draft>, la: seq<nat>, xs: seq<Policy.Decision>, b: seq<Draft>, lb: seq<nat>, ys: seq<Policy.Decision>)
    requires RecordsDecisions(a, la, xs) && RecordsDecisions(b, lb, ys)
    ensures RecordsDecisions(a + b, la + Shifted(lb, |a|), xs + ys)
  {
    hide OnePer, TellsDecision;
    OnePerJoin(a, la, xs, b, lb, ys, PolicyDecided, TellsDecision);
  }

  lemma {:induction false} DraftsTellDecisions(decisions: seq<Policy.Decision>)
    ensures RecordsDecisions(DecisionDrafts(decisions), UpTo(|decisions|), decisions)
  {
    EveryLine(DecisionDrafts(decisions), PolicyDecided);
  }

  lemma {:induction false} OthersTellNone(task: Task, outcome: Outcome)
    ensures RecordsDecisions([Started(task)], [], [])
    ensures RecordsDecisions(OutcomeDrafts(task.id, outcome), [], [])
  {
    NoLines([Started(task)], PolicyDecided);
    NoLines(OutcomeDrafts(task.id, outcome), PolicyDecided);
  }

  function DecisionLines(b: Block): seq<nat> {
    Shifted(UpTo(|b.decisions|), 1)
  }

  lemma {:induction false} BlockTellsDecisions(b: Block)
    ensures RecordsDecisions(BlockDrafts(b), DecisionLines(b), b.decisions)
  {
    var start, drafts, outcome := [Started(b.task)], DecisionDrafts(b.decisions), OutcomeDrafts(b.task.id, b.outcome);
    var none: seq<Policy.Decision> := [];
    DraftsTellDecisions(b.decisions);
    OthersTellNone(b.task, b.outcome);
    hide RecordsDecisions, OutcomeDrafts, DecisionDrafts, Started;
    DecisionsJoin(start, [], none, drafts, UpTo(|b.decisions|), b.decisions);
    DecisionsJoin(start + drafts, [] + DecisionLines(b), none + b.decisions, outcome, [], none);
    assert [] + DecisionLines(b) + Shifted([], |start + drafts|) == DecisionLines(b);
    assert none + b.decisions + none == b.decisions;
  }

  lemma {:induction false} DecisionsStep(blocks: seq<Block>)
    ensures blocks != [] ==>
              var before, b := blocks[..|blocks| - 1], blocks[|blocks| - 1];
              && Drafts(blocks) == Drafts(before) + BlockDrafts(b) && Decisions(blocks) == Decisions(before) + b.decisions
    ensures blocks == [] ==> Drafts(blocks) == [RUN_STARTED] && Decisions(blocks) == []
  {
    hide BlockDrafts, RUN_STARTED;
  }

  lemma {:induction false} HistoryTellsDecisions(blocks: seq<Block>) returns (lines: seq<nat>)
    ensures RecordsDecisions(Drafts(blocks), lines, Decisions(blocks))
  {
    DecisionsStep(blocks);
    lines := [];
    if blocks == [] {
      NoLines(Drafts(blocks), PolicyDecided);
    } else {
      var before, b := blocks[..|blocks| - 1], blocks[|blocks| - 1];
      hide *;
      var earlier := HistoryTellsDecisions(before);
      lines := earlier + Shifted(DecisionLines(b), |Drafts(before)|);
      BlockTellsDecisions(b);
      DecisionsJoin(Drafts(before), earlier, Decisions(before), BlockDrafts(b), DecisionLines(b), b.decisions);
    }
  }

  /** The policy_decided events of a ledger are one per decision of its evidence, in order, and tell all of it. */
  lemma {:induction false} RunTellsDecisions(blocks: seq<Block>, status: string) returns (lines: seq<nat>)
    ensures RecordsDecisions(FinishedDrafts(blocks, status), lines, Decisions(blocks))
  {
    lines := HistoryTellsDecisions(blocks);
    var last := [RunFinishedDraft(status)];
    NoLines(last, PolicyDecided);
    hide Drafts, Decisions, RecordsDecisions, RunFinishedDraft;
    assert RecordsDecisions(last, [], []) by { NothingTold(last); }
    DecisionsJoin(Drafts(blocks), lines, Decisions(blocks), last, [], []);
    assert lines + Shifted([], |Drafts(blocks)|) == lines;
    assert Decisions(blocks) + [] == Decisions(blocks);
  }

  lemma {:induction false} NothingTold(drafts: seq<Draft>)
    requires LinesOf(drafts, PolicyDecided, [])
    ensures RecordsDecisions(drafts, [], [])
  {
  }
}
