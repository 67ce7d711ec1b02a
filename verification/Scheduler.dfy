/** Execute: passes over the task list until every task has succeeded or one fails. */
module Scheduler {
  import opened Text
  import opened Contracts
  import opened Cycles
  import opened Ledger
  import opened Evidence
  import opened Run
  import opened Executor
  import Policy
  import Validation
  import ValidContract

  /** Exactly what Execute leaves behind for a history of blocks. */
  ghost predicate Describes(c: Contract, w: World, opts: Options, blocks: seq<Block>, result: RunResult) {
    && LegalRun(c, w, opts, blocks)
    && if !AllDone(blocks) then
         result == RunResult(LedgerOf(w, opts, blocks, "failed"), Some(EvidenceOf(c, w, opts, blocks, "failed")),
                             Some(TaskError(FailureText(blocks[|blocks| - 1]))))
       else
         && DoneIDs(blocks) == TaskIDs(c.tasks) && |blocks| == |c.tasks|
         && match FirstUnsatisfied(c.obligations, SatisfiedObligations(c.tasks, DoneIDs(blocks)))
            case Some(id) =>
              result == RunResult(Chain(opts.runID, w.hash, Drafts(blocks)), None, Some(ObligationUnsatisfied(id)))
            case None =>
              result == RunResult(LedgerOf(w, opts, blocks, "success"), Some(EvidenceOf(c, w, opts, blocks, "success")), None)
  }

  // ----- facts a valid contract gives the scheduler -----

  predicate DistinctIDs(tasks: seq<Task>) {
    || tasks == []
    || (DistinctIDs(tasks[..|tasks| - 1]) && tasks[|tasks| - 1].id !in TaskIDs(tasks[..|tasks| - 1]))
  }

  ghost predicate Schedulable(c: Contract, rank: map<string, nat>) {
    && DistinctIDs(c.tasks)
    && (forall t, d :: t in c.tasks && d in t.dependsOn ==> d in TaskIDs(c.tasks))
    && Ranks(DependencyMap(c.tasks), rank)
  }

  lemma {:induction false} DistinctGivesDistinctIDs(tasks: seq<Task>)
    requires ValidContract.Distinct(tasks, ValidContract.ByTaskID)
    ensures DistinctIDs(tasks)
  {
    if tasks != [] {
      var n := |tasks| - 1;
      forall i, j | 0 <= i < j < n
        ensures ValidContract.ByTaskID(tasks[..n][i]) != ValidContract.ByTaskID(tasks[..n][j])
      {
        assert ValidContract.ByTaskID(tasks[i]) != ValidContract.ByTaskID(tasks[j]);
      }
      DistinctGivesDistinctIDs(tasks[..n]);
      forall t | t in tasks[..n] ensures t.id != tasks[n].id {
        var i :| 0 <= i < n && tasks[i] == t;
        assert ValidContract.ByTaskID(tasks[i]) != ValidContract.ByTaskID(tasks[n]);
      }
    }
  }

  lemma {:induction false} DependencyMapHolds(tasks: seq<Task>, i: nat)
    requires DistinctIDs(tasks) && i < |tasks|
    ensures tasks[i].id in DependencyMap(tasks) && DependencyMap(tasks)[tasks[i].id] == tasks[i].dependsOn
  {
    var n := |tasks| - 1;
    if i < n {
      DependencyMapHolds(tasks[..n], i);
      assert tasks[i] in tasks[..n];
    }
  }

  /** While some task is unfinished, descending through unfinished dependencies finds a ready one. */
  lemma {:induction false} SomeReady(c: Contract, rank: map<string, nat>, done: set<string>, i: nat)
    requires Schedulable(c, rank) && i < |c.tasks| && c.tasks[i].id !in done
    ensures !NoneReady(c, done, 0, |c.tasks|)
    decreases if c.tasks[i].id in rank then rank[c.tasks[i].id] else 0
  {
    DependencyMapHolds(c.tasks, i);
    if !Ready(c, done, i) {
      var d :| d in c.tasks[i].dependsOn && d !in done;
      assert Edge(DependencyMap(c.tasks), c.tasks[i].id, d);
      assert c.tasks[i] in c.tasks && d in c.tasks[i].dependsOn;
      assert d in TaskIDs(c.tasks);
      var t :| t in c.tasks && t.id == d;
      var j :| 0 <= j < |c.tasks| && c.tasks[j] == t;
      SomeReady(c, rank, done, j);
    }
  }

  lemma {:induction false} TaskIDCount(tasks: seq<Task>)
    ensures |TaskIDs(tasks)| <= |tasks|
  {
    if tasks != [] {
      var n := |tasks| - 1;
      TaskIDCount(tasks[..n]);
      assert tasks == tasks[..n] + [tasks[n]];
      assert TaskIDs(tasks) == TaskIDs(tasks[..n]) + {tasks[n].id};
    }
  }

  lemma {:induction false} SubsetOfSameSize(a: set<string>, b: set<string>)
    requires a <= b && |a| >= |b|
    ensures a == b
  {
    if x :| x in b && x !in a {
      assert a <= b - {x};
      SubsetSize(a, b - {x});
    }
  }

  lemma {:induction false} SubsetSize(a: set<string>, b: set<string>)
    requires a <= b
    ensures |a| <= |b|
  {
    if a != {} {
      var x :| x in a;
      SubsetSize(a - {x}, b - {x});
    }
  }

  // ----- the loop's bookkeeping -----

  /** The maps and lists Execute updates as tasks finish. */
  datatype Books = Books(
    states: map<string, string>,
    artifacts: seq<ArtifactRef>,
    taskArtifacts: map<string, seq<string>>,
    decisions: seq<Policy.Decision>)

  ghost function BooksOf(c: Contract, blocks: seq<Block>): Books {
    Books(StatusMap(TaskIDs(c.tasks), DoneIDs(blocks)), Artifacts(blocks), TaskArtifacts(blocks), Decisions(blocks))
  }

  /** The recorder and the adapter are the ones of this run; neither field ever changes. */
  ghost predicate Wired(w: World, opts: Options, recorder: EventRecorder, adapter: Adapter) {
    recorder.hash == w.hash && recorder.runID == opts.runID && adapter.act == w.act
  }

  ghost predicate Synced(blocks: seq<Block>, recorder: EventRecorder, adapter: Adapter)
    reads recorder, adapter
  {
    recorder.Valid() && recorder.drafts == Drafts(blocks) && adapter.calls == Calls(blocks)
  }

  /** The history so far: legal, all successful, one task each. */
  ghost predicate Progressing(c: Contract, w: World, opts: Options, blocks: seq<Block>) {
    && LegalRun(c, w, opts, blocks) && AllDone(blocks)
    && DoneIDs(blocks) <= TaskIDs(c.tasks) && |DoneIDs(blocks)| == |blocks|
  }

  /** Where the scan stands at position i, before or after wrapping round the end of the list. */
  ghost predicate Scanned(c: Contract, blocks: seq<Block>, i: nat, wrapped: bool)
    requires i <= |c.tasks|
  {
    var done, start := DoneIDs(blocks), ScanStart(blocks);
    if wrapped then start <= |c.tasks| && NoneReady(c, done, start, |c.tasks|) && NoneReady(c, done, 0, i)
    else start <= i && NoneReady(c, done, start, i)
  }

  lemma {:induction false} ScanPasses(c: Contract, blocks: seq<Block>, i: nat, wrapped: bool)
    requires i < |c.tasks| && Scanned(c, blocks, i, wrapped) && !Ready(c, DoneIDs(blocks), i)
    ensures Scanned(c, blocks, i + 1, wrapped)
  {
  }

  lemma {:induction false} ScanRestarts(c: Contract, blocks: seq<Block>, i: nat)
    requires i < |c.tasks| && ScanStart(blocks) == i + 1
    ensures Scanned(c, blocks, i + 1, false)
  {
  }

  lemma {:induction false} LegalExtends(c: Contract, w: World, opts: Options, blocks: seq<Block>, i: nat, wrapped: bool)
    requires Progressing(c, w, opts, blocks) && i < |c.tasks|
    requires Scanned(c, blocks, i, wrapped) && Ready(c, DoneIDs(blocks), i)
    ensures LegalRun(c, w, opts, blocks + [MakeBlock(c, w, opts, blocks, i)])
  {
    var b := MakeBlock(c, w, opts, blocks, i);
    var more := blocks + [b];
    assert IsNext(c, DoneIDs(blocks), ScanStart(blocks), i);
    assert more[..|blocks|] == blocks;
  }

  lemma {:induction false} ProgressExtends(c: Contract, w: World, opts: Options, blocks: seq<Block>, b: Block)
    requires Progressing(c, w, opts, blocks) && LegalRun(c, w, opts, blocks + [b])
    requires b.outcome.Done? && b.task.id !in DoneIDs(blocks) && b.task in c.tasks
    ensures Progressing(c, w, opts, blocks + [b])
    ensures DoneIDs(blocks + [b]) == DoneIDs(blocks) + {b.task.id}
    ensures ScanStart(blocks + [b]) == b.index + 1
  {
    SnocDone(blocks, b);
  }

  lemma {:induction false} StoppedStatuses(c: Contract, blocks: seq<Block>, b: Block)
    requires !b.outcome.Done?
    ensures Statuses(c, blocks + [b]) == StatusMap(TaskIDs(c.tasks), DoneIDs(blocks))[b.task.id := "failed"]
  {
    SnocDone(blocks, b);
    assert (blocks + [b])[|blocks + [b]| - 1] == b;
    assert DoneIDs(blocks) + {} == DoneIDs(blocks);
  }

  /** Everything the run leaves when this block stops it. */
  ghost function StoppedResult(c: Contract, w: World, opts: Options, blocks: seq<Block>): RunResult
    requires blocks != []
  {
    RunResult(LedgerOf(w, opts, blocks, "failed"), Some(EvidenceOf(c, w, opts, blocks, "failed")),
              Some(TaskError(FailureText(blocks[|blocks| - 1]))))
  }

  datatype Step = Skipped | Ran(books: Books) | Halted(books: Books, turn: Turn)

  /** The books and the turn of a block that stops the run. */
  ghost predicate HaltedBy(c: Contract, blocks: seq<Block>, b: Block, books: Books, turn: Turn) {
    && !b.outcome.Done?
    && books == BooksOf(c, blocks).(decisions := Decisions(blocks + [b]))
    && turn == TurnOf(blocks, b)
  }

  /** The books of a stopped run, with the stopping task marked failed, are those of its whole history. */
  lemma {:induction false} StoppedBooks(c: Contract, blocks: seq<Block>, books: Books, turn: Turn)
    requires blocks != [] && HaltedBy(c, blocks[..|blocks| - 1], blocks[|blocks| - 1], books, turn)
    ensures var task := blocks[|blocks| - 1].task;
            && books.states[task.id := "failed"] == Statuses(c, blocks)
            && books.artifacts == Artifacts(blocks) && books.taskArtifacts == TaskArtifacts(blocks)
            && books.decisions == Decisions(blocks)
            && turn.Stopped? && turn.message == FailureText(blocks[|blocks| - 1])
            && Failures(blocks) == [FailureRecord("failure-" + ZeroPad(Digits(1), 6), turn.eventID, task.id,
                                                  turn.phase, turn.message)]
  {
    var before, b := blocks[..|blocks| - 1], blocks[|blocks| - 1];
    assert blocks == before + [b];
    SnocBooks(before, b);
    StoppedStatuses(c, before, b);
  }

  method StopRun(
    c: Contract, w: World, opts: Options, recorder: EventRecorder, books: Books, task: Task, turn: Turn,
    ghost blocks: seq<Block>)
    returns (result: RunResult)
    requires recorder.Valid() && recorder.hash == w.hash && recorder.runID == opts.runID
    requires recorder.drafts == Drafts(blocks) && blocks != [] && task == blocks[|blocks| - 1].task
    requires HaltedBy(c, blocks[..|blocks| - 1], blocks[|blocks| - 1], books, turn)
    modifies recorder
    ensures result == StoppedResult(c, w, opts, blocks)
  {
    StoppedBooks(c, blocks, books, turn);
    var states := books.states[task.id := "failed"];
    var failures := [FailureRecord("failure-" + ZeroPad(Digits(1), 6), turn.eventID, task.id, turn.phase, turn.message)];
    var ledger, evidence := FinishRun(recorder, c, w, opts, states, books.taskArtifacts, "failed", "run failed",
                                      books.artifacts, books.decisions, failures);
    result := RunResult(ledger, Some(evidence), Some(TaskError(turn.message)));
  }

  /** A task's turn, with the books brought up to date. */
  method RunReady(
    c: Contract, w: World, opts: Options, i: nat, completed: nat, books: Books,
    recorder: EventRecorder, adapter: Adapter, ghost blocks: seq<Block>)
    returns (step: Step)
    requires i < |c.tasks| && completed == |blocks| && books == BooksOf(c, blocks)
    requires Wired(w, opts, recorder, adapter) && Synced(blocks, recorder, adapter)
    requires forall d :: d in c.tasks[i].dependsOn ==> d in TaskIDs(c.tasks)
    requires c.tasks[i].id !in DoneIDs(blocks)
    modifies recorder, adapter
    ensures !step.Skipped?
    ensures var b := MakeBlock(c, w, opts, blocks, i);
            && (step.Ran? ==> b.outcome.Done? && step.books == BooksOf(c, blocks + [b])
                              && Synced(blocks + [b], recorder, adapter))
            && (step.Halted? ==> HaltedBy(c, blocks, b, step.books, step.turn)
                                 && Synced(blocks + [b], recorder, adapter))
  {
    var task := c.tasks[i];
    assert task in c.tasks;
    ghost var b := MakeBlock(c, w, opts, blocks, i);
    var decisions, turn := TakeTurn(c, w, opts, i, completed, adapter, recorder, books.states, blocks);
    var after := books.(decisions := books.decisions + decisions);
    SnocBooks(blocks, b);
    match turn {
      case Stopped(_, _, _) =>
        step := Halted(after, turn);
      case Completed(stamped, ids) =>
        step := Ran(Books(books.states[task.id := "success"], books.artifacts + stamped,
                          AddArtifacts(books.taskArtifacts, task.id, ids), after.decisions));
        CompletedBooks(c, blocks, b);
    }
  }

  lemma {:induction false} CompletedBooks(c: Contract, blocks: seq<Block>, b: Block)
    requires b.task in c.tasks && b.outcome.Done?
    ensures BooksOf(c, blocks + [b]) ==
            Books(BooksOf(c, blocks).states[b.task.id := "success"],
                  Artifacts(blocks) + Stamp(ArtifactsIn(b), GateLength(blocks, b)),
                  AddArtifacts(TaskArtifacts(blocks), b.task.id, IDsOf(ArtifactsIn(b))),
                  Decisions(blocks) + b.decisions)
  {
    SnocBooks(blocks, b);
    SnocDone(blocks, b);
    StatusMapAdd(TaskIDs(c.tasks), DoneIDs(blocks), b.task.id);
  }

  /** One position of the scan: skip the task, run it, or stop the run on its failure. */
  method TryTask(
    c: Contract, w: World, opts: Options, i: nat, completed: nat, books: Books,
    recorder: EventRecorder, adapter: Adapter, ghost blocks: seq<Block>)
    returns (step: Step)
    requires i < |c.tasks| && completed == |blocks| && books == BooksOf(c, blocks)
    requires Wired(w, opts, recorder, adapter) && Synced(blocks, recorder, adapter)
    requires forall d :: d in c.tasks[i].dependsOn ==> d in TaskIDs(c.tasks)
    modifies recorder, adapter
    ensures !step.Skipped? <==> Ready(c, DoneIDs(blocks), i)
    ensures step.Skipped? ==> Synced(blocks, recorder, adapter)
    ensures var b := MakeBlock(c, w, opts, blocks, i);
            && (step.Ran? ==> b.outcome.Done? && step.books == BooksOf(c, blocks + [b])
                              && Synced(blocks + [b], recorder, adapter))
            && (step.Halted? ==> HaltedBy(c, blocks, b, step.books, step.turn)
                                 && Synced(blocks + [b], recorder, adapter))
  {
    var task := c.tasks[i];
    assert task in c.tasks;
    if books.states[task.id] == "success" {
      return Skipped;
    }
    var ready := DependenciesComplete(books.states, task.dependsOn);
    if !ready {
      return Skipped;
    }
    step := RunReady(c, w, opts, i, completed, books, recorder, adapter, blocks);
  }

  method CheckContract(c: Contract, oracle: Validation.Oracle) returns (problem: Option<Validation.Problem>)
    ensures problem.None? <==> ValidContract.Valid(c, oracle)
    ensures problem.None? ==> exists rank: map<string, nat> :: Schedulable(c, rank)
  {
    problem := Validation.Validate(c, oracle);
    ValidContract.NoProblemExactly(c, oracle);
    if problem.None? {
      ghost var rank: map<string, nat> :| Ranks(DependencyMap(c.tasks), rank);
      DistinctGivesDistinctIDs(c.tasks);
      assert Schedulable(c, rank);
    }
  }

  method Execute(c: Contract, w: World, opts: Options)
    returns (result: RunResult, calls: seq<Call>, ghost blocks: seq<Block>, ghost passes: nat)
    ensures !w.contractSchemaOk(c) ==> result == RunResult([], None, Some(ContractSchemaInvalid)) && calls == []
    ensures w.contractSchemaOk(c) && !ValidContract.Valid(c, w.oracle) ==>
              && result.ledger == [] && result.evidence.None? && result.error.Some? && result.error.value.InvalidContract?
              && calls == []
    ensures w.contractSchemaOk(c) && ValidContract.Valid(c, w.oracle) ==>
              Describes(c, w, opts, blocks, result) && calls == Calls(blocks) && passes <= |c.tasks|
  {
    if !w.contractSchemaOk(c) {
      return RunResult([], None, Some(ContractSchemaInvalid)), [], [], 0;
    }
    var problem := CheckContract(c, w.oracle);
    if problem.Some? {
      return RunResult([], None, Some(InvalidContract(problem.value))), [], [], 0;
    }
    ghost var rank: map<string, nat> :| Schedulable(c, rank);
    result, calls, blocks, passes := RunTasks(c, w, opts, rank);
  }

  /** The loop of Execute: passes until every task has succeeded or one has stopped the run. */
  method RunTasks(c: Contract, w: World, opts: Options, ghost rank: map<string, nat>)
    returns (result: RunResult, calls: seq<Call>, ghost blocks: seq<Block>, ghost passes: nat)
    requires Schedulable(c, rank)
    ensures Describes(c, w, opts, blocks, result) && calls == Calls(blocks) && passes <= |c.tasks|
  {
    hide Describes, Stops, LegalRun, Schedulable;
    var recorder := new EventRecorder(opts.runID, w.hash);
    var adapter := new Adapter(w.act);
    var _ := recorder.Emit(RunStarted, "", "success", "run accepted", []);
    var books := Books(StatusMap(TaskIDs(c.tasks), {}), [], map[], []);
    var halt;
    books, halt, blocks, passes := RunPasses(c, w, opts, books, recorder, adapter, rank);
    calls := adapter.calls;
    result := Finish(c, w, opts, books, halt, recorder, blocks);
  }

  /** Which task stopped the run, and how. */
  datatype Halt = Halt(index: nat, turn: Turn)

  /** The run has stopped on its last block. */
  ghost predicate Stops(c: Contract, w: World, opts: Options, blocks: seq<Block>, books: Books, halt: Halt) {
    && LegalRun(c, w, opts, blocks) && blocks != []
    && halt.index == blocks[|blocks| - 1].index
    && HaltedBy(c, blocks[..|blocks| - 1], blocks[|blocks| - 1], books, halt.turn)
  }

  method Finish(
    c: Contract, w: World, opts: Options, books: Books, halt: Option<Halt>, recorder: EventRecorder,
    ghost blocks: seq<Block>)
    returns (result: RunResult)
    requires recorder.Valid() && recorder.hash == w.hash && recorder.runID == opts.runID
    requires recorder.drafts == Drafts(blocks) && LegalRun(c, w, opts, blocks)
    requires halt.Some? ==> Stops(c, w, opts, blocks, books, halt.value)
    requires halt.None? ==>
               books == BooksOf(c, blocks) && AllDone(blocks) && DoneIDs(blocks) == TaskIDs(c.tasks) && |blocks| == |c.tasks|
    modifies recorder
    ensures Describes(c, w, opts, blocks, result)
  {
    if halt.Some? {
      result := StopRun(c, w, opts, recorder, books, c.tasks[halt.value.index], halt.value.turn, blocks);
    } else {
      result := Conclude(c, w, opts, books, recorder, blocks);
    }
  }

  method RunPasses(
    c: Contract, w: World, opts: Options, start: Books, recorder: EventRecorder, adapter: Adapter,
    ghost rank: map<string, nat>)
    returns (books: Books, halt: Option<Halt>, ghost blocks: seq<Block>, ghost passes: nat)
    requires Schedulable(c, rank)
    requires Wired(w, opts, recorder, adapter) && Synced([], recorder, adapter) && start == BooksOf(c, [])
    modifies recorder, adapter
    ensures passes <= |c.tasks|
    ensures Synced(blocks, recorder, adapter)
    ensures halt.Some? ==> Stops(c, w, opts, blocks, books, halt.value)
    ensures halt.None? ==>
              && books == BooksOf(c, blocks)
              && LegalRun(c, w, opts, blocks) && AllDone(blocks)
              && DoneIDs(blocks) == TaskIDs(c.tasks) && |blocks| == |c.tasks|
  {
    books, halt, blocks, passes := start, None, [], 0;
    var completed := 0;
    ghost var wrapped := false;
    while completed < |c.tasks|
      invariant Synced(blocks, recorder, adapter) && books == BooksOf(c, blocks)
      invariant Progressing(c, w, opts, blocks) && completed == |blocks|
      invariant Scanned(c, blocks, 0, wrapped) && (!wrapped ==> blocks == [])
      invariant passes <= completed && halt.None?
      decreases |c.tasks| - completed
    {
      passes := passes + 1;
      var progress;
      progress, books, completed, halt, blocks, wrapped :=
        Pass(c, w, opts, completed, books, recorder, adapter, blocks, wrapped);
      if halt.Some? {
        return;
      }
      if !progress {
        // "task graph made no progress": unreachable after validation
        ScanFindsTask(c, rank, blocks);
        assert false;
      }
      wrapped := true;
    }
    EverythingDone(c, w, opts, blocks);
  }

  /** One pass over the task list in order. */
  method Pass(
    c: Contract, w: World, opts: Options, completed0: nat, books0: Books,
    recorder: EventRecorder, adapter: Adapter, ghost blocks0: seq<Block>, ghost wrapped0: bool)
    returns (progress: bool, books: Books, completed: nat, halt: Option<Halt>, ghost blocks: seq<Block>, ghost wrapped: bool)
    requires forall t, d :: t in c.tasks && d in t.dependsOn ==> d in TaskIDs(c.tasks)
    requires Wired(w, opts, recorder, adapter) && Synced(blocks0, recorder, adapter) && books0 == BooksOf(c, blocks0)
    requires Progressing(c, w, opts, blocks0) && completed0 == |blocks0|
    requires Scanned(c, blocks0, 0, wrapped0) && (!wrapped0 ==> blocks0 == [])
    modifies recorder, adapter
    ensures Synced(blocks, recorder, adapter)
    ensures halt.None? ==>
              && books == BooksOf(c, blocks) && Progressing(c, w, opts, blocks) && completed == |blocks|
              && Scanned(c, blocks, |c.tasks|, wrapped)
              && (if progress then !wrapped && completed0 < completed else wrapped == wrapped0 && blocks == blocks0)
    ensures halt.Some? ==> Stops(c, w, opts, blocks, books, halt.value)
  {
    hide *;
    progress, books, completed, halt, blocks, wrapped := false, books0, completed0, None, blocks0, wrapped0;
    for i := 0 to |c.tasks|
      invariant Synced(blocks, recorder, adapter) && books == BooksOf(c, blocks)
      invariant Progressing(c, w, opts, blocks) && completed == |blocks|
      invariant Scanned(c, blocks, i, wrapped) && halt.None?
      invariant if progress then !wrapped && completed0 < completed else wrapped == wrapped0 && blocks == blocks0
    {
      var ran;
      ran, books, halt, blocks, wrapped :=
        VisitTask(c, w, opts, i, completed, books, recorder, adapter, blocks, wrapped);
      if halt.Some? {
        return;
      }
      if ran {
        progress := true;
        completed := completed + 1;
      }
    }
  }

  /** One position of a pass, with the history and the scan brought up to date. */
  method VisitTask(
    c: Contract, w: World, opts: Options, i: nat, completed: nat, books0: Books,
    recorder: EventRecorder, adapter: Adapter, ghost blocks0: seq<Block>, ghost wrapped0: bool)
    returns (ran: bool, books: Books, halt: Option<Halt>, ghost blocks: seq<Block>, ghost wrapped: bool)
    requires i < |c.tasks| && completed == |blocks0|
    requires forall t, d :: t in c.tasks && d in t.dependsOn ==> d in TaskIDs(c.tasks)
    requires Wired(w, opts, recorder, adapter) && Synced(blocks0, recorder, adapter) && books0 == BooksOf(c, blocks0)
    requires Progressing(c, w, opts, blocks0) && Scanned(c, blocks0, i, wrapped0)
    modifies recorder, adapter
    ensures Synced(blocks, recorder, adapter)
    ensures halt.None? ==>
              && books == BooksOf(c, blocks) && Progressing(c, w, opts, blocks) && Scanned(c, blocks, i + 1, wrapped)
              && (if ran then !wrapped && |blocks| == |blocks0| + 1 else wrapped == wrapped0 && blocks == blocks0)
    ensures halt.Some? ==> Stops(c, w, opts, blocks, books, halt.value)
  {
    ran, books, halt, blocks, wrapped := false, books0, None, blocks0, wrapped0;
    var task := c.tasks[i];
    assert task in c.tasks;
    var step := TryTask(c, w, opts, i, completed, books, recorder, adapter, blocks);
    if step.Skipped? {
      ScanPasses(c, blocks, i, wrapped);
      return;
    }
    ghost var b := MakeBlock(c, w, opts, blocks, i);
    LegalExtends(c, w, opts, blocks, i, wrapped);
    SnocDone(blocks, b);
    blocks := blocks + [b];
    if step.Halted? {
      books, halt := step.books, Some(Halt(i, step.turn));
      assert blocks[..|blocks| - 1] == blocks0;
      return;
    }
    ProgressExtends(c, w, opts, blocks0, b);
    ScanRestarts(c, blocks, i);
    ran, books, wrapped := true, step.books, false;
  }

  /** After the last pass: the obligations are checked once more, then the run is finished. */
  method Conclude(
    c: Contract, w: World, opts: Options, books: Books, recorder: EventRecorder, ghost blocks: seq<Block>)
    returns (result: RunResult)
    requires recorder.Valid() && recorder.hash == w.hash && recorder.runID == opts.runID
    requires recorder.drafts == Drafts(blocks) && books == BooksOf(c, blocks)
    requires AllDone(blocks)
    modifies recorder
    ensures result ==
            match FirstUnsatisfied(c.obligations, SatisfiedObligations(c.tasks, DoneIDs(blocks)))
            case Some(id) => RunResult(Chain(opts.runID, w.hash, Drafts(blocks)), None, Some(ObligationUnsatisfied(id)))
            case None => RunResult(LedgerOf(w, opts, blocks, "success"), Some(EvidenceOf(c, w, opts, blocks, "success")), None)
  {
    var missing := VerifyRequiredObligations(c, books.states, DoneIDs(blocks));
    if missing.Some? {
      return RunResult(recorder.written, None, Some(ObligationUnsatisfied(missing.value)));
    }
    assert books.states == Statuses(c, blocks);
    assert Failures(blocks) == [];
    var ledger, evidence := FinishRun(recorder, c, w, opts, books.states, books.taskArtifacts, "success", "run completed",
                                      books.artifacts, books.decisions, []);
    result := RunResult(ledger, Some(evidence), None);
  }

  /** While fewer blocks than tasks are done, a full scan always meets a ready task. */
  lemma {:induction false} ScanFindsTask(c: Contract, rank: map<string, nat>, blocks: seq<Block>)
    requires Schedulable(c, rank)
    requires DoneIDs(blocks) <= TaskIDs(c.tasks) && |DoneIDs(blocks)| < |c.tasks|
    ensures !NoneReady(c, DoneIDs(blocks), 0, |c.tasks|)
  {
    DistinctCount(c.tasks);
    var i := UnfinishedTask(c, DoneIDs(blocks));
    SomeReady(c, rank, DoneIDs(blocks), i);
  }

  lemma {:induction false} EverythingDone(c: Contract, w: World, opts: Options, blocks: seq<Block>)
    requires Progressing(c, w, opts, blocks) && |blocks| >= |c.tasks|
    ensures DoneIDs(blocks) == TaskIDs(c.tasks) && |blocks| == |c.tasks|
  {
    TaskIDCount(c.tasks);
    SubsetSize(DoneIDs(blocks), TaskIDs(c.tasks));
    SubsetOfSameSize(DoneIDs(blocks), TaskIDs(c.tasks));
  }

  lemma {:induction false} DistinctCount(tasks: seq<Task>)
    requires DistinctIDs(tasks)
    ensures |TaskIDs(tasks)| == |tasks|
  {
    if tasks != [] {
      var n := |tasks| - 1;
      DistinctCount(tasks[..n]);
      assert tasks == tasks[..n] + [tasks[n]];
      assert TaskIDs(tasks) == TaskIDs(tasks[..n]) + {tasks[n].id};
    }
  }

  lemma {:induction false} UnfinishedTask(c: Contract, done: set<string>) returns (i: nat)
    requires done <= TaskIDs(c.tasks) && |done| < |TaskIDs(c.tasks)|
    ensures i < |c.tasks| && c.tasks[i].id !in done
  {
    if forall k :: 0 <= k < |c.tasks| ==> c.tasks[k].id in done {
      assert TaskIDs(c.tasks) <= done;
      SubsetSize(TaskIDs(c.tasks), done);
    }
    i :| 0 <= i < |c.tasks| && c.tasks[i].id !in done;
  }
}
