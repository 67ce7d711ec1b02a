/** One turn of a task: policy gate, adapter calls and ledger entries; and how a run is finished. */
module Executor {
  import opened Text
  import opened Contracts
  import opened Ledger
  import opened Evidence
  import opened Run
  import Policy
  import Closure
  import Validation

  datatype RunError =
    | ContractSchemaInvalid
    | InvalidContract(problem: Validation.Problem)
    | NoProgress
    | ObligationUnsatisfied(id: string)
    | TaskError(message: string)

  datatype RunResult = RunResult(ledger: seq<Event>, evidence: Option<EvidencePack>, error: Option<RunError>)

  /** The action adapter, with a record of the calls made so far. */
  class Adapter {
    const act: (nat, Task, nat) -> Result<seq<ArtifactRef>, string>
    var calls: seq<Call>

    constructor (act: (nat, Task, nat) -> Result<seq<ArtifactRef>, string>)
      ensures this.act == act && calls == []
    {
      this.act, calls := act, [];
    }

    method ExecuteAction(recorder: EventRecorder, task: Task, index: nat)
      returns (answer: Result<seq<ArtifactRef>, string>)
      modifies this
      ensures answer == act(|old(calls)|, task, index)
      ensures calls == old(calls) + [Call(task, index, |recorder.written|)]
    {
      answer := act(|calls|, task, index);
      calls := calls + [Call(task, index, |recorder.written|)];
    }
  }

  // ----- the parts of Execute -----

  method ExecuteSideEffects(adapter: Adapter, recorder: EventRecorder, w: World, task: Task)
    returns (r: Result<seq<ArtifactRef>, string>)
    requires adapter.act == w.act
    modifies adapter
    ensures var run := RunEffects(w, task, |old(adapter.calls)|, 0);
            && r == (match run case Broken(m, _) => Err(m) case Produced(artifacts, _) => Ok(artifacts))
            && adapter.calls == old(adapter.calls)
                 + CallRun(task, run.calls, |recorder.written|)
  {
    var artifacts: seq<ArtifactRef> := [];
    var first := |adapter.calls|;
    for index := 0 to |task.effects|
      invariant adapter.calls == old(adapter.calls) + CallRun(task, index, |recorder.written|)
      invariant RunEffects(w, task, first, 0) ==
                match RunEffects(w, task, first, index)
                case Broken(m, n) => Broken(m, n)
                case Produced(rest, n) => Produced(artifacts + rest, n)
    {
      var answer := adapter.ExecuteAction(recorder, task, index);
      assert CallRun(task, index + 1, |recorder.written|)
          == CallRun(task, index, |recorder.written|) + [Call(task, index, |recorder.written|)];
      match answer {
        case Err(m) => return Err(m);
        case Ok(more) =>
          assert forall rest: seq<ArtifactRef> :: artifacts + (more + rest) == (artifacts + more) + rest;
          artifacts := artifacts + more;
      }
    }
    assert artifacts + [] == artifacts;
    r := Ok(artifacts);
  }

  method DependenciesComplete(states: map<string, string>, deps: seq<string>) returns (complete: bool)
    requires forall d :: d in deps ==> d in states
    ensures complete <==> forall d :: d in deps ==> states[d] == "success"
  {
    for i := 0 to |deps|
      invariant forall k :: 0 <= k < i ==> states[deps[k]] == "success"
    {
      if states[deps[i]] != "success" {
        return false;
      }
    }
    complete := true;
  }

  method VerifyDependenciesSucceeded(w: World, states: map<string, string>, deps: seq<string>, ghost done: set<string>)
    returns (problem: Option<string>)
    requires forall d :: d in deps ==> d in states
    requires forall d :: d in states ==> (states[d] == "success" <==> d in done)
    ensures problem == (match FirstIncomplete(deps, done)
                        case None => None
                        case Some(d) => Some(w.text(DependencyNotSucceeded(d))))
  {
    for i := 0 to |deps|
      invariant FirstIncomplete(deps, done) == FirstIncomplete(deps[i..], done)
    {
      assert deps[i..][1..] == deps[i + 1..];
      if states[deps[i]] != "success" {
        return Some(w.text(DependencyNotSucceeded(deps[i])));
      }
    }
    problem := None;
  }

  method VerifyRequiredObligations(c: Contract, states: map<string, string>, ghost done: set<string>)
    returns (missing: Option<string>)
    requires forall t :: t in c.tasks ==> t.id in states && (states[t.id] == "success" <==> t.id in done)
    ensures missing == FirstUnsatisfied(c.obligations, SatisfiedObligations(c.tasks, done))
  {
    var satisfied: set<string> := {};
    for i := 0 to |c.tasks|
      invariant satisfied == SatisfiedObligations(c.tasks[..i], done)
    {
      assert c.tasks[..i + 1] == c.tasks[..i] + [c.tasks[i]];
      if states[c.tasks[i].id] == "success" {
        satisfied := satisfied + set o | o in c.tasks[i].obligations;
      }
    }
    assert c.tasks[..|c.tasks|] == c.tasks;
    for i := 0 to |c.obligations|
      invariant FirstUnsatisfied(c.obligations, satisfied) == FirstUnsatisfied(c.obligations[i..], satisfied)
    {
      assert c.obligations[i..][1..] == c.obligations[i + 1..];
      if c.obligations[i].required && c.obligations[i].id !in satisfied {
        return Some(c.obligations[i].id);
      }
    }
    missing := None;
  }

  method FirstDeniedDecision(decisions: seq<Policy.Decision>) returns (denied: Option<Policy.Decision>)
    ensures denied == FirstDenied(decisions)
  {
    for i := 0 to |decisions|
      invariant FirstDenied(decisions) == FirstDenied(decisions[i..])
    {
      assert decisions[i..][1..] == decisions[i + 1..];
      if decisions[i].verdict == Policy.DENY {
        return Some(decisions[i]);
      }
    }
    denied := None;
  }

  method RecordDecisions(recorder: EventRecorder, taskID: string, decisions: seq<Policy.Decision>)
    requires recorder.Valid()
    requires forall i :: 0 <= i < |decisions| ==> decisions[i].taskID == taskID
    modifies recorder
    ensures recorder.Valid() && recorder.drafts == old(recorder.drafts) + DecisionDrafts(decisions)
  {
    for i := 0 to |decisions|
      invariant recorder.Valid()
      invariant recorder.drafts == old(recorder.drafts) + DecisionDrafts(decisions[..i])
    {
      var status := "success";
      if decisions[i].verdict == Policy.DENY {
        status := "failed";
      }
      var _ := recorder.EmitPolicyDecision(taskID, status, decisions[i]);
      assert DecisionDrafts(decisions[..i + 1]) == DecisionDrafts(decisions[..i]) + [PolicyDraft(decisions[i])];
    }
    assert decisions[..|decisions|] == decisions;
  }

  method RecordArtifacts(recorder: EventRecorder, taskID: string, artifacts: seq<ArtifactRef>)
    returns (stamped: seq<ArtifactRef>, ids: seq<string>)
    requires recorder.Valid()
    modifies recorder
    ensures recorder.Valid() && recorder.drafts == old(recorder.drafts) + ArtifactDrafts(taskID, artifacts)
    ensures stamped == Stamp(artifacts, |old(recorder.drafts)|)
    ensures ids == IDsOf(artifacts)
  {
    stamped, ids := [], [];
    for i := 0 to |artifacts|
      invariant recorder.Valid()
      invariant recorder.drafts == old(recorder.drafts) + ArtifactDrafts(taskID, artifacts[..i])
      invariant stamped == Stamp(artifacts[..i], |old(recorder.drafts)|)
      invariant ids == IDsOf(artifacts[..i])
    {
      var event := recorder.Emit(ArtifactRecorded, taskID, "success", artifacts[i].path, [artifacts[i].artifactID]);
      stamped := stamped + [artifacts[i].(producerEventID := event.body.eventID)];
      ids := ids + [artifacts[i].artifactID];
      ArtifactStep(taskID, artifacts, i, |old(recorder.drafts)|);
    }
    assert artifacts[..|artifacts|] == artifacts;
  }

  method ExecuteTask(
    c: Contract, task: Task, w: World, adapter: Adapter, recorder: EventRecorder,
    states: map<string, string>, turn: nat, ghost done: set<string>)
    returns (r: Result<seq<ArtifactRef>, string>)
    requires adapter.act == w.act
    requires forall d :: d in task.dependsOn ==> d in states
    requires forall t :: t in c.tasks ==> t.id in states
    requires forall d :: d in states ==> (states[d] == "success" <==> d in done)
    modifies adapter
    ensures var run := ExecuteTaskResult(c, task, w, done, |old(adapter.calls)|, turn);
            && r == (match run case Broken(m, _) => Err(m) case Produced(artifacts, _) => Ok(artifacts))
            && adapter.calls == old(adapter.calls)
                 + CallRun(task, run.calls, |recorder.written|)
  {
    if task.kind == "scripted" || task.kind == "shell" || task.kind == "agent" {
      r := ExecuteSideEffects(adapter, recorder, w, task);
    } else if task.kind == "verify" {
      var problem := w.checkWrites(turn);
      r := if problem.Some? then Err(problem.value) else Ok([]);
    } else if task.kind == "review" {
      var problem := VerifyDependenciesSucceeded(w, states, task.dependsOn, done);
      r := if problem.Some? then Err(problem.value) else Ok([]);
    } else if task.kind == "evaluate" {
      var missing := VerifyRequiredObligations(c, states, done);
      r := if missing.Some? then Err(w.text(Unsatisfied(missing.value))) else Ok([]);
    } else {
      r := Err(w.text(UnsupportedKind(task.kind)));
    }
  }

  method FinishRun(
    recorder: EventRecorder, c: Contract, w: World, opts: Options, states: map<string, string>,
    taskArtifacts: map<string, seq<string>>, status: string, message: string,
    artifacts: seq<ArtifactRef>, decisions: seq<Policy.Decision>, failures: seq<FailureRecord>)
    returns (ledger: seq<Event>, evidence: EvidencePack)
    requires recorder.Valid() && recorder.hash == w.hash && recorder.runID == opts.runID
    modifies recorder
    ensures ledger == Chain(opts.runID, w.hash,
                            old(recorder.drafts) + [Plain(RunFinished, "", status, message, [])])
    ensures evidence == EvidencePack(
              opts.runID, opts.contractDigest, w.digest(ledger), status, artifacts, decisions, failures,
              Closure.MatrixOf(Closure.Input(opts.runID, opts.contractDigest, status, c.obligations, c.tasks,
                                             states, taskArtifacts, decisions)))
  {
    var _ := recorder.Emit(RunFinished, "", status, message, []);
    ledger := recorder.written;
    var matrix := Closure.Evaluate(Closure.Input(opts.runID, opts.contractDigest, status, c.obligations, c.tasks,
                                                 states, taskArtifacts, decisions));
    evidence := EvidencePack(opts.runID, opts.contractDigest, w.digest(ledger), status,
                             artifacts, decisions, failures, matrix);
  }

  // ----- one turn -----

  datatype Turn =
    | Completed(stamped: seq<ArtifactRef>, ids: seq<string>)
    | Stopped(phase: string, message: string, eventID: string)

  lemma {:induction false} CallCountIsLength(blocks: seq<Block>)
    ensures |Calls(blocks)| == CallCount(blocks)
  {
    if blocks != [] {
      CallCountIsLength(blocks[..|blocks| - 1]);
    }
  }

  lemma {:induction false} SnocDrafts(blocks: seq<Block>, b: Block)
    ensures Drafts(blocks + [b]) == Drafts(blocks) + BlockDrafts(b)
    ensures Calls(blocks + [b]) == Calls(blocks) + BlockCalls(blocks, b)
  {
    assert (blocks + [b])[..|blocks|] == blocks;
  }

  lemma {:induction false} SnocBooks(blocks: seq<Block>, b: Block)
    ensures Artifacts(blocks + [b]) == Artifacts(blocks) + Stamp(ArtifactsIn(b), GateLength(blocks, b))
    ensures TaskArtifacts(blocks + [b]) == AddArtifacts(TaskArtifacts(blocks), b.task.id, IDsOf(ArtifactsIn(b)))
    ensures Decisions(blocks + [b]) == Decisions(blocks) + b.decisions
  {
    assert (blocks + [b])[..|blocks|] == blocks;
  }

  lemma {:induction false} SnocDone(blocks: seq<Block>, b: Block)
    ensures DoneIDs(blocks + [b]) == DoneIDs(blocks) + if b.outcome.Done? then {b.task.id} else {}
    ensures AllDone(blocks + [b]) <==> AllDone(blocks) && b.outcome.Done?
  {
    assert (blocks + [b])[..|blocks|] == blocks;
  }

  /** What a turn reports back, by the block it stands for. */
  ghost function TurnOf(before: seq<Block>, b: Block): Turn {
    match b.outcome
    case Done(artifacts, _) => Completed(Stamp(artifacts, GateLength(before, b)), IDsOf(artifacts))
    case Denied(m) => Stopped("policy", m, EventID(|Drafts(before + [b])|))
    case Failed(phase, m, _) => Stopped(phase, m, EventID(|Drafts(before + [b])|))
  }

  method StartTask(c: Contract, task: Task, w: World, opts: Options, turn: nat, recorder: EventRecorder)
    returns (decisions: seq<Policy.Decision>)
    requires recorder.Valid()
    modifies recorder
    ensures decisions == TaskPolicy(c, task, opts, w, turn)
    ensures recorder.Valid() && recorder.drafts == old(recorder.drafts) + GateDrafts(task, decisions)
  {
    var _ := recorder.Emit(TaskStarted, task.id, "success", "task started", []);
    decisions := Policy.EvaluateTask(PolicyInput(c, task, opts, w.now(turn)), ClockAt(w, turn));
    RecordDecisions(recorder, task.id, decisions);
    assert recorder.drafts == old(recorder.drafts) + ([Started(task)] + DecisionDrafts(decisions));
  }

  method RecordOutcome(recorder: EventRecorder, task: Task, executed: Result<seq<ArtifactRef>, string>, ghost run: Executed)
    returns (result: Turn)
    requires recorder.Valid()
    requires executed == match run case Broken(m, _) => Err(m) case Produced(artifacts, _) => Ok(artifacts)
    modifies recorder
    ensures recorder.Valid()
    ensures recorder.drafts == old(recorder.drafts) + OutcomeDrafts(task.id, ExecutedOutcome(task, run))
    ensures result == match run
                      case Broken(m, _) => Stopped(FailurePhase(task), m, EventID(|recorder.drafts|))
                      case Produced(artifacts, _) => Completed(Stamp(artifacts, |old(recorder.drafts)|), IDsOf(artifacts))
  {
    if executed.Err? {
      var event := recorder.Emit(TaskFinished, task.id, "failed", executed.error, []);
      return Stopped(FailurePhase(task), executed.error, event.body.eventID);
    }
    var stamped, ids := RecordArtifacts(recorder, task.id, executed.value);
    var _ := recorder.Emit(TaskFinished, task.id, "success", "task completed", ids);
    result := Completed(stamped, ids);
  }

  lemma {:induction false} Assemble(base: seq<Draft>, gate: seq<Draft>, tail: seq<Draft>)
    ensures (base + gate) + tail == base + (gate + tail)
  {
  }

  /** Starts a task, gates it, runs it and records what came of it. */
  method TakeTurn(
    c: Contract, w: World, opts: Options, index: nat, turn: nat, adapter: Adapter, recorder: EventRecorder,
    states: map<string, string>, ghost before: seq<Block>)
    returns (decisions: seq<Policy.Decision>, result: Turn)
    requires index < |c.tasks| && turn == |before|
    requires recorder.Valid() && recorder.drafts == Drafts(before)
    requires adapter.act == w.act && adapter.calls == Calls(before)
    requires forall d :: d in c.tasks[index].dependsOn ==> d in states
    requires forall t :: t in c.tasks ==> t.id in states
    requires forall d :: d in states ==> (states[d] == "success" <==> d in DoneIDs(before))
    modifies recorder, adapter
    ensures var b := MakeBlock(c, w, opts, before, index);
            && recorder.Valid() && recorder.drafts == Drafts(before + [b])
            && adapter.calls == Calls(before + [b])
            && decisions == b.decisions && result == TurnOf(before, b)
  {
    var task := c.tasks[index];
    ghost var b := MakeBlock(c, w, opts, before, index);
    SnocDrafts(before, b);
    CallCountIsLength(before);
    decisions := StartTask(c, task, w, opts, turn, recorder);
    Assemble(Drafts(before), GateDrafts(task, decisions), OutcomeDrafts(task.id, b.outcome));
    assert |recorder.written| == |recorder.drafts| == GateLength(before, b);
    var denied := FirstDeniedDecision(decisions);
    if denied.Some? {
      var message := DenialText(w, task, denied.value);
      var event := recorder.Emit(TaskFinished, task.id, "failed", message, []);
      result := Stopped("policy", message, event.body.eventID);
    } else {
      ghost var run := ExecuteTaskResult(c, task, w, DoneIDs(before), |adapter.calls|, turn);
      var executed := ExecuteTask(c, task, w, adapter, recorder, states, turn, DoneIDs(before));
      result := RecordOutcome(recorder, task, executed, run);
    }
  }
}
