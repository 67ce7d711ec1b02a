/** The shape of every run's ledger, by an automaton that knows only the contract, and the policy gate
    in front of every adapter call. */
module LedgerGrammar {
  import opened Text
  import opened Contracts
  import opened Ledger
  import opened Evidence
  import opened Run
  import Policy
  import Paths

  datatype Phase =
    | Fresh
    | Idle
    | Deciding(task: Task, next: nat, denied: bool)
    | Recording(task: Task, ids: seq<string>)
    | Stopped
    | Ended

  /** What the automaton remembers: its phase, the tasks started and the tasks finished with success. */
  datatype Reading = Reading(phase: Phase, started: set<string>, finished: set<string>)

  const START := Reading(Fresh, {}, {})

  /** The contract's task with this ID. */
  function FindTask(tasks: seq<Task>, id: string): Option<Task> {
    if tasks == [] then None else if tasks[0].id == id then Some(tasks[0]) else FindTask(tasks[1..], id)
  }

  /** Reads one event: a task may start once, after its dependencies; each declared effect gets its decision
      in index order, failed for a denial; success needs every decision to be an allowance and lists exactly the
      artifacts recorded since, one by one; after a failure only run_finished, with its status. */
  function Step(c: Contract, r: Reading, e: Draft): Option<Reading> {
    match r.phase
    case Fresh => if e == Plain(RunStarted, "", "success", "run accepted", []) then Some(r.(phase := Idle)) else None
    case Idle =>
      if e == Plain(TaskStarted, e.taskID, "success", "task started", []) then
        match FindTask(c.tasks, e.taskID)
        case None => None
        case Some(t) =>
          if t.id in r.started || (exists d :: d in t.dependsOn && d !in r.finished) then None
          else Some(Reading(Deciding(t, 0, false), r.started + {t.id}, r.finished))
      else if e == Plain(RunFinished, "", "success", "run completed", []) then Some(r.(phase := Ended))
      else None
    case Deciding(t, k, denied) =>
      if e.taskID != t.id then None
      else if e.kind.PolicyDecided? then
        if k < |t.effects| && e.effectType == t.effects[k].effectType
           && e.resource == Paths.SlashClean(t.effects[k].resource) && e.decisionID == Policy.DecisionID(t.id, k)
           && e.status == (if e.decision == Policy.ALLOW then "success" else "failed") && e.artifactIDs == []
        then Some(r.(phase := Deciding(t, k + 1, denied || e.decision != Policy.ALLOW)))
        else None
      else if k < |t.effects| then None
      else if IsFailedEnd(t, e) then Some(r.(phase := Stopped))
      else if denied then None
      else if IsRecord(t, e) then Some(r.(phase := Recording(t, e.artifactIDs)))
      else if IsSuccessfulEnd(t, [], e) then Some(Reading(Idle, r.started, r.finished + {t.id}))
      else None
    case Recording(t, ids) =>
      if IsRecord(t, e) then Some(r.(phase := Recording(t, ids + e.artifactIDs)))
      else if IsSuccessfulEnd(t, ids, e) then Some(Reading(Idle, r.started, r.finished + {t.id}))
      else None
    case Stopped => if e == Plain(RunFinished, "", "failed", "run failed", []) then Some(r.(phase := Ended)) else None
    case Ended => None
  }

  predicate IsFailedEnd(t: Task, e: Draft) {
    e == Plain(TaskFinished, t.id, "failed", e.message, [])
  }

  predicate IsSuccessfulEnd(t: Task, ids: seq<string>, e: Draft) {
    e == Plain(TaskFinished, t.id, "success", "task completed", ids)
  }

  /** One artifact's event: its message is a path, its only ID the artifact's. */
  predicate IsRecord(t: Task, e: Draft) {
    |e.artifactIDs| == 1 && e == Plain(ArtifactRecorded, t.id, "success", e.message, e.artifactIDs)
  }

  function Read(c: Contract, r: Reading, events: seq<Draft>): Option<Reading>
    decreases |events|
  {
    if events == [] then Some(r)
    else match Step(c, r, events[0])
      case None => None
      case Some(next) => Read(c, next, events[1..])
  }

  lemma {:induction false} ReadConcat(c: Contract, r: Reading, a: seq<Draft>, b: seq<Draft>)
    ensures Read(c, r, a + b) ==
            match Read(c, r, a) case None => None case Some(next) => Read(c, next, b)
    decreases |a|
  {
    if a == [] {
      assert a + b == b;
    } else {
      assert (a + b)[1..] == a[1..] + b;
      match Step(c, r, a[0])
      case None =>
      case Some(next) => ReadConcat(c, next, a[1..], b);
    }
  }

  lemma {:induction false} ReadOne(c: Contract, r: Reading, e: Draft)
    ensures Read(c, r, [e]) == Step(c, r, e)
  {
    assert [e][1..] == [];
  }

  // ----- one block -----

  function AnyDenied(decisions: seq<Policy.Decision>, n: nat): bool
    requires n <= |decisions|
  {
    exists i :: 0 <= i < n && decisions[i].verdict != Policy.ALLOW
  }

  /** The decisions of a task's turn, one per declared effect. */
  ghost predicate DecisionsFor(task: Task, decisions: seq<Policy.Decision>) {
    && |decisions| == |task.effects|
    && forall i :: 0 <= i < |decisions| ==>
         && decisions[i].taskID == task.id
         && decisions[i].decisionID == Policy.DecisionID(task.id, i)
         && decisions[i].effectType == task.effects[i].effectType
         && decisions[i].resource == Paths.SlashClean(task.effects[i].resource)
         && (decisions[i].verdict == Policy.ALLOW || decisions[i].verdict == Policy.DENY)
  }

  lemma {:induction false} TaskPolicyDecides(c: Contract, task: Task, opts: Options, w: World, turn: nat)
    ensures DecisionsFor(task, TaskPolicy(c, task, opts, w, turn))
  {
  }

  lemma {:induction false} StepDecision(c: Contract, r: Reading, task: Task, decisions: seq<Policy.Decision>, n: nat)
    requires DecisionsFor(task, decisions) && n < |decisions|
    requires r.phase == Deciding(task, n, AnyDenied(decisions, n))
    ensures Step(c, r, PolicyDraft(decisions[n])) == Some(r.(phase := Deciding(task, n + 1, AnyDenied(decisions, n + 1))))
  {
    assert AnyDenied(decisions, n + 1) <==> AnyDenied(decisions, n) || decisions[n].verdict != Policy.ALLOW;
  }

  lemma {:induction false} ReadDecisions(c: Contract, r: Reading, task: Task, decisions: seq<Policy.Decision>, n: nat)
    requires DecisionsFor(task, decisions) && n <= |decisions|
    requires r.phase == Deciding(task, 0, false)
    ensures Read(c, r, DecisionDrafts(decisions)[..n]) == Some(r.(phase := Deciding(task, n, AnyDenied(decisions, n))))
  {
    var drafts := DecisionDrafts(decisions);
    if n > 0 {
      ReadDecisions(c, r, task, decisions, n - 1);
      assert drafts[..n] == drafts[..n - 1] + [drafts[n - 1]];
      ReadConcat(c, r, drafts[..n - 1], [drafts[n - 1]]);
      var mid := r.(phase := Deciding(task, n - 1, AnyDenied(decisions, n - 1)));
      ReadOne(c, mid, drafts[n - 1]);
      StepDecision(c, mid, task, decisions, n - 1);
    }
  }

  /** The phase in which these artifacts are recorded. */
  function After(task: Task, ids: seq<string>): Phase {
    if ids == [] then Deciding(task, |task.effects|, false) else Recording(task, ids)
  }

  lemma {:induction false} StepRecord(c: Contract, r: Reading, task: Task, ids: seq<string>, a: ArtifactRef)
    requires r.phase == After(task, ids)
    ensures Step(c, r, ArtifactDraft(task.id, a)) == Some(r.(phase := After(task, ids + [a.artifactID])))
  {
    assert [] + [a.artifactID] == [a.artifactID];
  }

  lemma {:induction false} ReadArtifacts(c: Contract, r: Reading, task: Task, artifacts: seq<ArtifactRef>)
    requires r.phase == Deciding(task, |task.effects|, false)
    ensures Read(c, r, ArtifactDrafts(task.id, artifacts)) == Some(r.(phase := After(task, IDsOf(artifacts))))
    decreases |artifacts|
  {
    if artifacts != [] {
      var n := |artifacts| - 1;
      var front, last := ArtifactDrafts(task.id, artifacts[..n]), ArtifactDraft(task.id, artifacts[n]);
      ReadArtifacts(c, r, task, artifacts[..n]);
      assert ArtifactDrafts(task.id, artifacts) == front + [last];
      assert IDsOf(artifacts) == IDsOf(artifacts[..n]) + [artifacts[n].artifactID];
      hide Step, ArtifactDraft, ArtifactDrafts, IDsOf;
      ReadConcat(c, r, front, [last]);
      var mid := r.(phase := After(task, IDsOf(artifacts[..n])));
      ReadOne(c, mid, last);
      StepRecord(c, mid, task, IDsOf(artifacts[..n]), artifacts[n]);
    }
  }

  lemma {:induction false} NoneDenied(decisions: seq<Policy.Decision>)
    requires forall i :: 0 <= i < |decisions| ==> decisions[i].verdict == Policy.ALLOW || decisions[i].verdict == Policy.DENY
    ensures FirstDenied(decisions).None? <==> !AnyDenied(decisions, |decisions|)
  {
    if decisions != [] {
      NoneDenied(decisions[1..]);
      if AnyDenied(decisions[1..], |decisions| - 1) {
        var i :| 0 <= i < |decisions| - 1 && decisions[1..][i].verdict != Policy.ALLOW;
        assert decisions[i + 1].verdict != Policy.ALLOW;
      }
      if i :| 0 <= i < |decisions| && decisions[i].verdict != Policy.ALLOW {
        if i > 0 {
          assert decisions[1..][i - 1].verdict != Policy.ALLOW;
        }
      }
    }
  }

  lemma {:induction false} ReadOutcome(c: Contract, r: Reading, task: Task, outcome: Outcome, denied: bool)
    requires r.phase == Deciding(task, |task.effects|, denied)
    requires outcome.Done? ==> !denied
    ensures Read(c, r, OutcomeDrafts(task.id, outcome)) ==
            Some(if outcome.Done? then Reading(Idle, r.started, r.finished + {task.id}) else r.(phase := Stopped))
  {
    match outcome
    case Denied(m) => ReadOne(c, r, Plain(TaskFinished, task.id, "failed", m, []));
    case Failed(_, m, _) => ReadOne(c, r, Plain(TaskFinished, task.id, "failed", m, []));
    case Done(artifacts, _) =>
      var last := Plain(TaskFinished, task.id, "success", "task completed", IDsOf(artifacts));
      ReadArtifacts(c, r, task, artifacts);
      ReadConcat(c, r, ArtifactDrafts(task.id, artifacts), [last]);
      ReadOne(c, r.(phase := After(task, IDsOf(artifacts))), last);
  }

  lemma {:induction false} ReadBlock(c: Contract, r: Reading, b: Block)
    requires DecisionsFor(b.task, b.decisions)
    requires b.outcome.Done? ==> !AnyDenied(b.decisions, |b.decisions|)
    requires r.phase == Idle && FindTask(c.tasks, b.task.id) == Some(b.task)
    requires b.task.id !in r.started && forall d :: d in b.task.dependsOn ==> d in r.finished
    ensures Read(c, r, BlockDrafts(b)) ==
            Some(Reading(if b.outcome.Done? then Idle else Stopped, r.started + {b.task.id},
                         r.finished + if b.outcome.Done? then {b.task.id} else {}))
  {
    ReadGate(c, r, b);
    var gate := Reading(Deciding(b.task, |b.decisions|, AnyDenied(b.decisions, |b.decisions|)), r.started + {b.task.id}, r.finished);
    ReadOutcome(c, gate, b.task, b.outcome, gate.phase.denied);
    ReadConcat(c, r, GateDrafts(b.task, b.decisions), OutcomeDrafts(b.task.id, b.outcome));
    assert r.finished + {} == r.finished;
  }

  lemma {:induction false} ReadGate(c: Contract, r: Reading, b: Block)
    requires DecisionsFor(b.task, b.decisions)
    requires r.phase == Idle && FindTask(c.tasks, b.task.id) == Some(b.task)
    requires b.task.id !in r.started && forall d :: d in b.task.dependsOn ==> d in r.finished
    ensures Read(c, r, GateDrafts(b.task, b.decisions)) ==
            Some(Reading(Deciding(b.task, |b.decisions|, AnyDenied(b.decisions, |b.decisions|)),
                         r.started + {b.task.id}, r.finished))
  {
    var begun := Reading(Deciding(b.task, 0, false), r.started + {b.task.id}, r.finished);
    var drafts := DecisionDrafts(b.decisions);
    assert Step(c, r, Started(b.task)) == Some(begun);
    ReadOne(c, r, Started(b.task));
    ReadDecisions(c, begun, b.task, b.decisions, |b.decisions|);
    assert drafts[..|b.decisions|] == drafts;
    ReadConcat(c, r, [Started(b.task)], drafts);
  }

  // ----- every run -----

  function StartedIDs(blocks: seq<Block>): set<string> {
    if blocks == [] then {} else StartedIDs(blocks[..|blocks| - 1]) + {blocks[|blocks| - 1].task.id}
  }

  lemma {:induction false} AllDoneStarted(blocks: seq<Block>)
    requires AllDone(blocks)
    ensures StartedIDs(blocks) == DoneIDs(blocks)
  {
    if blocks != [] {
      AllDoneStarted(blocks[..|blocks| - 1]);
    }
  }

  lemma {:induction false} FindTaskAt(tasks: seq<Task>, i: nat)
    requires i < |tasks| && forall a, b :: 0 <= a < b < |tasks| ==> tasks[a].id != tasks[b].id
    ensures FindTask(tasks, tasks[i].id) == Some(tasks[i])
  {
    if i > 0 {
      assert tasks[0].id != tasks[i].id;
      FindTaskAt(tasks[1..], i - 1);
    }
  }

  /** What holds of every block: it is denied exactly when one of its decisions is not an allowance. */
  ghost predicate BlockShape(b: Block) {
    && DecisionsFor(b.task, b.decisions)
    && (!b.outcome.Denied? <==> !AnyDenied(b.decisions, |b.decisions|))
    && CallsIn(b) <= |b.task.effects|
  }

  lemma {:induction false} MadeBlock(c: Contract, w: World, opts: Options, before: seq<Block>, index: nat)
    requires index < |c.tasks|
    ensures var b := MakeBlock(c, w, opts, before, index);
            b.task == c.tasks[index] && BlockShape(b)
  {
    var b := MakeBlock(c, w, opts, before, index);
    TaskPolicyDecides(c, b.task, opts, w, |before|);
    NoneDenied(b.decisions);
    MadeCalls(c, w, opts, before, index);
  }

  lemma {:induction false} MadeCalls(c: Contract, w: World, opts: Options, before: seq<Block>, index: nat)
    requires index < |c.tasks|
    ensures CallsIn(MakeBlock(c, w, opts, before, index)) <= |c.tasks[index].effects|
  {
    CallsBounded(w, c.tasks[index], CallCount(before), 0);
  }

  /** The adapter's answer to the i-th effect of a task whose first call is this one. */
  function AnswerTo(w: World, task: Task, firstCall: nat, i: nat): Result<seq<ArtifactRef>, string> {
    w.act(firstCall + i, task, i)
  }

  predicate AllAnswered(w: World, task: Task, firstCall: nat, from: nat, to: nat) {
    forall i :: from <= i < to ==> AnswerTo(w, task, firstCall, i).Ok?
  }

  /** The actions succeed together exactly when the adapter's answer to each of them is no error; otherwise the
      first error ends them and is the task's message. */
  lemma {:induction false} EffectsExactly(w: World, task: Task, firstCall: nat, from: nat)
    requires from <= |task.effects|
    ensures var run := RunEffects(w, task, firstCall, from);
            if run.Produced? then run.calls == |task.effects| && AllAnswered(w, task, firstCall, from, |task.effects|)
            else
              && from < run.calls <= |task.effects| && AllAnswered(w, task, firstCall, from, run.calls - 1)
              && AnswerTo(w, task, firstCall, run.calls - 1) == Err(run.message)
    decreases |task.effects| - from
  {
    if from < |task.effects| && AnswerTo(w, task, firstCall, from).Ok? {
      EffectsExactly(w, task, firstCall, from + 1);
    }
  }

  lemma {:induction false} CallsBounded(w: World, task: Task, firstCall: nat, from: nat)
    requires from <= |task.effects|
    ensures RunEffects(w, task, firstCall, from).calls <= |task.effects|
    decreases |task.effects| - from
  {
    if from < |task.effects| {
      CallsBounded(w, task, firstCall, from + 1);
    }
  }

  ghost predicate DistinctTasks(c: Contract) {
    forall a, b :: 0 <= a < b < |c.tasks| ==> c.tasks[a].id != c.tasks[b].id
  }

  /** The automaton reads every history: no task starts twice or before its dependencies have succeeded. */
  lemma {:induction false} HistoryIsRead(c: Contract, w: World, opts: Options, blocks: seq<Block>)
    requires DistinctTasks(c) && LegalRun(c, w, opts, blocks)
    ensures Read(c, START, Drafts(blocks)) ==
            Some(Reading(if AllDone(blocks) then Idle else Stopped, StartedIDs(blocks), DoneIDs(blocks)))
  {
    if blocks == [] {
      ReadOne(c, START, RUN_STARTED);
    } else {
      var before, b := blocks[..|blocks| - 1], blocks[|blocks| - 1];
      HistoryIsRead(c, w, opts, before);
      AllDoneStarted(before);
      MadeBlock(c, w, opts, before, b.index);
      FindTaskAt(c.tasks, b.index);
      ReadBlock(c, Reading(Idle, StartedIDs(before), DoneIDs(before)), b);
      ReadConcat(c, START, Drafts(before), BlockDrafts(b));
    }
  }

  lemma {:induction false} ReadLast(c: Contract, r: Reading, status: string)
    requires (r.phase == Idle && status == "success") || (r.phase == Stopped && status == "failed")
    ensures Read(c, r, [RunFinishedDraft(status)]) == Some(r.(phase := Ended))
  {
    ReadOne(c, r, RunFinishedDraft(status));
  }

  /** Every finished run's ledger is one word of the grammar, from run_started to run_finished. */
  lemma {:induction false} LedgerInGrammar(c: Contract, w: World, opts: Options, blocks: seq<Block>)
    requires DistinctTasks(c) && LegalRun(c, w, opts, blocks)
    ensures var status := if AllDone(blocks) then "success" else "failed";
            Read(c, START, FinishedDrafts(blocks, status)) == Some(Reading(Ended, StartedIDs(blocks), DoneIDs(blocks)))
  {
    var status := if AllDone(blocks) then "success" else "failed";
    var end := Reading(if AllDone(blocks) then Idle else Stopped, StartedIDs(blocks), DoneIDs(blocks));
    HistoryIsRead(c, w, opts, blocks);
    ReadConcat(c, START, Drafts(blocks), [RunFinishedDraft(status)]);
    ReadLast(c, end, status);
  }

  // ----- the policy gate -----

  predicate Allowance(task: Task, i: nat, e: Draft)
    requires i < |task.effects|
  {
    && e.kind.PolicyDecided? && e.taskID == task.id && e.decision == Policy.ALLOW
    && e.decisionID == Policy.DecisionID(task.id, i)
    && e.effectType == task.effects[i].effectType && e.resource == Paths.SlashClean(task.effects[i].resource)
  }

  /** A task's start, then one allowance per declared effect, in order. */
  ghost predicate OpenGate(task: Task, gate: seq<Draft>) {
    && |gate| == 1 + |task.effects| && gate[0] == Started(task)
    && forall i :: 1 <= i < |gate| ==> Allowance(task, i - 1, gate[i])
  }

  /** Just before the call the ledger ends in the open gate of the call's task. */
  ghost predicate Gated(call: Call, drafts: seq<Draft>) {
    var n := |call.task.effects|;
    && call.index < n && n + 1 <= call.ledgerLength <= |drafts|
    && OpenGate(call.task, drafts[call.ledgerLength - n - 1..call.ledgerLength])
  }

  ghost predicate AllGated(calls: seq<Call>, drafts: seq<Draft>) {
    forall k :: 0 <= k < |calls| ==> Gated(calls[k], drafts)
  }

  lemma {:induction false} GateOpens(task: Task, decisions: seq<Policy.Decision>)
    requires DecisionsFor(task, decisions) && !AnyDenied(decisions, |decisions|)
    ensures OpenGate(task, GateDrafts(task, decisions))
  {
    var gate := GateDrafts(task, decisions);
    forall i | 1 <= i < |gate| ensures Allowance(task, i - 1, gate[i]) {
      assert gate[i] == PolicyDraft(decisions[i - 1]);
      assert decisions[i - 1].verdict == Policy.ALLOW;
    }
  }

  lemma {:induction false} GatedStays(call: Call, drafts: seq<Draft>, more: seq<Draft>)
    requires Gated(call, drafts)
    ensures Gated(call, drafts + more)
  {
    var from, to := call.ledgerLength - |call.task.effects| - 1, call.ledgerLength;
    assert (drafts + more)[from..to] == drafts[from..to];
  }

  lemma {:induction false} AllGatedStays(calls: seq<Call>, drafts: seq<Draft>, more: seq<Draft>)
    requires AllGated(calls, drafts)
    ensures AllGated(calls, drafts + more)
  {
    forall k | 0 <= k < |calls| ensures Gated(calls[k], drafts + more) {
      GatedStays(calls[k], drafts, more);
    }
  }

  lemma {:induction false} NewCallsGated(base: seq<Draft>, task: Task, decisions: seq<Policy.Decision>, n: nat, tail: seq<Draft>)
    requires n <= |task.effects| == |decisions|
    requires n > 0 ==> OpenGate(task, GateDrafts(task, decisions))
    ensures AllGated(CallRun(task, n, |base| + 1 + |decisions|), base + (GateDrafts(task, decisions) + tail))
  {
    var gate := GateDrafts(task, decisions);
    assert (base + (gate + tail))[|base|..|base| + |gate|] == gate;
  }

  lemma {:induction false} AllGatedJoin(a: seq<Call>, b: seq<Call>, drafts: seq<Draft>)
    requires AllGated(a, drafts) && AllGated(b, drafts)
    ensures AllGated(a + b, drafts)
  {
  }

  /** In every run, every adapter call stands behind the complete gate of its task. */
  lemma {:induction false} EveryCallIsGated(c: Contract, w: World, opts: Options, blocks: seq<Block>)
    requires LegalRun(c, w, opts, blocks)
    ensures AllGated(Calls(blocks), Drafts(blocks))
  {
    if blocks != [] {
      var before, b := blocks[..|blocks| - 1], blocks[|blocks| - 1];
      EveryCallIsGated(c, w, opts, before);
      AllGatedStays(Calls(before), Drafts(before), BlockDrafts(b));
      MadeBlock(c, w, opts, before, b.index);
      BlockGated(before, b);
      AllGatedJoin(Calls(before), BlockCalls(before, b), Drafts(before) + BlockDrafts(b));
    }
  }

  lemma {:induction false} BlockGated(before: seq<Block>, b: Block)
    requires BlockShape(b)
    ensures AllGated(BlockCalls(before, b), Drafts(before) + BlockDrafts(b))
  {
    if CallsIn(b) > 0 {
      GateOpens(b.task, b.decisions);
    }
    NewCallsGated(Drafts(before), b.task, b.decisions, CallsIn(b), OutcomeDrafts(b.task.id, b.outcome));
  }

  /** The effects of a task are performed one after the other from the first, each once. */
  ghost predicate InIndexOrder(calls: seq<Call>) {
    forall k :: 0 <= k < |calls| && calls[k].index > 0 ==>
      k > 0 && calls[k - 1] == Call(calls[k].task, calls[k].index - 1, calls[k].ledgerLength)
  }

  lemma {:induction false} CallsInOrder(blocks: seq<Block>)
    ensures InIndexOrder(Calls(blocks))
  {
    if blocks != [] {
      CallsInOrder(blocks[..|blocks| - 1]);
    }
  }

  predicate IsFailure(e: Draft) {
    e.kind.TaskFinished? && e.status == "failed"
  }

  predicate IsDenial(e: Draft) {
    e.kind.PolicyDecided? && e.decision != Policy.ALLOW
  }

  lemma {:induction false} CallsPrecede(blocks: seq<Block>)
    ensures forall k :: 0 <= k < |Calls(blocks)| ==> Calls(blocks)[k].ledgerLength <= |Drafts(blocks)|
  {
    if blocks != [] {
      CallsPrecede(blocks[..|blocks| - 1]);
    }
  }

  /** A history of successes holds no failure and no denial. */
  lemma {:induction false} SuccessHasNoFailure(c: Contract, w: World, opts: Options, blocks: seq<Block>)
    requires LegalRun(c, w, opts, blocks) && AllDone(blocks)
    ensures forall i :: 0 <= i < |Drafts(blocks)| ==> !IsFailure(Drafts(blocks)[i]) && !IsDenial(Drafts(blocks)[i])
  {
    if blocks != [] {
      var before, b := blocks[..|blocks| - 1], blocks[|blocks| - 1];
      SuccessHasNoFailure(c, w, opts, before);
      MadeBlock(c, w, opts, before, b.index);
      forall i | 0 <= i < |BlockDrafts(b)| ensures !IsFailure(BlockDrafts(b)[i]) && !IsDenial(BlockDrafts(b)[i]) {
        DraftOfDoneBlock(b, i);
      }
    }
  }

  lemma {:induction false} DraftOfDoneBlock(b: Block, i: nat)
    requires b.outcome.Done? && i < |BlockDrafts(b)| && !AnyDenied(b.decisions, |b.decisions|)
    ensures !IsFailure(BlockDrafts(b)[i]) && !IsDenial(BlockDrafts(b)[i])
  {
    var gate := GateDrafts(b.task, b.decisions);
    if i < |gate| {
      assert BlockDrafts(b)[i] == gate[i];
      assert i > 0 ==> gate[i] == PolicyDraft(b.decisions[i - 1]);
    } else {
      assert BlockDrafts(b)[i] == OutcomeDrafts(b.task.id, b.outcome)[i - |gate|];
    }
  }

  lemma {:induction false} CallersAreDone(blocks: seq<Block>)
    requires AllDone(blocks)
    ensures forall k :: 0 <= k < |Calls(blocks)| ==> Calls(blocks)[k].task.id in DoneIDs(blocks)
  {
    if blocks != [] {
      CallersAreDone(blocks[..|blocks| - 1]);
    }
  }

  /** No call is made after the failure, and none for the task of the denial. */
  ghost predicate Closes(e: Draft, i: nat, calls: seq<Call>) {
    && (IsFailure(e) ==> forall k :: 0 <= k < |calls| ==> calls[k].ledgerLength <= i)
    && (IsDenial(e) ==> forall k :: 0 <= k < |calls| ==> calls[k].task.id != e.taskID)
  }

  /** Nothing is performed once a task has failed, and nothing at all for a task with a denied effect. */
  lemma {:induction false} FailClosed(c: Contract, w: World, opts: Options, blocks: seq<Block>)
    requires LegalRun(c, w, opts, blocks)
    ensures forall i :: 0 <= i < |Drafts(blocks)| ==> Closes(Drafts(blocks)[i], i, Calls(blocks))
  {
    if blocks != [] {
      var before, b := blocks[..|blocks| - 1], blocks[|blocks| - 1];
      SuccessHasNoFailure(c, w, opts, before);
      MadeBlock(c, w, opts, before, b.index);
      assert b.task.id !in DoneIDs(before);
      forall i | 0 <= i < |Drafts(blocks)| ensures Closes(Drafts(blocks)[i], i, Calls(blocks)) {
        if i >= |Drafts(before)| {
          LastBlockCloses(before, b, i - |Drafts(before)|);
        }
      }
    }
  }

  lemma {:induction false} LastBlockCloses(before: seq<Block>, b: Block, i: nat)
    requires AllDone(before) && BlockShape(b) && i < |BlockDrafts(b)| && b.task.id !in DoneIDs(before)
    ensures Closes(BlockDrafts(b)[i], |Drafts(before)| + i, Calls(before) + BlockCalls(before, b))
  {
    CallsPrecede(before);
    CallersAreDone(before);
    LastBlockDraft(b, i);
  }

  /** In a block a failure comes after the gate, and a denial belongs to its task and rules out calls. */
  lemma {:induction false} LastBlockDraft(b: Block, i: nat)
    requires DecisionsFor(b.task, b.decisions) && i < |BlockDrafts(b)|
    requires !b.outcome.Denied? ==> !AnyDenied(b.decisions, |b.decisions|)
    ensures IsFailure(BlockDrafts(b)[i]) ==> i >= 1 + |b.decisions|
    ensures IsDenial(BlockDrafts(b)[i]) ==> BlockDrafts(b)[i].taskID == b.task.id && CallsIn(b) == 0
  {
    var gate := GateDrafts(b.task, b.decisions);
    if i < |gate| {
      assert BlockDrafts(b)[i] == gate[i];
      if i > 0 {
        assert gate[i] == PolicyDraft(b.decisions[i - 1]);
      }
    } else {
      assert BlockDrafts(b)[i] == OutcomeDrafts(b.task.id, b.outcome)[i - |gate|];
    }
  }
}
