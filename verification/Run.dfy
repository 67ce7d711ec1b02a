/** The run model: what one task contributes to a run, and the books a run keeps. */
module Run {
  import opened Text
  import opened Contracts
  import opened Ledger
  import opened Evidence
  import Policy
  import Closure
  import Validation

  /** The error texts that end up in the ledger. */
  datatype Message =
    | PolicyDenial(taskID: string, effectType: string, resource: string, reason: string)
    | Unsatisfied(obligationID: string)
    | DependencyNotSucceeded(taskID: string)
    | UnsupportedKind(kind: string)

  /** Everything outside the executor: the hash, the adapter's n-th answer, the n-th look at the
      declared writes, the clock at the n-th policy evaluation, the file digest, the wording of texts and the schema
      check of contracts. */
  datatype World = World(
    hash: Hash,
    act: (nat, Task, nat) -> Result<seq<ArtifactRef>, string>,
    checkWrites: nat -> Option<string>,
    now: nat -> int,
    digest: seq<Event> -> string,
    text: Message -> string,
    render: Policy.Reason -> string,
    contractSchemaOk: Contract -> bool,
    oracle: Validation.Oracle)

  datatype Options = Options(runID: string, contractDigest: string, revoked: set<string>)

  /** One adapter call: for which task and effect, and how long the ledger was at that moment. */
  datatype Call = Call(task: Task, index: nat, ledgerLength: nat)

  datatype Outcome =
    | Denied(message: string)
    | Failed(phase: string, message: string, calls: nat)
    | Done(artifacts: seq<ArtifactRef>, calls: nat)

  /** What one scheduled task contributes: its position in the contract, decisions and outcome. */
  datatype Block = Block(index: nat, task: Task, decisions: seq<Policy.Decision>, outcome: Outcome)

  // ----- what a task does when it is its turn -----

  predicate RunsEffects(task: Task) {
    task.kind == "scripted" || task.kind == "shell" || task.kind == "agent"
  }

  function FailurePhase(task: Task): string {
    if RunsEffects(task) then "adapter" else "execution"
  }

  function PolicyInput(c: Contract, task: Task, opts: Options, now: int): Policy.Input {
    Policy.Input(c.mode, c.readPaths, c.writePaths, task.id, task.effects, c.approvals, now, opts.revoked)
  }

  function ClockAt(w: World, turn: nat): Policy.Clock {
    Policy.Clock(w.oracle.parse, w.now(turn), w.render)
  }

  function TaskPolicy(c: Contract, task: Task, opts: Options, w: World, turn: nat): seq<Policy.Decision> {
    Policy.TaskDecisions(PolicyInput(c, task, opts, w.now(turn)), ClockAt(w, turn))
  }

  function FirstDenied(decisions: seq<Policy.Decision>): Option<Policy.Decision> {
    if decisions == [] then None
    else if decisions[0].verdict == Policy.DENY then Some(decisions[0])
    else FirstDenied(decisions[1..])
  }

  function DenialText(w: World, task: Task, d: Policy.Decision): string {
    w.text(PolicyDenial(task.id, d.effectType, d.resource, d.reason))
  }

  datatype Executed = Broken(message: string, calls: nat) | Produced(artifacts: seq<ArtifactRef>, calls: nat)

  /** Calls the adapter for the effects from `from` on, stopping at the first error. */
  function RunEffects(w: World, task: Task, firstCall: nat, from: nat): Executed
    requires from <= |task.effects|
    decreases |task.effects| - from
  {
    if from == |task.effects| then Produced([], from)
    else match w.act(firstCall + from, task, from)
      case Err(m) => Broken(m, from + 1)
      case Ok(first) =>
        match RunEffects(w, task, firstCall, from + 1)
        case Broken(m, n) => Broken(m, n)
        case Produced(rest, n) => Produced(first + rest, n)
  }

  function SatisfiedObligations(tasks: seq<Task>, done: set<string>): set<string> {
    set t, o | t in tasks && t.id in done && o in t.obligations :: o
  }

  function FirstUnsatisfied(obligations: seq<Obligation>, satisfied: set<string>): Option<string> {
    if obligations == [] then None
    else if obligations[0].required && obligations[0].id !in satisfied then Some(obligations[0].id)
    else FirstUnsatisfied(obligations[1..], satisfied)
  }

  function FirstIncomplete(deps: seq<string>, done: set<string>): Option<string> {
    if deps == [] then None else if deps[0] !in done then Some(deps[0]) else FirstIncomplete(deps[1..], done)
  }

  function ExecuteTaskResult(c: Contract, task: Task, w: World, done: set<string>, calls: nat, turn: nat): Executed {
    if RunsEffects(task) then RunEffects(w, task, calls, 0)
    else if task.kind == "verify" then
      match w.checkWrites(turn) case Some(m) => Broken(m, 0) case None => Produced([], 0)
    else if task.kind == "review" then
      match FirstIncomplete(task.dependsOn, done)
      case Some(d) => Broken(w.text(DependencyNotSucceeded(d)), 0)
      case None => Produced([], 0)
    else if task.kind == "evaluate" then
      match FirstUnsatisfied(c.obligations, SatisfiedObligations(c.tasks, done))
      case Some(id) => Broken(w.text(Unsatisfied(id)), 0)
      case None => Produced([], 0)
    else Broken(w.text(UnsupportedKind(task.kind)), 0)
  }

  function MakeBlock(c: Contract, w: World, opts: Options, before: seq<Block>, index: nat): Block
    requires index < |c.tasks|
  {
    var task := c.tasks[index];
    var decisions := TaskPolicy(c, task, opts, w, |before|);
    var outcome :=
      match FirstDenied(decisions)
      case Some(d) => Denied(DenialText(w, task, d))
      case None => ExecutedOutcome(task, ExecuteTaskResult(c, task, w, DoneIDs(before), CallCount(before), |before|));
    Block(index, task, decisions, outcome)
  }

  function ExecutedOutcome(task: Task, run: Executed): Outcome {
    match run
    case Broken(m, n) => Failed(FailurePhase(task), m, n)
    case Produced(artifacts, n) => Done(artifacts, n)
  }

  function CallsIn(b: Block): nat {
    match b.outcome case Denied(_) => 0 case Failed(_, _, n) => n case Done(_, n) => n
  }

  function CallCount(blocks: seq<Block>): nat {
    if blocks == [] then 0 else CallCount(blocks[..|blocks| - 1]) + CallsIn(blocks[|blocks| - 1])
  }

  function DoneIDs(blocks: seq<Block>): set<string> {
    if blocks == [] then {}
    else
      var b := blocks[|blocks| - 1];
      DoneIDs(blocks[..|blocks| - 1]) + if b.outcome.Done? then {b.task.id} else {}
  }

  // ----- scheduling -----

  predicate Ready(c: Contract, done: set<string>, i: nat)
    requires i < |c.tasks|
  {
    c.tasks[i].id !in done && forall d :: d in c.tasks[i].dependsOn ==> d in done
  }

  predicate NoneReady(c: Contract, done: set<string>, from: nat, to: nat)
    requires to <= |c.tasks|
  {
    forall j :: from <= j < to ==> !Ready(c, done, j)
  }

  /** The task the scan reaches next when it has just passed position `start`, wrapping round once. */
  predicate IsNext(c: Contract, done: set<string>, start: nat, i: nat)
    requires i < |c.tasks|
  {
    && Ready(c, done, i)
    && (if start <= i then NoneReady(c, done, start, i)
        else NoneReady(c, done, start, |c.tasks|) && NoneReady(c, done, 0, i))
  }

  function ScanStart(blocks: seq<Block>): nat {
    if blocks == [] then 0 else blocks[|blocks| - 1].index + 1
  }

  predicate LegalBlock(c: Contract, w: World, opts: Options, before: seq<Block>, b: Block) {
    && b.index < |c.tasks|
    && IsNext(c, DoneIDs(before), ScanStart(before), b.index)
    && b == MakeBlock(c, w, opts, before, b.index)
  }

  predicate AllDone(blocks: seq<Block>) {
    blocks == [] || (AllDone(blocks[..|blocks| - 1]) && blocks[|blocks| - 1].outcome.Done?)
  }

  /** A run's history: every block is the scheduler's next one, and only the last may fail. */
  predicate LegalRun(c: Contract, w: World, opts: Options, blocks: seq<Block>) {
    || blocks == []
    || (var before, b := blocks[..|blocks| - 1], blocks[|blocks| - 1];
        LegalRun(c, w, opts, before) && AllDone(before) && LegalBlock(c, w, opts, before, b))
  }

  // ----- the ledger and the books -----

  function Started(task: Task): Draft {
    Plain(TaskStarted, task.id, "success", "task started", [])
  }

  function DecisionDrafts(decisions: seq<Policy.Decision>): seq<Draft> {
    seq(|decisions|, i requires 0 <= i < |decisions| => PolicyDraft(decisions[i]))
  }

  function ArtifactDraft(taskID: string, a: ArtifactRef): Draft {
    Plain(ArtifactRecorded, taskID, "success", a.path, [a.artifactID])
  }

  function ArtifactDrafts(taskID: string, artifacts: seq<ArtifactRef>): seq<Draft> {
    seq(|artifacts|, i requires 0 <= i < |artifacts| => ArtifactDraft(taskID, artifacts[i]))
  }

  function IDsOf(artifacts: seq<ArtifactRef>): seq<string> {
    seq(|artifacts|, i requires 0 <= i < |artifacts| => artifacts[i].artifactID)
  }

  function OutcomeDrafts(taskID: string, outcome: Outcome): seq<Draft> {
    match outcome
    case Denied(m) => [Plain(TaskFinished, taskID, "failed", m, [])]
    case Failed(_, m, _) => [Plain(TaskFinished, taskID, "failed", m, [])]
    case Done(artifacts, _) =>
      ArtifactDrafts(taskID, artifacts) + [Plain(TaskFinished, taskID, "success", "task completed", IDsOf(artifacts))]
  }

  /** The part of a block that precedes any action: its start and one event per decision. */
  function GateDrafts(task: Task, decisions: seq<Policy.Decision>): seq<Draft> {
    [Started(task)] + DecisionDrafts(decisions)
  }

  function BlockDrafts(b: Block): seq<Draft> {
    GateDrafts(b.task, b.decisions) + OutcomeDrafts(b.task.id, b.outcome)
  }

  const RUN_STARTED := Plain(RunStarted, "", "success", "run accepted", [])

  function Drafts(blocks: seq<Block>): seq<Draft> {
    if blocks == [] then [RUN_STARTED]
    else Drafts(blocks[..|blocks| - 1]) + BlockDrafts(blocks[|blocks| - 1])
  }

  /** How long the ledger is when a block's effects run. */
  function GateLength(before: seq<Block>, b: Block): nat {
    |Drafts(before)| + 1 + |b.decisions|
  }

  /** The first `n` effects of a task, called in index order at one ledger length. */
  function CallRun(task: Task, n: nat, ledgerLength: nat): seq<Call> {
    seq(n, i requires 0 <= i < n => Call(task, i, ledgerLength))
  }

  function BlockCalls(before: seq<Block>, b: Block): seq<Call> {
    CallRun(b.task, CallsIn(b), GateLength(before, b))
  }

  function Calls(blocks: seq<Block>): seq<Call> {
    if blocks == [] then []
    else Calls(blocks[..|blocks| - 1]) + BlockCalls(blocks[..|blocks| - 1], blocks[|blocks| - 1])
  }

  function Stamp(artifacts: seq<ArtifactRef>, base: nat): seq<ArtifactRef> {
    seq(|artifacts|, i requires 0 <= i < |artifacts| => artifacts[i].(producerEventID := EventID(base + i + 1)))
  }

  function ArtifactsIn(b: Block): seq<ArtifactRef> {
    if b.outcome.Done? then b.outcome.artifacts else []
  }

  function Artifacts(blocks: seq<Block>): seq<ArtifactRef> {
    if blocks == [] then []
    else
      var before, b := blocks[..|blocks| - 1], blocks[|blocks| - 1];
      Artifacts(before) + Stamp(ArtifactsIn(b), GateLength(before, b))
  }

  function AddArtifacts(m: map<string, seq<string>>, taskID: string, ids: seq<string>): map<string, seq<string>> {
    if ids == [] then m else m[taskID := Closure.ArtifactsOf(m, taskID) + ids]
  }

  function TaskArtifacts(blocks: seq<Block>): map<string, seq<string>> {
    if blocks == [] then map[]
    else
      var b := blocks[|blocks| - 1];
      AddArtifacts(TaskArtifacts(blocks[..|blocks| - 1]), b.task.id, IDsOf(ArtifactsIn(b)))
  }

  function Decisions(blocks: seq<Block>): seq<Policy.Decision> {
    if blocks == [] then [] else Decisions(blocks[..|blocks| - 1]) + blocks[|blocks| - 1].decisions
  }

  function FailureText(b: Block): string {
    match b.outcome case Denied(m) => m case Failed(_, m, _) => m case Done(_, _) => ""
  }

  function Failures(blocks: seq<Block>): seq<FailureRecord> {
    if blocks == [] then []
    else
      var b := blocks[|blocks| - 1];
      match b.outcome
      case Done(_, _) => []
      case Denied(m) => [FailureRecord("failure-" + ZeroPad(Digits(1), 6), EventID(|Drafts(blocks)|), b.task.id, "policy", m)]
      case Failed(phase, m, _) => [FailureRecord("failure-" + ZeroPad(Digits(1), 6), EventID(|Drafts(blocks)|), b.task.id, phase, m)]
  }

  function StatusMap(ids: set<string>, done: set<string>): map<string, string> {
    map id | id in ids :: if id in done then "success" else ""
  }

  function Statuses(c: Contract, blocks: seq<Block>): map<string, string> {
    var running := StatusMap(TaskIDs(c.tasks), DoneIDs(blocks));
    if AllDone(blocks) then running else running[blocks[|blocks| - 1].task.id := "failed"]
  }

  lemma {:induction false} StatusMapAdd(ids: set<string>, done: set<string>, id: string)
    requires id in ids
    ensures StatusMap(ids, done)[id := "success"] == StatusMap(ids, done + {id})
  {
  }

  function RunFinishedDraft(status: string): Draft {
    Plain(RunFinished, "", status, if status == "success" then "run completed" else "run failed", [])
  }

  function FinishedDrafts(blocks: seq<Block>, status: string): seq<Draft> {
    Drafts(blocks) + [RunFinishedDraft(status)]
  }

  function ClosureInput(c: Contract, opts: Options, blocks: seq<Block>, status: string): Closure.Input {
    Closure.Input(opts.runID, opts.contractDigest, status, c.obligations, c.tasks,
                  Statuses(c, blocks), TaskArtifacts(blocks), Decisions(blocks))
  }

  function LedgerOf(w: World, opts: Options, blocks: seq<Block>, status: string): seq<Event> {
    Chain(opts.runID, w.hash, FinishedDrafts(blocks, status))
  }

  function EvidenceOf(c: Contract, w: World, opts: Options, blocks: seq<Block>, status: string): EvidencePack {
    EvidencePack(opts.runID, opts.contractDigest, w.digest(LedgerOf(w, opts, blocks, status)), status,
                 Artifacts(blocks), Decisions(blocks), Failures(blocks),
                 Closure.MatrixOf(ClosureInput(c, opts, blocks, status)))
  }

  lemma {:induction false} ArtifactStep(taskID: string, artifacts: seq<ArtifactRef>, i: nat, base: nat)
    requires i < |artifacts|
    ensures ArtifactDrafts(taskID, artifacts[..i + 1])
         == ArtifactDrafts(taskID, artifacts[..i]) + [ArtifactDraft(taskID, artifacts[i])]
    ensures Stamp(artifacts[..i + 1], base)
         == Stamp(artifacts[..i], base) + [artifacts[i].(producerEventID := EventID(base + i + 1))]
    ensures IDsOf(artifacts[..i + 1]) == IDsOf(artifacts[..i]) + [artifacts[i].artifactID]
  {
  }
}
