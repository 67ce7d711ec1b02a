/** Contract validation, fail-fast and collect-all, against one list of problems. */
module Validation {
  import opened Text
  import opened Contracts
  import opened Cycles
  import Paths

  datatype Problem =
    | UnsupportedSchemaVersion(version: string)
    | ObjectiveRequired
    | BadPath(path: Paths.PathProblem)
    | IDRequired(what: string)
    | IDWhitespace(what: string, raw: string)
    | IDNotLowercase(what: string, raw: string)
    | IDReserved(what: string, raw: string)
    | IDBadCharacter(what: string, raw: string, c: char)
    | DuplicateObligation(id: string)
    | NoRequiredObligation
    | DuplicateTask(id: string)
    | UnsupportedKind(kind: string, id: string)
    | AdapterRequired(id: string)
    | TimeoutNotPositive(id: string)
    | UnknownObligation(id: string, obligation: string)
    | UnsupportedEffect(effectType: string, id: string)
    | TaskSchemaInvalid(id: string)
    | NoTasks
    | UnsupportedTicketVersion(version: string)
    | DuplicateTicket(id: string)
    | TicketUnknownTask(id: string, task: string)
    | TicketUnsupportedEffect(id: string, effectType: string)
    | TicketReasonRequired(id: string)
    | TicketBadExpiry(id: string)
    | TicketUndeclaredEffect(id: string)
    | UnknownDependency(id: string, dep: string)
    | DependencyCycle
    | EvaluatorUnknownObligation(id: string)
    | EvaluatorMissesRequired(id: string)

  /** What validation asks of code outside it: the task schema and RFC 3339 parsing. */
  datatype Oracle = Oracle(taskSchemaOk: Task -> bool, parse: string -> Option<int>)

  const CONTRACT_SCHEMA := "covenant.contract.v1"
  const TICKET_SCHEMA := "covenant.approval-ticket.v1"
  const TASK_KINDS: set<string> := {"scripted", "shell", "agent", "verify", "review", "evaluate"}
  const EFFECT_TYPES: set<string> := {"file.write", "file.read", "process.spawn", "network.request", "claim.publish"}

  // ----- identifiers -----

  predicate ReservedName(id: string) {
    || id in {"con", "prn", "aux", "nul"}
    || (|id| == 4 && (HasPrefix(id, "com") || HasPrefix(id, "lpt")) && '1' <= id[3] <= '9')
  }

  predicate IDChar(c: char) {
    'a' <= c <= 'z' || '0' <= c <= '9' || c == '_' || c == '-'
  }

  function FirstBadChar(id: string): Option<char> {
    if id == "" then None else if IDChar(id[0]) then FirstBadChar(id[1..]) else Some(id[0])
  }

  function ValidatePublicID(raw: string, what: string): Option<Problem> {
    var id := TrimSpace(raw);
    if id == "" then Some(IDRequired(what))
    else if id != raw then Some(IDWhitespace(what, raw))
    else if id != ToLower(id) then Some(IDNotLowercase(what, raw))
    else if ReservedName(id) then Some(IDReserved(what, raw))
    else match FirstBadChar(id)
      case Some(c) => Some(IDBadCharacter(what, raw, c))
      case None => None
  }

  // ----- the problems of a contract, in order -----

  function AsList(p: Option<Problem>): seq<Problem> {
    match p case None => [] case Some(x) => [x]
  }

  function When(condition: bool, p: Problem): seq<Problem> {
    if condition then [p] else []
  }

  function First(problems: seq<Problem>): Option<Problem> {
    if problems == [] then None else Some(problems[0])
  }

  function PathList(raw: string, what: string): seq<Problem> {
    match Paths.ValidateRelativePath(raw, what) case None => [] case Some(p) => [BadPath(p)]
  }

  function PathsList(raws: seq<string>, what: string): seq<Problem> {
    if raws == [] then [] else PathList(raws[0], what) + PathsList(raws[1..], what)
  }

  function HeaderList(c: Contract): seq<Problem> {
    When(c.schemaVersion != CONTRACT_SCHEMA, UnsupportedSchemaVersion(c.schemaVersion))
    + When(TrimSpace(c.objective) == "", ObjectiveRequired)
    + PathList(c.root, "workspace root")
    + PathsList(c.readPaths, "read path")
    + PathsList(c.writePaths, "write path")
  }

  /** The obligation loop from a point where `seen` holds the IDs accepted so far. */
  function ObligationList(obligations: seq<Obligation>, seen: set<string>): seq<Problem> {
    if obligations == [] then []
    else
      var o := obligations[0];
      match ValidatePublicID(o.id, "obligation id")
      case Some(p) => [p] + ObligationList(obligations[1..], seen)
      case None =>
        if o.id in seen then [DuplicateObligation(o.id)] + ObligationList(obligations[1..], seen)
        else ObligationList(obligations[1..], seen + {o.id})
  }

  function AcceptedObligations(obligations: seq<Obligation>, seen: set<string>): set<string> {
    if obligations == [] then seen
    else
      var o := obligations[0];
      AcceptedObligations(obligations[1..], if ValidatePublicID(o.id, "obligation id").None? then seen + {o.id} else seen)
  }

  function RequiredObligations(obligations: seq<Obligation>, seen: set<string>): set<string> {
    if obligations == [] then {}
    else
      var o := obligations[0];
      if ValidatePublicID(o.id, "obligation id").Some? || o.id in seen then RequiredObligations(obligations[1..], seen)
      else (if o.required then {o.id} else {}) + RequiredObligations(obligations[1..], seen + {o.id})
  }

  function UnknownObligations(task: Task, from: nat, known: set<string>): seq<Problem>
    requires from <= |task.obligations|
    decreases |task.obligations| - from
  {
    if from == |task.obligations| then []
    else When(task.obligations[from] !in known, UnknownObligation(task.id, task.obligations[from]))
         + UnknownObligations(task, from + 1, known)
  }

  function EffectList(task: Task, from: nat): seq<Problem>
    requires from <= |task.effects|
    decreases |task.effects| - from
  {
    if from == |task.effects| then []
    else When(task.effects[from].effectType !in EFFECT_TYPES, UnsupportedEffect(task.effects[from].effectType, task.id))
         + PathList(task.effects[from].resource, "side effect resource")
         + EffectList(task, from + 1)
  }

  function OwnList(task: Task, known: set<string>): seq<Problem> {
    When(task.kind !in TASK_KINDS, UnsupportedKind(task.kind, task.id))
    + When(TrimSpace(task.adapter) == "", AdapterRequired(task.id))
    + When(task.timeoutSecs <= 0, TimeoutNotPositive(task.id))
    + UnknownObligations(task, 0, known)
    + EffectList(task, 0)
  }

  function TaskList(tasks: seq<Task>, seen: set<string>, known: set<string>, schemaOk: Task -> bool): seq<Problem> {
    if tasks == [] then []
    else
      var t := tasks[0];
      match ValidatePublicID(t.id, "task id")
      case Some(p) => [p] + TaskList(tasks[1..], seen, known, schemaOk)
      case None =>
        if t.id in seen then [DuplicateTask(t.id)] + TaskList(tasks[1..], seen, known, schemaOk)
        else CheckedList(t, known, schemaOk) + TaskList(tasks[1..], seen + {t.id}, known, schemaOk)
  }

  function CheckedList(task: Task, known: set<string>, schemaOk: Task -> bool): seq<Problem> {
    OwnList(task, known) + When(!schemaOk(task), TaskSchemaInvalid(task.id))
  }

  function AcceptedTasks(tasks: seq<Task>, seen: map<string, Task>): map<string, Task> {
    if tasks == [] then seen
    else
      var t := tasks[0];
      AcceptedTasks(tasks[1..],
                    if ValidatePublicID(t.id, "task id").None? && t.id !in seen then seen[t.id := t] else seen)
  }

  function EffectKey(taskID: string, effectType: string, resource: string): string {
    taskID + "\0" + effectType + "\0" + Paths.SlashClean(resource)
  }

  function DeclaredEffects(taskIDs: map<string, Task>): set<string> {
    set id, a | id in taskIDs && a in taskIDs[id].effects :: EffectKey(taskIDs[id].id, a.effectType, a.resource)
  }

  function TicketIdentity(t: ApprovalTicket, seen: set<string>, taskIDs: set<string>): seq<Problem> {
    When(t.schemaVersion != TICKET_SCHEMA, UnsupportedTicketVersion(t.schemaVersion))
    + AsList(ValidatePublicID(t.ticketID, "approval ticket id"))
    + When(t.ticketID in seen, DuplicateTicket(t.ticketID))
    + When(t.taskID !in taskIDs, TicketUnknownTask(t.ticketID, t.taskID))
    + When(t.effectType !in EFFECT_TYPES, TicketUnsupportedEffect(t.ticketID, t.effectType))
  }

  function TicketGrant(t: ApprovalTicket, declared: set<string>, parse: string -> Option<int>): seq<Problem> {
    PathList(t.resource, "approval ticket resource")
    + When(TrimSpace(t.reason) == "", TicketReasonRequired(t.ticketID))
    + When(TrimSpace(t.expiresAt) != "" && parse(t.expiresAt).None?, TicketBadExpiry(t.ticketID))
    + When(EffectKey(t.taskID, t.effectType, t.resource) !in declared, TicketUndeclaredEffect(t.ticketID))
  }

  function TicketList(
    t: ApprovalTicket, seen: set<string>, taskIDs: set<string>, declared: set<string>,
    parse: string -> Option<int>): seq<Problem>
  {
    TicketIdentity(t, seen, taskIDs) + TicketGrant(t, declared, parse)
  }

  function ApprovalList(
    approvals: seq<ApprovalTicket>, seen: set<string>, taskIDs: set<string>, declared: set<string>,
    parse: string -> Option<int>): seq<Problem>
  {
    if approvals == [] then []
    else TicketList(approvals[0], seen, taskIDs, declared, parse)
         + ApprovalList(approvals[1..], seen + {approvals[0].ticketID}, taskIDs, declared, parse)
  }

  function UnknownDeps(task: Task, from: nat, taskIDs: set<string>): seq<Problem>
    requires from <= |task.dependsOn|
    decreases |task.dependsOn| - from
  {
    if from == |task.dependsOn| then []
    else When(task.dependsOn[from] !in taskIDs, UnknownDependency(task.id, task.dependsOn[from]))
         + UnknownDeps(task, from + 1, taskIDs)
  }

  function DependencyList(tasks: seq<Task>, taskIDs: set<string>): seq<Problem> {
    if tasks == [] then [] else UnknownDeps(tasks[0], 0, taskIDs) + DependencyList(tasks[1..], taskIDs)
  }

  function EvaluatorList(ids: seq<string>, known: set<string>): seq<Problem> {
    if ids == [] then []
    else When(ids[0] !in known, EvaluatorUnknownObligation(ids[0])) + EvaluatorList(ids[1..], known)
  }

  function ObligationPart(c: Contract): seq<Problem> {
    ObligationList(c.obligations, {}) + When(RequiredObligations(c.obligations, {}) == {}, NoRequiredObligation)
  }

  function TaskPart(c: Contract, schemaOk: Task -> bool): seq<Problem> {
    TaskList(c.tasks, {}, AcceptedObligations(c.obligations, {}), schemaOk)
    + When(AcceptedTasks(c.tasks, map[]) == map[], NoTasks)
  }

  function ApprovalPart(c: Contract, parse: string -> Option<int>): seq<Problem> {
    var tasks := AcceptedTasks(c.tasks, map[]);
    ApprovalList(c.approvals, {}, tasks.Keys, DeclaredEffects(tasks), parse)
  }

  function DependencyPart(c: Contract): seq<Problem> {
    DependencyList(c.tasks, AcceptedTasks(c.tasks, map[]).Keys)
  }

  ghost function CyclePart(c: Contract): seq<Problem> {
    When(HasClosedWalk(DependencyMap(c.tasks)), DependencyCycle)
  }

  function EvaluatorPart(c: Contract): seq<Problem> {
    EvaluatorList(c.evaluatorObligations, AcceptedObligations(c.obligations, {}))
  }

  /** The problems found in a fixed order, that is, all but the last, map-ordered check. */
  ghost function OrderedProblems(c: Contract, oracle: Oracle): seq<Problem> {
    HeaderList(c) + (ObligationPart(c) + (TaskPart(c, oracle.taskSchemaOk) + (ApprovalPart(c, oracle.parse)
    + (DependencyPart(c) + (CyclePart(c) + EvaluatorPart(c))))))
  }

  function MissingRequired(c: Contract): set<string> {
    RequiredObligations(c.obligations, {}) - set x | x in c.evaluatorObligations
  }

  // ----- fail-fast validation -----

  function OrElse(first: Option<Problem>, second: Option<Problem>): Option<Problem> {
    if first.Some? then first else second
  }

  lemma {:induction false} FirstOfConcat(a: seq<Problem>, b: seq<Problem>)
    ensures First(a + b) == OrElse(First(a), First(b))
  {
    if a == [] {
      assert a + b == b;
    }
  }

  method ValidatePaths(raws: seq<string>, what: string) returns (problem: Option<Problem>)
    ensures problem == First(PathsList(raws, what))
  {
    for i := 0 to |raws|
      invariant PathsList(raws, what) == PathsList(raws[i..], what)
    {
      match Paths.ValidateRelativePath(raws[i], what) {
        case Some(p) => return Some(BadPath(p));
        case None => assert raws[i..][1..] == raws[i + 1..];
      }
    }
    problem := None;
  }

  method ValidateHeader(c: Contract) returns (problem: Option<Problem>)
    ensures problem == First(HeaderList(c))
  {
    if c.schemaVersion != CONTRACT_SCHEMA {
      return Some(UnsupportedSchemaVersion(c.schemaVersion));
    }
    if TrimSpace(c.objective) == "" {
      return Some(ObjectiveRequired);
    }
    var bad := Paths.ValidateRelativePath(c.root, "workspace root");
    if bad.Some? {
      return Some(BadPath(bad.value));
    }
    problem := ValidatePaths(c.readPaths, "read path");
    if problem.Some? {
      return;
    }
    problem := ValidatePaths(c.writePaths, "write path");
  }

  method ValidateObligations(obligations: seq<Obligation>)
    returns (problem: Option<Problem>, ids: set<string>, required: set<string>)
    ensures problem == First(ObligationList(obligations, {})
                             + When(RequiredObligations(obligations, {}) == {}, NoRequiredObligation))
    ensures problem.None? ==> ids == AcceptedObligations(obligations, {})
    ensures problem.None? ==> required == RequiredObligations(obligations, {})
  {
    ids, required := {}, {};
    var requiredCount := 0;
    for i := 0 to |obligations|
      invariant ObligationList(obligations, {}) == ObligationList(obligations[i..], ids)
      invariant AcceptedObligations(obligations, {}) == AcceptedObligations(obligations[i..], ids)
      invariant RequiredObligations(obligations, {}) == required + RequiredObligations(obligations[i..], ids)
      invariant 0 <= requiredCount && (requiredCount == 0 <==> required == {})
    {
      var o := obligations[i];
      assert obligations[i..][1..] == obligations[i + 1..];
      var bad := ValidatePublicID(o.id, "obligation id");
      if bad.Some? {
        return bad, ids, required;
      }
      if o.id in ids {
        return Some(DuplicateObligation(o.id)), ids, required;
      }
      ids := ids + {o.id};
      if o.required {
        requiredCount := requiredCount + 1;
        required := required + {o.id};
      }
    }
    problem := if requiredCount == 0 then Some(NoRequiredObligation) else None;
  }

  method ValidateTask(task: Task, known: set<string>, schemaOk: Task -> bool) returns (problem: Option<Problem>)
    ensures problem == First(CheckedList(task, known, schemaOk))
  {
    hide Paths.ValidateRelativePath;
    if task.kind !in TASK_KINDS {
      return Some(UnsupportedKind(task.kind, task.id));
    }
    if TrimSpace(task.adapter) == "" {
      return Some(AdapterRequired(task.id));
    }
    if task.timeoutSecs <= 0 {
      return Some(TimeoutNotPositive(task.id));
    }
    for i := 0 to |task.obligations|
      invariant UnknownObligations(task, 0, known) == UnknownObligations(task, i, known)
    {
      if task.obligations[i] !in known {
        return Some(UnknownObligation(task.id, task.obligations[i]));
      }
    }
    for i := 0 to |task.effects|
      invariant EffectList(task, 0) == EffectList(task, i)
    {
      if task.effects[i].effectType !in EFFECT_TYPES {
        return Some(UnsupportedEffect(task.effects[i].effectType, task.id));
      }
      var bad := Paths.ValidateRelativePath(task.effects[i].resource, "side effect resource");
      if bad.Some? {
        return Some(BadPath(bad.value));
      }
    }
    problem := if !schemaOk(task) then Some(TaskSchemaInvalid(task.id)) else None;
  }

  method ValidateTasks(tasks: seq<Task>, known: set<string>, schemaOk: Task -> bool)
    returns (problem: Option<Problem>, taskIDs: map<string, Task>)
    ensures problem == First(TaskList(tasks, {}, known, schemaOk) + When(AcceptedTasks(tasks, map[]) == map[], NoTasks))
    ensures problem.None? ==> taskIDs == AcceptedTasks(tasks, map[])
  {
    taskIDs := map[];
    assert tasks[0..] == tasks && taskIDs.Keys == {};
    for i := 0 to |tasks|
      invariant TaskList(tasks, {}, known, schemaOk) == TaskList(tasks[i..], taskIDs.Keys, known, schemaOk)
      invariant AcceptedTasks(tasks, map[]) == AcceptedTasks(tasks[i..], taskIDs)
    {
      var t := tasks[i];
      assert tasks[i..][1..] == tasks[i + 1..];
      var bad := ValidatePublicID(t.id, "task id");
      if bad.Some? {
        return bad, taskIDs;
      }
      if t.id in taskIDs {
        return Some(DuplicateTask(t.id)), taskIDs;
      }
      bad := ValidateTask(t, known, schemaOk);
      if bad.Some? {
        return bad, taskIDs;
      }
      assert taskIDs[t.id := t].Keys == taskIDs.Keys + {t.id};
      taskIDs := taskIDs[t.id := t];
    }
    problem := if |taskIDs| == 0 then Some(NoTasks) else None;
  }

  method ValidateApprovals(approvals: seq<ApprovalTicket>, taskIDs: map<string, Task>, parse: string -> Option<int>)
    returns (problem: Option<Problem>)
    ensures problem == First(ApprovalList(approvals, {}, taskIDs.Keys, DeclaredEffects(taskIDs), parse))
  {
    var declared := DeclaredEffects(taskIDs);
    var seen := {};
    for i := 0 to |approvals|
      invariant ApprovalList(approvals, {}, taskIDs.Keys, declared, parse)
             == ApprovalList(approvals[i..], seen, taskIDs.Keys, declared, parse)
    {
      var t := approvals[i];
      assert approvals[i..][1..] == approvals[i + 1..];
      if t.schemaVersion != TICKET_SCHEMA {
        return Some(UnsupportedTicketVersion(t.schemaVersion));
      }
      var badID := ValidatePublicID(t.ticketID, "approval ticket id");
      if badID.Some? {
        return badID;
      }
      if t.ticketID in seen {
        return Some(DuplicateTicket(t.ticketID));
      }
      ghost var before := seen;
      seen := seen + {t.ticketID};
      if t.taskID !in taskIDs {
        return Some(TicketUnknownTask(t.ticketID, t.taskID));
      }
      if t.effectType !in EFFECT_TYPES {
        return Some(TicketUnsupportedEffect(t.ticketID, t.effectType));
      }
      var badPath := Paths.ValidateRelativePath(t.resource, "approval ticket resource");
      if badPath.Some? {
        return Some(BadPath(badPath.value));
      }
      if TrimSpace(t.reason) == "" {
        return Some(TicketReasonRequired(t.ticketID));
      }
      if TrimSpace(t.expiresAt) != "" && parse(t.expiresAt).None? {
        return Some(TicketBadExpiry(t.ticketID));
      }
      if EffectKey(t.taskID, t.effectType, t.resource) !in declared {
        return Some(TicketUndeclaredEffect(t.ticketID));
      }
      assert TicketList(t, before, taskIDs.Keys, declared, parse) == [];
    }
    problem := None;
  }

  method ValidateDependencies(tasks: seq<Task>, taskIDs: set<string>) returns (problem: Option<Problem>)
    ensures problem == First(DependencyList(tasks, taskIDs))
  {
    for i := 0 to |tasks|
      invariant DependencyList(tasks, taskIDs) == DependencyList(tasks[i..], taskIDs)
    {
      assert tasks[i..][1..] == tasks[i + 1..];
      for j := 0 to |tasks[i].dependsOn|
        invariant UnknownDeps(tasks[i], 0, taskIDs) == UnknownDeps(tasks[i], j, taskIDs)
      {
        if tasks[i].dependsOn[j] !in taskIDs {
          return Some(UnknownDependency(tasks[i].id, tasks[i].dependsOn[j]));
        }
      }
    }
    problem := None;
  }

  method ValidateEvaluator(c: Contract, known: set<string>, required: set<string>) returns (problem: Option<Problem>)
    ensures var listed := EvaluatorList(c.evaluatorObligations, known);
            var missing := required - set x | x in c.evaluatorObligations;
            && (listed != [] ==> problem == First(listed))
            && (listed == [] && missing == {} ==> problem == None)
            && (listed == [] && missing != {} ==> exists x :: x in missing && problem == Some(EvaluatorMissesRequired(x)))
  {
    var ids := c.evaluatorObligations;
    var evaluatorIDs := {};
    for i := 0 to |ids|
      invariant EvaluatorList(ids, known) == EvaluatorList(ids[i..], known)
      invariant evaluatorIDs == set x | x in ids[..i]
    {
      assert ids[i..][1..] == ids[i + 1..] && ids[..i + 1] == ids[..i] + [ids[i]];
      if ids[i] !in known {
        return Some(EvaluatorUnknownObligation(ids[i]));
      }
      evaluatorIDs := evaluatorIDs + {ids[i]};
    }
    assert ids[..|ids|] == ids;
    problem := MissedRequired(required, evaluatorIDs);
  }

  /** Ranges over the required obligations in map order. */
  method MissedRequired(required: set<string>, evaluatorIDs: set<string>) returns (problem: Option<Problem>)
    ensures required <= evaluatorIDs ==> problem == None
    ensures !(required <= evaluatorIDs) ==> exists x :: x in required - evaluatorIDs && problem == Some(EvaluatorMissesRequired(x))
  {
    var left := required;
    while left != {}
      invariant left <= required && forall x :: x in required - left ==> x in evaluatorIDs
      decreases left
    {
      var id :| id in left;
      if id !in evaluatorIDs {
        assert id in required - evaluatorIDs;
        return Some(EvaluatorMissesRequired(id));
      }
      left := left - {id};
    }
    problem := None;
  }

  /** The error is the first ordered problem, or else some required obligation the evaluator misses. */
  ghost predicate FirstProblem(c: Contract, oracle: Oracle, problem: Option<Problem>) {
    var first := First(OrderedProblems(c, oracle));
    if first.Some? then problem == first
    else if MissingRequired(c) == {} then problem == None
    else exists x :: x in MissingRequired(c) && problem == Some(EvaluatorMissesRequired(x))
  }

  lemma {:induction false} FirstOfOrdered(c: Contract, oracle: Oracle)
    ensures First(OrderedProblems(c, oracle)) ==
            OrElse(First(HeaderList(c)), OrElse(First(ObligationPart(c)), OrElse(First(TaskPart(c, oracle.taskSchemaOk)),
            OrElse(First(ApprovalPart(c, oracle.parse)), OrElse(First(DependencyPart(c)),
            OrElse(First(CyclePart(c)), First(EvaluatorPart(c))))))))
  {
    var e := CyclePart(c) + EvaluatorPart(c);
    var d := DependencyPart(c) + e;
    var a := ApprovalPart(c, oracle.parse) + d;
    var t := TaskPart(c, oracle.taskSchemaOk) + a;
    FirstOfConcat(CyclePart(c), EvaluatorPart(c));
    FirstOfConcat(DependencyPart(c), e);
    FirstOfConcat(ApprovalPart(c, oracle.parse), d);
    FirstOfConcat(TaskPart(c, oracle.taskSchemaOk), a);
    FirstOfConcat(ObligationPart(c), t);
    FirstOfConcat(HeaderList(c), ObligationPart(c) + t);
  }

  method Validate(c: Contract, oracle: Oracle) returns (problem: Option<Problem>)
    ensures FirstProblem(c, oracle, problem)
    ensures problem.None? ==> exists rank: map<string, nat> :: Ranks(DependencyMap(c.tasks), rank)
  {
    FirstOfOrdered(c, oracle);
    problem := ValidateHeader(c);
    if problem.Some? {
      return;
    }
    var known, required;
    problem, known, required := ValidateObligations(c.obligations);
    if problem.Some? {
      return;
    }
    var taskIDs;
    problem, taskIDs := ValidateTasks(c.tasks, known, oracle.taskSchemaOk);
    if problem.Some? {
      return;
    }
    problem := ValidateApprovals(c.approvals, taskIDs, oracle.parse);
    if problem.Some? {
      return;
    }
    problem := ValidateDependencies(c.tasks, taskIDs.Keys);
    if problem.Some? {
      return;
    }
    var cyclic := HasCycle(c.tasks);
    if cyclic {
      return Some(DependencyCycle);
    }
    problem := ValidateEvaluator(c, known, required);
  }
}
