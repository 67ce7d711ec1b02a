/** Collect-all linting of contracts, its refinement of fail-fast validation, and what a clean lint means. */
module Lint {
  import opened Text
  import opened Contracts
  import opened Cycles
  import opened Validation

  const AnySchema: Task -> bool := (t: Task) => true

  ghost predicate Enumerates(tail: seq<Problem>, missing: set<string>) {
    && |tail| == |missing|
    && (forall i :: 0 <= i < |tail| ==> tail[i].EvaluatorMissesRequired? && tail[i].id in missing)
    && (forall x :: x in missing ==> EvaluatorMissesRequired(x) in tail)
  }

  /** All ordered problems, then each missing required obligation once, in map order. */
  ghost predicate AllProblems(c: Contract, parse: string -> Option<int>, diagnostics: seq<Problem>) {
    var ordered := OrderedProblems(c, Oracle(AnySchema, parse));
    ordered <= diagnostics && Enumerates(diagnostics[|ordered|..], MissingRequired(c))
  }

  // ----- the linter -----

  /** Appends a diagnostic when its condition holds. */
  method Note(diagnostics: seq<Problem>, condition: bool, p: Problem) returns (r: seq<Problem>)
    ensures r == diagnostics + When(condition, p)
  {
    r := if condition then diagnostics + [p] else diagnostics;
  }

  lemma {:induction false} Regroup(a: seq<Problem>, b: seq<Problem>, c: seq<Problem>)
    ensures a + (b + c) == (a + b) + c
  {
  }

  method LintPaths(raws: seq<string>, what: string) returns (diagnostics: seq<Problem>)
    ensures diagnostics == PathsList(raws, what)
  {
    diagnostics := [];
    for i := 0 to |raws|
      invariant PathsList(raws, what) == diagnostics + PathsList(raws[i..], what)
    {
      assert raws[i..][1..] == raws[i + 1..];
      Regroup(diagnostics, PathList(raws[i], what), PathsList(raws[i + 1..], what));
      diagnostics := diagnostics + PathList(raws[i], what);
    }
  }

  method LintHeader(c: Contract) returns (diagnostics: seq<Problem>)
    ensures diagnostics == HeaderList(c)
  {
    diagnostics := Note([], c.schemaVersion != CONTRACT_SCHEMA, UnsupportedSchemaVersion(c.schemaVersion));
    assert [] + diagnostics == diagnostics;
    diagnostics := Note(diagnostics, TrimSpace(c.objective) == "", ObjectiveRequired);
    diagnostics := diagnostics + PathList(c.root, "workspace root");
    var readList := LintPaths(c.readPaths, "read path");
    var writeList := LintPaths(c.writePaths, "write path");
    diagnostics := diagnostics + readList + writeList;
  }

  method LintObligations(obligations: seq<Obligation>)
    returns (diagnostics: seq<Problem>, ids: set<string>, required: set<string>)
    ensures diagnostics == ObligationList(obligations, {})
                           + When(RequiredObligations(obligations, {}) == {}, NoRequiredObligation)
    ensures ids == AcceptedObligations(obligations, {})
    ensures required == RequiredObligations(obligations, {})
  {
    hide ValidatePublicID;
    diagnostics, ids, required := [], {}, {};
    var requiredCount := 0;
    for i := 0 to |obligations|
      invariant ObligationList(obligations, {}) == diagnostics + ObligationList(obligations[i..], ids)
      invariant AcceptedObligations(obligations, {}) == AcceptedObligations(obligations[i..], ids)
      invariant RequiredObligations(obligations, {}) == required + RequiredObligations(obligations[i..], ids)
      invariant 0 <= requiredCount && (requiredCount == 0 <==> required == {})
    {
      var o := obligations[i];
      assert obligations[i..][1..] == obligations[i + 1..];
      var bad := ValidatePublicID(o.id, "obligation id");
      if bad.Some? {
        diagnostics := diagnostics + [bad.value];
        continue;
      }
      if o.id in ids {
        assert ids + {o.id} == ids;
        diagnostics := diagnostics + [DuplicateObligation(o.id)];
        continue;
      }
      ids := ids + {o.id};
      if o.required {
        requiredCount := requiredCount + 1;
        required := required + {o.id};
      }
    }
    if requiredCount == 0 {
      diagnostics := diagnostics + [NoRequiredObligation];
    }
  }

  method LintTask(task: Task, known: set<string>) returns (diagnostics: seq<Problem>)
    ensures diagnostics == OwnList(task, known)
  {
    diagnostics := Note([], task.kind !in TASK_KINDS, UnsupportedKind(task.kind, task.id));
    assert [] + diagnostics == diagnostics;
    diagnostics := Note(diagnostics, TrimSpace(task.adapter) == "", AdapterRequired(task.id));
    diagnostics := Note(diagnostics, task.timeoutSecs <= 0, TimeoutNotPositive(task.id));
    var unknown := LintTaskObligations(task, known);
    var effects := LintTaskEffects(task);
    diagnostics := diagnostics + unknown + effects;
  }

  method LintTaskObligations(task: Task, known: set<string>) returns (diagnostics: seq<Problem>)
    ensures diagnostics == UnknownObligations(task, 0, known)
  {
    diagnostics := [];
    for i := 0 to |task.obligations|
      invariant UnknownObligations(task, 0, known) == diagnostics + UnknownObligations(task, i, known)
    {
      var id := task.obligations[i];
      Regroup(diagnostics, When(id !in known, UnknownObligation(task.id, id)), UnknownObligations(task, i + 1, known));
      diagnostics := Note(diagnostics, id !in known, UnknownObligation(task.id, id));
    }
  }

  method LintTaskEffects(task: Task) returns (diagnostics: seq<Problem>)
    ensures diagnostics == EffectList(task, 0)
  {
    diagnostics := [];
    for i := 0 to |task.effects|
      invariant EffectList(task, 0) == diagnostics + EffectList(task, i)
    {
      var effect := task.effects[i];
      var bad := effect.effectType !in EFFECT_TYPES;
      var problem := UnsupportedEffect(effect.effectType, task.id);
      var path := PathList(effect.resource, "side effect resource");
      Regroup(diagnostics, When(bad, problem) + path, EffectList(task, i + 1));
      Regroup(diagnostics, When(bad, problem), path);
      diagnostics := Note(diagnostics, bad, problem);
      diagnostics := diagnostics + path;
    }
  }

  lemma {:induction false} CheckedWithoutSchema(task: Task, known: set<string>)
    ensures CheckedList(task, known, AnySchema) == OwnList(task, known)
  {
    assert When(!AnySchema(task), TaskSchemaInvalid(task.id)) == [];
  }

  method LintTasks(tasks: seq<Task>, known: set<string>)
    returns (diagnostics: seq<Problem>, taskIDs: map<string, Task>)
    ensures diagnostics == TaskList(tasks, {}, known, AnySchema) + When(AcceptedTasks(tasks, map[]) == map[], NoTasks)
    ensures taskIDs == AcceptedTasks(tasks, map[])
  {
    diagnostics, taskIDs := [], map[];
    assert tasks[0..] == tasks && taskIDs.Keys == {};
    for i := 0 to |tasks|
      invariant TaskList(tasks, {}, known, AnySchema) == diagnostics + TaskList(tasks[i..], taskIDs.Keys, known, AnySchema)
      invariant AcceptedTasks(tasks, map[]) == AcceptedTasks(tasks[i..], taskIDs)
    {
      var own: seq<Problem>;
      ghost var before := taskIDs;
      own, taskIDs := LintOneTask(tasks[i], taskIDs, known);
      assert tasks[i..][0] == tasks[i] && tasks[i..][1..] == tasks[i + 1..];
      TaskListStep(tasks[i..], before, known);
      Regroup(diagnostics, own, TaskList(tasks[i + 1..], taskIDs.Keys, known, AnySchema));
      diagnostics := diagnostics + own;
    }
    diagnostics := Note(diagnostics, |taskIDs| == 0, NoTasks);
  }

  /** What one turn of the task loop adds. */
  function TurnList(t: Task, seen: map<string, Task>, known: set<string>): seq<Problem> {
    match ValidatePublicID(t.id, "task id")
    case Some(p) => [p]
    case None => if t.id in seen then [DuplicateTask(t.id)] else OwnList(t, known)
  }

  function TurnTasks(t: Task, seen: map<string, Task>): map<string, Task> {
    if ValidatePublicID(t.id, "task id").None? && t.id !in seen then seen[t.id := t] else seen
  }

  lemma {:induction false} TaskListStep(tasks: seq<Task>, seen: map<string, Task>, known: set<string>)
    requires tasks != []
    ensures TaskList(tasks, seen.Keys, known, AnySchema) ==
            TurnList(tasks[0], seen, known) + TaskList(tasks[1..], TurnTasks(tasks[0], seen).Keys, known, AnySchema)
    ensures AcceptedTasks(tasks, seen) == AcceptedTasks(tasks[1..], TurnTasks(tasks[0], seen))
  {
    CheckedWithoutSchema(tasks[0], known);
    assert seen[tasks[0].id := tasks[0]].Keys == seen.Keys + {tasks[0].id};
  }

  method LintOneTask(t: Task, seen: map<string, Task>, known: set<string>)
    returns (diagnostics: seq<Problem>, taskIDs: map<string, Task>)
    ensures diagnostics == TurnList(t, seen, known)
    ensures taskIDs == TurnTasks(t, seen)
  {
    var bad := ValidatePublicID(t.id, "task id");
    if bad.Some? {
      return [bad.value], seen;
    }
    if t.id in seen {
      return [DuplicateTask(t.id)], seen;
    }
    diagnostics := LintTask(t, known);
    taskIDs := seen[t.id := t];
  }

  method LintApprovals(approvals: seq<ApprovalTicket>, taskIDs: map<string, Task>, parse: string -> Option<int>)
    returns (diagnostics: seq<Problem>)
    ensures diagnostics == ApprovalList(approvals, {}, taskIDs.Keys, DeclaredEffects(taskIDs), parse)
  {
    hide TicketIdentity, TicketGrant, DeclaredEffects;
    diagnostics := [];
    var declared := DeclaredEffects(taskIDs);
    var seen := {};
    for i := 0 to |approvals|
      invariant ApprovalList(approvals, {}, taskIDs.Keys, declared, parse)
             == diagnostics + ApprovalList(approvals[i..], seen, taskIDs.Keys, declared, parse)
    {
      assert approvals[i..][1..] == approvals[i + 1..];
      var identity := LintTicketIdentity(approvals[i], seen, taskIDs.Keys);
      var grant := LintTicketGrant(approvals[i], declared, parse);
      diagnostics := diagnostics + (identity + grant);
      seen := seen + {approvals[i].ticketID};
    }
  }

  method LintTicketIdentity(t: ApprovalTicket, seen: set<string>, taskIDs: set<string>)
    returns (diagnostics: seq<Problem>)
    ensures diagnostics == TicketIdentity(t, seen, taskIDs)
  {
    diagnostics := Note([], t.schemaVersion != TICKET_SCHEMA, UnsupportedTicketVersion(t.schemaVersion));
    assert [] + diagnostics == diagnostics;
    diagnostics := diagnostics + AsList(ValidatePublicID(t.ticketID, "approval ticket id"));
    diagnostics := Note(diagnostics, t.ticketID in seen, DuplicateTicket(t.ticketID));
    diagnostics := Note(diagnostics, t.taskID !in taskIDs, TicketUnknownTask(t.ticketID, t.taskID));
    diagnostics := Note(diagnostics, t.effectType !in EFFECT_TYPES, TicketUnsupportedEffect(t.ticketID, t.effectType));
  }

  method LintTicketGrant(t: ApprovalTicket, declared: set<string>, parse: string -> Option<int>)
    returns (diagnostics: seq<Problem>)
    ensures diagnostics == TicketGrant(t, declared, parse)
  {
    diagnostics := PathList(t.resource, "approval ticket resource");
    diagnostics := Note(diagnostics, TrimSpace(t.reason) == "", TicketReasonRequired(t.ticketID));
    diagnostics := Note(diagnostics, TrimSpace(t.expiresAt) != "" && parse(t.expiresAt).None?, TicketBadExpiry(t.ticketID));
    diagnostics := Note(diagnostics, EffectKey(t.taskID, t.effectType, t.resource) !in declared,
                        TicketUndeclaredEffect(t.ticketID));
  }

  method LintDependencies(tasks: seq<Task>, taskIDs: set<string>) returns (diagnostics: seq<Problem>)
    ensures diagnostics == DependencyList(tasks, taskIDs)
  {
    diagnostics := [];
    for i := 0 to |tasks|
      invariant DependencyList(tasks, taskIDs) == diagnostics + DependencyList(tasks[i..], taskIDs)
    {
      assert tasks[i..][1..] == tasks[i + 1..];
      var own: seq<Problem> := [];
      for j := 0 to |tasks[i].dependsOn|
        invariant UnknownDeps(tasks[i], 0, taskIDs) == own + UnknownDeps(tasks[i], j, taskIDs)
      {
        if tasks[i].dependsOn[j] !in taskIDs {
          own := own + [UnknownDependency(tasks[i].id, tasks[i].dependsOn[j])];
        }
      }
      diagnostics := diagnostics + own;
    }
  }

  method LintEvaluatorReferences(ids: seq<string>, known: set<string>)
    returns (listed: seq<Problem>, evaluatorIDs: set<string>)
    ensures listed == EvaluatorList(ids, known)
    ensures evaluatorIDs == set x | x in ids
  {
    listed := [];
    evaluatorIDs := {};
    for i := 0 to |ids|
      invariant EvaluatorList(ids, known) == listed + EvaluatorList(ids[i..], known)
      invariant evaluatorIDs == set x | x in ids[..i]
    {
      assert ids[i..][1..] == ids[i + 1..] && ids[..i + 1] == ids[..i] + [ids[i]];
      Regroup(listed, When(ids[i] !in known, EvaluatorUnknownObligation(ids[i])), EvaluatorList(ids[i + 1..], known));
      listed := Note(listed, ids[i] !in known, EvaluatorUnknownObligation(ids[i]));
      evaluatorIDs := evaluatorIDs + {ids[i]};
    }
    assert ids[..|ids|] == ids;
  }

  lemma {:induction false} EnumeratesNone()
    ensures Enumerates([], {})
  {
  }

  lemma {:induction false} EnumeratesMore(tail: seq<Problem>, missing: set<string>, id: string)
    requires Enumerates(tail, missing) && id !in missing
    ensures Enumerates(tail + [EvaluatorMissesRequired(id)], missing + {id})
  {
    var more := tail + [EvaluatorMissesRequired(id)];
    assert more[|tail|] == EvaluatorMissesRequired(id);
    forall x | x in missing ensures EvaluatorMissesRequired(x) in more {
      assert EvaluatorMissesRequired(x) in tail;
    }
  }

  method LintMissedRequired(required: set<string>, evaluatorIDs: set<string>) returns (missed: seq<Problem>)
    ensures Enumerates(missed, required - evaluatorIDs)
  {
    missed := [];
    var left := required;
    EnumeratesNone();
    hide Enumerates;
    assert required - left - evaluatorIDs == {};
    while left != {}
      invariant left <= required
      invariant Enumerates(missed, required - left - evaluatorIDs)
      decreases left
    {
      var id :| id in left;
      ghost var done := required - left - evaluatorIDs;
      if id !in evaluatorIDs {
        EnumeratesMore(missed, done, id);
        assert required - (left - {id}) - evaluatorIDs == done + {id};
        missed := missed + [EvaluatorMissesRequired(id)];
      } else {
        assert required - (left - {id}) - evaluatorIDs == done;
      }
      left := left - {id};
    }
    assert required - left - evaluatorIDs == required - evaluatorIDs;
  }

  method LintContract(c: Contract, parse: string -> Option<int>) returns (diagnostics: seq<Problem>)
    ensures AllProblems(c, parse, diagnostics)
  {
    var header := LintHeader(c);
    var obligations, known, required := LintObligations(c.obligations);
    var tasks, taskIDs := LintTasks(c.tasks, known);
    var approvals := LintApprovals(c.approvals, taskIDs, parse);
    var dependencies := LintDependencies(c.tasks, taskIDs.Keys);
    var cycle: seq<Problem> := [];
    var cyclic := HasCycle(c.tasks);
    if cyclic {
      cycle := [DependencyCycle];
    }
    var listed, evaluatorIDs := LintEvaluatorReferences(c.evaluatorObligations, known);
    var missed := LintMissedRequired(required, evaluatorIDs);
    var ordered := header + (obligations + (tasks + (approvals + (dependencies + (cycle + listed)))));
    assert ordered == OrderedProblems(c, Oracle(AnySchema, parse));
    diagnostics := ordered + missed;
    assert diagnostics[|ordered|..] == missed;
  }

  // ----- collect-all refines fail-fast -----

  lemma {:induction false} SchemaOnlyAdds(tasks: seq<Task>, seen: set<string>, known: set<string>, schemaOk: Task -> bool)
    ensures (forall t :: t in tasks ==> schemaOk(t)) ==>
              TaskList(tasks, seen, known, schemaOk) == TaskList(tasks, seen, known, AnySchema)
    ensures TaskList(tasks, seen, known, AnySchema) == [] ==>
              (TaskList(tasks, seen, known, schemaOk) == [] <==> forall t :: t in tasks ==> schemaOk(t))
    ensures TaskList(tasks, seen, known, schemaOk) == [] ==> TaskList(tasks, seen, known, AnySchema) == []
  {
    if tasks != [] {
      var t := tasks[0];
      SchemaOnlyAdds(tasks[1..], seen, known, schemaOk);
      SchemaOnlyAdds(tasks[1..], seen + {t.id}, known, schemaOk);
      assert tasks == [t] + tasks[1..];
      assert forall x :: x in tasks <==> x == t || x in tasks[1..];
      assert When(false, TaskSchemaInvalid(t.id)) == [];
    }
  }

  /** Comparing two problem lists that differ only in their task part. */
  lemma {:induction false} TaskPartDecides(c: Contract, oracle: Oracle)
    ensures (forall t :: t in c.tasks ==> oracle.taskSchemaOk(t)) ==>
              OrderedProblems(c, oracle) == OrderedProblems(c, Oracle(AnySchema, oracle.parse))
    ensures OrderedProblems(c, oracle) == [] ==>
              OrderedProblems(c, Oracle(AnySchema, oracle.parse)) == [] && forall t :: t in c.tasks ==> oracle.taskSchemaOk(t)
  {
    var known := AcceptedObligations(c.obligations, {});
    SchemaOnlyAdds(c.tasks, {}, known, oracle.taskSchemaOk);
    if OrderedProblems(c, oracle) == [] {
      assert TaskPart(c, oracle.taskSchemaOk) == [];
      assert TaskPart(c, AnySchema) == [];
    }
  }

  /** With every task schema-valid, the validator's error is the linter's first diagnostic, up to the
      map-ordered last check; in general it reports nothing exactly when lint is clean and the schemas hold. */
  lemma {:induction false} CollectAllRefinesFailFast(
    c: Contract, oracle: Oracle, problem: Option<Problem>, diagnostics: seq<Problem>)
    requires FirstProblem(c, oracle, problem)
    requires AllProblems(c, oracle.parse, diagnostics)
    ensures problem.None? <==> diagnostics == [] && forall t :: t in c.tasks ==> oracle.taskSchemaOk(t)
    ensures (forall t :: t in c.tasks ==> oracle.taskSchemaOk(t)) && problem.Some? ==>
              && diagnostics != []
              && (problem.value == diagnostics[0]
                  || (problem.value.EvaluatorMissesRequired? && problem.value in diagnostics
                      && diagnostics[0].EvaluatorMissesRequired?))
  {
    TaskPartDecides(c, oracle);
    FirstIsFirst(OrderedProblems(c, Oracle(AnySchema, oracle.parse)),
                 MissingRequired(c), diagnostics);
  }

  lemma {:induction false} FirstIsFirst(ordered: seq<Problem>, missing: set<string>, diagnostics: seq<Problem>)
    requires ordered <= diagnostics && Enumerates(diagnostics[|ordered|..], missing)
    ensures diagnostics == [] <==> ordered == [] && missing == {}
    ensures ordered != [] ==> diagnostics[0] == ordered[0]
    ensures ordered == [] && missing != {} ==> diagnostics[0].EvaluatorMissesRequired?
    ensures forall x :: x in missing ==> EvaluatorMissesRequired(x) in diagnostics
  {
    var tail := diagnostics[|ordered|..];
    assert diagnostics == ordered + tail;
    assert |tail| == |missing|;
    if missing != {} {
      var x :| x in missing;
      assert EvaluatorMissesRequired(x) in tail;
    }
    if ordered == [] {
      assert tail == diagnostics;
    }
  }
}
