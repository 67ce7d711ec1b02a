/** What a contract with no problems is, stated without reference to the checks' order. */
module ValidContract {
  import opened Text
  import opened Contracts
  import opened Cycles
  import opened Validation
  import Paths

  predicate GoodID(id: string) {
    id != "" && (forall i :: 0 <= i < |id| ==> IDChar(id[i])) && !ReservedName(id)
  }

  predicate GoodPath(p: string) {
    TrimSpace(p) != "" && !Paths.Escapes(Paths.SlashClean(p))
  }

  ghost predicate Distinct<T>(xs: seq<T>, key: T -> string) {
    forall i, j :: 0 <= i < j < |xs| ==> key(xs[i]) != key(xs[j])
  }

  const ByTaskID: Task -> string := (t: Task) => t.id
  const ByObligationID: Obligation -> string := (o: Obligation) => o.id
  const ByTicketID: ApprovalTicket -> string := (t: ApprovalTicket) => t.ticketID

  function ObligationIDs(obligations: seq<Obligation>): set<string> {
    set o | o in obligations :: o.id
  }

  ghost predicate ValidTask(t: Task, known: set<string>) {
    && t.kind in TASK_KINDS && TrimSpace(t.adapter) != "" && t.timeoutSecs > 0
    && (forall o :: o in t.obligations ==> o in known)
    && (forall a :: a in t.effects ==> a.effectType in EFFECT_TYPES && GoodPath(a.resource))
  }

  /** Some task declares an effect with this key. */
  ghost predicate Declares(tasks: seq<Task>, key: string) {
    exists task, a :: task in tasks && a in task.effects && EffectKey(task.id, a.effectType, a.resource) == key
  }

  ghost predicate ValidTicket(t: ApprovalTicket, tasks: seq<Task>, parse: string -> Option<int>) {
    && t.schemaVersion == TICKET_SCHEMA && GoodID(t.ticketID)
    && t.taskID in TaskIDs(tasks) && t.effectType in EFFECT_TYPES
    && GoodPath(t.resource) && TrimSpace(t.reason) != ""
    && (TrimSpace(t.expiresAt) == "" || parse(t.expiresAt).Some?)
    && Declares(tasks, EffectKey(t.taskID, t.effectType, t.resource))
  }

  ghost predicate ValidHeader(c: Contract) {
    && c.schemaVersion == CONTRACT_SCHEMA && TrimSpace(c.objective) != "" && GoodPath(c.root)
    && (forall p :: p in c.readPaths ==> GoodPath(p)) && (forall p :: p in c.writePaths ==> GoodPath(p))
  }

  ghost predicate ValidObligations(c: Contract) {
    && (forall o :: o in c.obligations ==> GoodID(o.id)) && Distinct(c.obligations, ByObligationID)
    && (exists o :: o in c.obligations && o.required)
  }

  ghost predicate ValidTasks(c: Contract, schemaOk: Task -> bool) {
    && c.tasks != [] && Distinct(c.tasks, ByTaskID)
    && (forall t :: t in c.tasks ==> GoodID(t.id) && ValidTask(t, ObligationIDs(c.obligations)) && schemaOk(t))
  }

  ghost predicate ValidApprovals(c: Contract, parse: string -> Option<int>) {
    Distinct(c.approvals, ByTicketID) && forall t :: t in c.approvals ==> ValidTicket(t, c.tasks, parse)
  }

  ghost predicate ValidDependencies(c: Contract) {
    && (forall t, d :: t in c.tasks && d in t.dependsOn ==> d in TaskIDs(c.tasks))
    && !HasClosedWalk(DependencyMap(c.tasks))
  }

  ghost predicate ValidEvaluator(c: Contract) {
    && (forall x :: x in c.evaluatorObligations ==> x in ObligationIDs(c.obligations))
    && (forall o :: o in c.obligations && o.required ==> o.id in c.evaluatorObligations)
  }

  ghost predicate Valid(c: Contract, oracle: Oracle) {
    && ValidHeader(c) && ValidObligations(c) && ValidTasks(c, oracle.taskSchemaOk)
    && ValidApprovals(c, oracle.parse) && ValidDependencies(c) && ValidEvaluator(c)
  }

  // ----- one check at a time -----

  lemma {:induction false} FirstBadCharExact(id: string)
    ensures FirstBadChar(id).None? <==> forall i :: 0 <= i < |id| ==> IDChar(id[i])
  {
    if id != "" {
      FirstBadCharExact(id[1..]);
      assert id == [id[0]] + id[1..];
    }
  }

  lemma {:induction false} PlainIDIsTrimmedAndLower(id: string)
    requires forall i :: 0 <= i < |id| ==> IDChar(id[i])
    ensures TrimSpace(id) == id && ToLower(id) == id
  {
    assert forall i :: 0 <= i < |id| ==> !IsSpace(id[i]) && LowerChar(id[i]) == id[i];
  }

  lemma {:induction false} PublicIDExactly(raw: string, what: string)
    ensures ValidatePublicID(raw, what).None? <==> GoodID(raw)
  {
    FirstBadCharExact(raw);
    if forall i :: 0 <= i < |raw| ==> IDChar(raw[i]) {
      PlainIDIsTrimmedAndLower(raw);
    }
  }

  lemma {:induction false} PathListEmpty(raw: string, what: string)
    ensures PathList(raw, what) == [] <==> GoodPath(raw)
  {
  }

  lemma {:induction false} PathsListEmpty(raws: seq<string>, what: string)
    ensures PathsList(raws, what) == [] <==> forall p :: p in raws ==> GoodPath(p)
  {
    if raws != [] {
      PathListEmpty(raws[0], what);
      PathsListEmpty(raws[1..], what);
      assert forall p :: p in raws <==> p == raws[0] || p in raws[1..];
      assert PathsList(raws, what) == [] <==> PathList(raws[0], what) == [] && PathsList(raws[1..], what) == [];
    }
  }

  lemma {:induction false} DistinctStep<T>(xs: seq<T>, key: T -> string)
    requires xs != []
    ensures Distinct(xs, key) <==> Distinct(xs[1..], key) && forall x :: x in xs[1..] ==> key(x) != key(xs[0])
    ensures forall x :: x in xs <==> x == xs[0] || x in xs[1..]
  {
    var rest := xs[1..];
    if Distinct(xs, key) {
      forall i, j | 0 <= i < j < |rest| ensures key(rest[i]) != key(rest[j]) {
        assert key(xs[i + 1]) != key(xs[j + 1]);
      }
      forall x | x in rest ensures key(x) != key(xs[0]) {
        var j :| 0 <= j < |rest| && rest[j] == x;
        assert key(xs[0]) != key(xs[j + 1]);
      }
    }
  }

  lemma {:induction false} ObligationListEmpty(obligations: seq<Obligation>, seen: set<string>)
    ensures ObligationList(obligations, seen) == [] <==>
              && (forall o :: o in obligations ==> GoodID(o.id) && o.id !in seen)
              && Distinct(obligations, ByObligationID)
    ensures ObligationList(obligations, seen) == [] ==>
              && AcceptedObligations(obligations, seen) == seen + ObligationIDs(obligations)
              && RequiredObligations(obligations, seen) == set o | o in obligations && o.required :: o.id
  {
    if obligations != [] {
      var o, rest := obligations[0], obligations[1..];
      PublicIDExactly(o.id, "obligation id");
      ObligationListEmpty(rest, seen + {o.id});
      DistinctStep(obligations, ByObligationID);
    }
  }

  lemma {:induction false} UnknownObligationsEmpty(task: Task, from: nat, known: set<string>)
    requires from <= |task.obligations|
    ensures UnknownObligations(task, from, known) == [] <==>
              forall i :: from <= i < |task.obligations| ==> task.obligations[i] in known
    decreases |task.obligations| - from
  {
    if from < |task.obligations| {
      UnknownObligationsEmpty(task, from + 1, known);
    }
  }

  lemma {:induction false} EffectListEmpty(task: Task, from: nat)
    requires from <= |task.effects|
    ensures EffectList(task, from) == [] <==>
              forall i :: from <= i < |task.effects| ==>
                task.effects[i].effectType in EFFECT_TYPES && GoodPath(task.effects[i].resource)
    decreases |task.effects| - from
  {
    if from < |task.effects| {
      var a := task.effects[from];
      PathListEmpty(a.resource, "side effect resource");
      EffectListEmpty(task, from + 1);
      assert EffectList(task, from) == [] <==>
             a.effectType in EFFECT_TYPES && PathList(a.resource, "side effect resource") == [] && EffectList(task, from + 1) == [];
    }
  }

  lemma {:induction false} OwnListEmpty(task: Task, known: set<string>)
    ensures OwnList(task, known) == [] <==> ValidTask(task, known)
  {
    UnknownObligationsEmpty(task, 0, known);
    EffectListEmpty(task, 0);
  }

  lemma {:induction false} TaskListEmpty(tasks: seq<Task>, seen: map<string, Task>, known: set<string>, schemaOk: Task -> bool)
    ensures TaskList(tasks, seen.Keys, known, schemaOk) == [] <==>
              && (forall t :: t in tasks ==> GoodID(t.id) && t.id !in seen && ValidTask(t, known) && schemaOk(t))
              && Distinct(tasks, ByTaskID)
    ensures TaskList(tasks, seen.Keys, known, schemaOk) == [] ==>
              && AcceptedTasks(tasks, seen).Keys == seen.Keys + TaskIDs(tasks)
              && (forall t :: t in tasks ==> t.id in AcceptedTasks(tasks, seen) && AcceptedTasks(tasks, seen)[t.id] == t)
              && (forall id :: id in seen ==> AcceptedTasks(tasks, seen)[id] == seen[id])
  {
    if tasks != [] {
      var t, rest := tasks[0], tasks[1..];
      PublicIDExactly(t.id, "task id");
      OwnListEmpty(t, known);
      var next := seen[t.id := t];
      assert next.Keys == seen.Keys + {t.id};
      TaskListEmpty(rest, next, known, schemaOk);
      DistinctStep(tasks, ByTaskID);
    }
  }

  lemma {:induction false} DeclaredExactly(tasks: seq<Task>, taskIDs: map<string, Task>, key: string)
    requires taskIDs.Keys == TaskIDs(tasks) && forall x :: x in tasks ==> taskIDs[x.id] == x
    ensures key in DeclaredEffects(taskIDs) <==> Declares(tasks, key)
  {
    if key in DeclaredEffects(taskIDs) {
      var id, a :| id in taskIDs && a in taskIDs[id].effects
        && EffectKey(taskIDs[id].id, a.effectType, a.resource) == key;
      var task :| task in tasks && task.id == id;
      assert taskIDs[id] == task;
    }
    if task, a :| task in tasks && a in task.effects && EffectKey(task.id, a.effectType, a.resource) == key {
      assert taskIDs[task.id] == task;
    }
  }

  lemma {:induction false} TicketListEmpty(
    t: ApprovalTicket, seen: set<string>, tasks: seq<Task>, taskIDs: map<string, Task>, parse: string -> Option<int>)
    requires taskIDs.Keys == TaskIDs(tasks) && forall x :: x in tasks ==> taskIDs[x.id] == x
    ensures TicketList(t, seen, taskIDs.Keys, DeclaredEffects(taskIDs), parse) == [] <==>
              ValidTicket(t, tasks, parse) && t.ticketID !in seen
  {
    PublicIDExactly(t.ticketID, "approval ticket id");
    DeclaredExactly(tasks, taskIDs, EffectKey(t.taskID, t.effectType, t.resource));
    assert TicketList(t, seen, taskIDs.Keys, DeclaredEffects(taskIDs), parse) == [] <==>
           TicketIdentity(t, seen, taskIDs.Keys) == [] && TicketGrant(t, DeclaredEffects(taskIDs), parse) == [];
  }

  lemma {:induction false} ApprovalListEmpty(
    approvals: seq<ApprovalTicket>, seen: set<string>, tasks: seq<Task>, taskIDs: map<string, Task>,
    parse: string -> Option<int>)
    requires taskIDs.Keys == TaskIDs(tasks) && forall x :: x in tasks ==> taskIDs[x.id] == x
    ensures ApprovalList(approvals, seen, taskIDs.Keys, DeclaredEffects(taskIDs), parse) == [] <==>
              && (forall t :: t in approvals ==> ValidTicket(t, tasks, parse) && t.ticketID !in seen)
              && Distinct(approvals, ByTicketID)
  {
    if approvals != [] {
      var t, rest := approvals[0], approvals[1..];
      TicketListEmpty(t, seen, tasks, taskIDs, parse);
      ApprovalListEmpty(rest, seen + {t.ticketID}, tasks, taskIDs, parse);
      DistinctStep(approvals, ByTicketID);
    }
  }

  lemma {:induction false} UnknownDepsEmpty(task: Task, from: nat, ids: set<string>)
    requires from <= |task.dependsOn|
    ensures UnknownDeps(task, from, ids) == [] <==> forall i :: from <= i < |task.dependsOn| ==> task.dependsOn[i] in ids
    decreases |task.dependsOn| - from
  {
    if from < |task.dependsOn| {
      UnknownDepsEmpty(task, from + 1, ids);
    }
  }

  lemma {:induction false} DependencyListEmpty(tasks: seq<Task>, ids: set<string>)
    ensures DependencyList(tasks, ids) == [] <==> forall t, d :: t in tasks && d in t.dependsOn ==> d in ids
  {
    if tasks != [] {
      UnknownDepsEmpty(tasks[0], 0, ids);
      DependencyListEmpty(tasks[1..], ids);
      assert forall x :: x in tasks <==> x == tasks[0] || x in tasks[1..];
    }
  }

  lemma {:induction false} EvaluatorListEmpty(ids: seq<string>, known: set<string>)
    ensures EvaluatorList(ids, known) == [] <==> forall x :: x in ids ==> x in known
  {
    if ids != [] {
      EvaluatorListEmpty(ids[1..], known);
      assert forall x :: x in ids <==> x == ids[0] || x in ids[1..];
    }
  }

  // ----- all of them -----

  lemma {:induction false} HeaderExactly(c: Contract)
    ensures HeaderList(c) == [] <==> ValidHeader(c)
  {
    PathListEmpty(c.root, "workspace root");
    PathsListEmpty(c.readPaths, "read path");
    PathsListEmpty(c.writePaths, "write path");
  }

  lemma {:induction false} ObligationsExactly(c: Contract)
    ensures ObligationPart(c) == [] <==> ValidObligations(c)
    ensures ObligationPart(c) == [] ==>
              && AcceptedObligations(c.obligations, {}) == ObligationIDs(c.obligations)
              && RequiredObligations(c.obligations, {}) == set o | o in c.obligations && o.required :: o.id
  {
    ObligationListEmpty(c.obligations, {});
    var required := set o | o in c.obligations && o.required :: o.id;
    assert required == {} <==> !exists o :: o in c.obligations && o.required by {
      if o :| o in c.obligations && o.required {
        assert o.id in required;
      }
    }
  }

  lemma {:induction false} TasksExactly(c: Contract, schemaOk: Task -> bool)
    requires AcceptedObligations(c.obligations, {}) == ObligationIDs(c.obligations)
    ensures TaskPart(c, schemaOk) == [] <==> ValidTasks(c, schemaOk)
    ensures TaskPart(c, schemaOk) == [] ==>
              && AcceptedTasks(c.tasks, map[]).Keys == TaskIDs(c.tasks)
              && (forall t :: t in c.tasks ==> AcceptedTasks(c.tasks, map[])[t.id] == t)
  {
    var none: map<string, Task> := map[];
    assert none.Keys == {};
    TaskListEmpty(c.tasks, none, ObligationIDs(c.obligations), schemaOk);
    if c.tasks != [] && TaskList(c.tasks, {}, ObligationIDs(c.obligations), schemaOk) == [] {
      assert c.tasks[0] in c.tasks;
      assert c.tasks[0].id in AcceptedTasks(c.tasks, map[]).Keys;
    }
  }

  lemma {:induction false} RestExactly(c: Contract, parse: string -> Option<int>)
    requires AcceptedTasks(c.tasks, map[]).Keys == TaskIDs(c.tasks)
    requires forall t :: t in c.tasks ==> AcceptedTasks(c.tasks, map[])[t.id] == t
    ensures ApprovalPart(c, parse) == [] <==> ValidApprovals(c, parse)
    ensures DependencyPart(c) == [] && CyclePart(c) == [] <==> ValidDependencies(c)
  {
    ApprovalListEmpty(c.approvals, {}, c.tasks, AcceptedTasks(c.tasks, map[]), parse);
    DependencyListEmpty(c.tasks, TaskIDs(c.tasks));
  }

  lemma {:induction false} EvaluatorExactly(c: Contract)
    requires AcceptedObligations(c.obligations, {}) == ObligationIDs(c.obligations)
    requires RequiredObligations(c.obligations, {}) == set o | o in c.obligations && o.required :: o.id
    ensures EvaluatorPart(c) == [] && MissingRequired(c) == {} <==> ValidEvaluator(c)
  {
    EvaluatorListEmpty(c.evaluatorObligations, ObligationIDs(c.obligations));
    if MissingRequired(c) == {} {
      forall o | o in c.obligations && o.required ensures o.id in c.evaluatorObligations {
        assert o.id in RequiredObligations(c.obligations, {});
        assert o.id !in MissingRequired(c);
      }
    }
  }

  lemma {:induction false} PartsEmpty(c: Contract, oracle: Oracle)
    ensures OrderedProblems(c, oracle) == [] <==>
              && HeaderList(c) == [] && ObligationPart(c) == [] && TaskPart(c, oracle.taskSchemaOk) == []
              && ApprovalPart(c, oracle.parse) == [] && DependencyPart(c) == [] && CyclePart(c) == [] && EvaluatorPart(c) == []
  {
    FirstOfOrdered(c, oracle);
  }

  /** A contract raises no problem exactly when it is valid. */
  lemma {:induction false} NoProblemExactly(c: Contract, oracle: Oracle)
    ensures OrderedProblems(c, oracle) == [] && MissingRequired(c) == {} <==> Valid(c, oracle)
  {
    PartsEmpty(c, oracle);
    HeaderExactly(c);
    ObligationsExactly(c);
    if ObligationPart(c) == [] {
      TasksExactly(c, oracle.taskSchemaOk);
      EvaluatorExactly(c);
      if TaskPart(c, oracle.taskSchemaOk) == [] {
        RestExactly(c, oracle.parse);
      }
    }
  }
}
