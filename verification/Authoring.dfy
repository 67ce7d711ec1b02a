/** Structured briefs: fail-fast validation and collect-all linting of the parsed draft. */
module Authoring {
  import opened Text
  import opened Contracts
  import Validation
  import Paths

  datatype TaskDraft = TaskDraft(
    id: string,
    line: int,
    dependsOn: seq<string>,
    dependsOnLines: seq<int>,
    obligations: seq<string>,
    obligationLines: seq<int>,
    writes: seq<string>,
    writeLines: seq<int>)

  datatype Brief = Brief(obligations: seq<Obligation>, obligationLines: seq<int>, tasks: seq<TaskDraft>)

  datatype Problem =
    | ObligationIDInvalid(cause: Validation.Problem)
    | ObligationIDDuplicate(id: string, firstLine: int)
    | TaskIDInvalid(cause: Validation.Problem)
    | TaskIDDuplicate(id: string, firstLine: int)
    | DependencyUnknown(task: string, dep: string)
    | ObligationUnknown(task: string, obligation: string)
    | WriteInvalid(reason: Paths.PathProblem)
    | WriteUndeclared(task: string, path: string)

  datatype Diagnostic = Diagnostic(problem: Problem, line: int)

  /** The line recorded for an item, or the fallback when none was. */
  function LineAt(lines: seq<int>, index: int, fallback: int): int {
    if 0 <= index < |lines| && lines[index] > 0 then lines[index] else fallback
  }

  // ----- the diagnostics of a brief, in order -----

  function AsList(note: Option<Diagnostic>): seq<Diagnostic> {
    match note case None => [] case Some(d) => [d]
  }

  function ObligationNote(b: Brief, i: nat, seen: map<string, int>): Option<Diagnostic>
    requires i < |b.obligations|
  {
    var id, line := b.obligations[i].id, LineAt(b.obligationLines, i, 0);
    match Validation.ValidatePublicID(id, "obligation id")
    case Some(p) => Some(Diagnostic(ObligationIDInvalid(p), line))
    case None => if id in seen then Some(Diagnostic(ObligationIDDuplicate(id, seen[id]), line)) else None
  }

  /** The IDs seen after one more obligation, with their lines; a rejected one is not remembered. */
  function SeeObligation(b: Brief, i: nat, seen: map<string, int>): map<string, int>
    requires i < |b.obligations|
  {
    if ObligationNote(b, i, seen).Some? then seen else seen[b.obligations[i].id := LineAt(b.obligationLines, i, 0)]
  }

  function ObligationNotes(b: Brief, i: nat, seen: map<string, int>): seq<Diagnostic>
    requires i <= |b.obligations|
    decreases |b.obligations| - i
  {
    if i == |b.obligations| then []
    else AsList(ObligationNote(b, i, seen)) + ObligationNotes(b, i + 1, SeeObligation(b, i, seen))
  }

  function KnownObligations(b: Brief, i: nat, seen: map<string, int>): map<string, int>
    requires i <= |b.obligations|
    decreases |b.obligations| - i
  {
    if i == |b.obligations| then seen else KnownObligations(b, i + 1, SeeObligation(b, i, seen))
  }

  function TaskNote(t: TaskDraft, seen: map<string, int>): Option<Diagnostic> {
    match Validation.ValidatePublicID(t.id, "task id")
    case Some(p) => Some(Diagnostic(TaskIDInvalid(p), t.line))
    case None => if t.id in seen then Some(Diagnostic(TaskIDDuplicate(t.id, seen[t.id]), t.line)) else None
  }

  function SeeTask(t: TaskDraft, seen: map<string, int>): map<string, int> {
    if TaskNote(t, seen).Some? then seen else seen[t.id := t.line]
  }

  function TaskNotes(tasks: seq<TaskDraft>, seen: map<string, int>): seq<Diagnostic> {
    if tasks == [] then [] else AsList(TaskNote(tasks[0], seen)) + TaskNotes(tasks[1..], SeeTask(tasks[0], seen))
  }

  function KnownTasks(tasks: seq<TaskDraft>, seen: map<string, int>): map<string, int> {
    if tasks == [] then seen else KnownTasks(tasks[1..], SeeTask(tasks[0], seen))
  }

  function DependencyNote(t: TaskDraft, i: nat, tasks: set<string>): Option<Diagnostic>
    requires i < |t.dependsOn|
  {
    if t.dependsOn[i] in tasks then None
    else Some(Diagnostic(DependencyUnknown(t.id, t.dependsOn[i]), LineAt(t.dependsOnLines, i, t.line)))
  }

  function DependencyNotes(t: TaskDraft, i: nat, tasks: set<string>): seq<Diagnostic>
    requires i <= |t.dependsOn|
    decreases |t.dependsOn| - i
  {
    if i == |t.dependsOn| then [] else AsList(DependencyNote(t, i, tasks)) + DependencyNotes(t, i + 1, tasks)
  }

  function ReferenceNote(t: TaskDraft, i: nat, obligations: set<string>): Option<Diagnostic>
    requires i < |t.obligations|
  {
    if t.obligations[i] in obligations then None
    else Some(Diagnostic(ObligationUnknown(t.id, t.obligations[i]), LineAt(t.obligationLines, i, t.line)))
  }

  function ReferenceNotes(t: TaskDraft, i: nat, obligations: set<string>): seq<Diagnostic>
    requires i <= |t.obligations|
    decreases |t.obligations| - i
  {
    if i == |t.obligations| then [] else AsList(ReferenceNote(t, i, obligations)) + ReferenceNotes(t, i + 1, obligations)
  }

  function Normalized(writePath: string): string {
    Paths.Clean(ReplaceChar(writePath, '\\', '/'))
  }

  function WriteNote(t: TaskDraft, i: nat, declared: set<string>): Option<Diagnostic>
    requires i < |t.writes|
  {
    var path, line := Normalized(t.writes[i]), LineAt(t.writeLines, i, t.line);
    match Paths.ValidateRelativePath(path, "side effect resource")
    case Some(p) => Some(Diagnostic(WriteInvalid(p), line))
    case None => if path in declared then None else Some(Diagnostic(WriteUndeclared(t.id, path), line))
  }

  function WriteNotes(t: TaskDraft, i: nat, declared: set<string>): seq<Diagnostic>
    requires i <= |t.writes|
    decreases |t.writes| - i
  {
    if i == |t.writes| then []
    else AsList(WriteNote(t, i, declared)) + WriteNotes(t, i + 1, declared)
  }

  function BodyNotes(t: TaskDraft, tasks: set<string>, obligations: set<string>, declared: set<string>): seq<Diagnostic> {
    DependencyNotes(t, 0, tasks) + ReferenceNotes(t, 0, obligations) + WriteNotes(t, 0, declared)
  }

  function BodiesNotes(drafts: seq<TaskDraft>, tasks: set<string>, obligations: set<string>, declared: set<string>): seq<Diagnostic> {
    if drafts == [] then []
    else BodyNotes(drafts[0], tasks, obligations, declared) + BodiesNotes(drafts[1..], tasks, obligations, declared)
  }

  function DeclaredWrites(writes: seq<string>): set<string> {
    set w | w in writes
  }

  function AllNotes(b: Brief, writes: seq<string>): seq<Diagnostic> {
    ObligationNotes(b, 0, map[]) + TaskNotes(b.tasks, map[])
    + BodiesNotes(b.tasks, KnownTasks(b.tasks, map[]).Keys, KnownObligations(b, 0, map[]).Keys, DeclaredWrites(writes))
  }

  function First(notes: seq<Diagnostic>): Option<Diagnostic> {
    if notes == [] then None else Some(notes[0])
  }

  // ----- collect-all -----

  lemma {:induction false} Regroup(a: seq<Diagnostic>, b: seq<Diagnostic>, c: seq<Diagnostic>)
    ensures a + (b + c) == (a + b) + c
  {
  }

  lemma {:induction false} LintStep(notes: seq<Diagnostic>, note: Option<Diagnostic>, rest: seq<Diagnostic>)
    ensures notes + (AsList(note) + rest) == (notes + AsList(note)) + rest
    ensures note.None? ==> notes + AsList(note) == notes
  {
  }

  method LintObligations(b: Brief) returns (notes: seq<Diagnostic>, ids: map<string, int>)
    ensures notes == ObligationNotes(b, 0, map[]) && ids == KnownObligations(b, 0, map[])
  {
    notes, ids := [], map[];
    for i := 0 to |b.obligations|
      invariant ObligationNotes(b, 0, map[]) == notes + ObligationNotes(b, i, ids)
      invariant KnownObligations(b, 0, map[]) == KnownObligations(b, i, ids)
    {
      LintStep(notes, ObligationNote(b, i, ids), ObligationNotes(b, i + 1, SeeObligation(b, i, ids)));
      var line := LineAt(b.obligationLines, i, 0);
      var id := b.obligations[i].id;
      var bad := Validation.ValidatePublicID(id, "obligation id");
      if bad.Some? {
        notes := notes + [Diagnostic(ObligationIDInvalid(bad.value), line)];
        continue;
      }
      if id in ids {
        notes := notes + [Diagnostic(ObligationIDDuplicate(id, ids[id]), line)];
        continue;
      }
      ids := ids[id := line];
    }
  }

  method LintTasks(tasks: seq<TaskDraft>) returns (notes: seq<Diagnostic>, ids: map<string, int>)
    ensures notes == TaskNotes(tasks, map[]) && ids == KnownTasks(tasks, map[])
  {
    notes, ids := [], map[];
    for i := 0 to |tasks|
      invariant TaskNotes(tasks, map[]) == notes + TaskNotes(tasks[i..], ids)
      invariant KnownTasks(tasks, map[]) == KnownTasks(tasks[i..], ids)
    {
      var task := tasks[i];
      assert tasks[i..][1..] == tasks[i + 1..];
      LintStep(notes, TaskNote(task, ids), TaskNotes(tasks[i + 1..], SeeTask(task, ids)));
      var bad := Validation.ValidatePublicID(task.id, "task id");
      if bad.Some? {
        notes := notes + [Diagnostic(TaskIDInvalid(bad.value), task.line)];
        continue;
      }
      if task.id in ids {
        notes := notes + [Diagnostic(TaskIDDuplicate(task.id, ids[task.id]), task.line)];
        continue;
      }
      ids := ids[task.id := task.line];
    }
  }

  method LintDependencies(t: TaskDraft, tasks: set<string>) returns (notes: seq<Diagnostic>)
    ensures notes == DependencyNotes(t, 0, tasks)
  {
    notes := [];
    for i := 0 to |t.dependsOn|
      invariant DependencyNotes(t, 0, tasks) == notes + DependencyNotes(t, i, tasks)
    {
      LintStep(notes, DependencyNote(t, i, tasks), DependencyNotes(t, i + 1, tasks));
      if t.dependsOn[i] !in tasks {
        notes := notes + [Diagnostic(DependencyUnknown(t.id, t.dependsOn[i]), LineAt(t.dependsOnLines, i, t.line))];
      }
    }
  }

  method LintReferences(t: TaskDraft, obligations: set<string>) returns (notes: seq<Diagnostic>)
    ensures notes == ReferenceNotes(t, 0, obligations)
  {
    notes := [];
    for i := 0 to |t.obligations|
      invariant ReferenceNotes(t, 0, obligations) == notes + ReferenceNotes(t, i, obligations)
    {
      LintStep(notes, ReferenceNote(t, i, obligations), ReferenceNotes(t, i + 1, obligations));
      if t.obligations[i] !in obligations {
        notes := notes + [Diagnostic(ObligationUnknown(t.id, t.obligations[i]), LineAt(t.obligationLines, i, t.line))];
      }
    }
  }

  method LintWrites(t: TaskDraft, declared: set<string>) returns (notes: seq<Diagnostic>)
    ensures notes == WriteNotes(t, 0, declared)
  {
    notes := [];
    for i := 0 to |t.writes|
      invariant WriteNotes(t, 0, declared) == notes + WriteNotes(t, i, declared)
    {
      LintStep(notes, WriteNote(t, i, declared), WriteNotes(t, i + 1, declared));
      var path := Normalized(t.writes[i]);
      var invalid := Paths.ValidateRelativePath(path, "side effect resource");
      if invalid.Some? {
        notes := notes + [Diagnostic(WriteInvalid(invalid.value), LineAt(t.writeLines, i, t.line))];
        continue;
      }
      if path !in declared {
        notes := notes + [Diagnostic(WriteUndeclared(t.id, path), LineAt(t.writeLines, i, t.line))];
      }
    }
  }

  method LintBody(t: TaskDraft, tasks: set<string>, obligations: set<string>, declared: set<string>)
    returns (notes: seq<Diagnostic>)
    ensures notes == BodyNotes(t, tasks, obligations, declared)
  {
    var deps := LintDependencies(t, tasks);
    var refs := LintReferences(t, obligations);
    var bad := LintWrites(t, declared);
    notes := deps + refs + bad;
  }

  method LintStructuredAuthoring(b: Brief, writes: seq<string>) returns (notes: seq<Diagnostic>)
    ensures notes == AllNotes(b, writes)
  {
    var obligationNotes, obligationIDs := LintObligations(b);
    var taskNotes, taskIDs := LintTasks(b.tasks);
    var declared := DeclaredWrites(writes);
    var bodies: seq<Diagnostic> := [];
    for i := 0 to |b.tasks|
      invariant BodiesNotes(b.tasks, taskIDs.Keys, obligationIDs.Keys, declared)
             == bodies + BodiesNotes(b.tasks[i..], taskIDs.Keys, obligationIDs.Keys, declared)
    {
      assert b.tasks[i..][1..] == b.tasks[i + 1..];
      var more := LintBody(b.tasks[i], taskIDs.Keys, obligationIDs.Keys, declared);
      Regroup(bodies, more, BodiesNotes(b.tasks[i + 1..], taskIDs.Keys, obligationIDs.Keys, declared));
      bodies := bodies + more;
    }
    notes := obligationNotes + taskNotes + bodies;
  }

  // ----- fail-fast -----

  method ValidateObligations(b: Brief) returns (problem: Option<Diagnostic>, ids: map<string, int>)
    ensures problem == First(ObligationNotes(b, 0, map[]))
    ensures problem.None? ==> ids == KnownObligations(b, 0, map[])
  {
    ids := map[];
    for i := 0 to |b.obligations|
      invariant ObligationNotes(b, 0, map[]) == ObligationNotes(b, i, ids)
      invariant KnownObligations(b, 0, map[]) == KnownObligations(b, i, ids)
    {
      var line := LineAt(b.obligationLines, i, 0);
      var id := b.obligations[i].id;
      var bad := Validation.ValidatePublicID(id, "obligation id");
      if bad.Some? {
        return Some(Diagnostic(ObligationIDInvalid(bad.value), line)), ids;
      }
      if id in ids {
        return Some(Diagnostic(ObligationIDDuplicate(id, ids[id]), line)), ids;
      }
      ids := ids[id := line];
    }
    problem := None;
  }

  method ValidateTasks(tasks: seq<TaskDraft>) returns (problem: Option<Diagnostic>, ids: map<string, int>)
    ensures problem == First(TaskNotes(tasks, map[]))
    ensures problem.None? ==> ids == KnownTasks(tasks, map[])
  {
    ids := map[];
    for i := 0 to |tasks|
      invariant TaskNotes(tasks, map[]) == TaskNotes(tasks[i..], ids)
      invariant KnownTasks(tasks, map[]) == KnownTasks(tasks[i..], ids)
    {
      var task := tasks[i];
      assert tasks[i..][1..] == tasks[i + 1..];
      var bad := Validation.ValidatePublicID(task.id, "task id");
      if bad.Some? {
        return Some(Diagnostic(TaskIDInvalid(bad.value), task.line)), ids;
      }
      if task.id in ids {
        return Some(Diagnostic(TaskIDDuplicate(task.id, ids[task.id]), task.line)), ids;
      }
      ids := ids[task.id := task.line];
    }
    problem := None;
  }

  method ValidateBody(t: TaskDraft, tasks: set<string>, obligations: set<string>, declared: set<string>)
    returns (problem: Option<Diagnostic>)
    ensures problem == First(BodyNotes(t, tasks, obligations, declared))
  {
    for i := 0 to |t.dependsOn|
      invariant DependencyNotes(t, 0, tasks) == DependencyNotes(t, i, tasks)
    {
      if t.dependsOn[i] !in tasks {
        return Some(Diagnostic(DependencyUnknown(t.id, t.dependsOn[i]), LineAt(t.dependsOnLines, i, t.line)));
      }
    }
    for i := 0 to |t.obligations|
      invariant ReferenceNotes(t, 0, obligations) == ReferenceNotes(t, i, obligations)
    {
      if t.obligations[i] !in obligations {
        return Some(Diagnostic(ObligationUnknown(t.id, t.obligations[i]), LineAt(t.obligationLines, i, t.line)));
      }
    }
    for i := 0 to |t.writes|
      invariant WriteNotes(t, 0, declared) == WriteNotes(t, i, declared)
    {
      var path := Normalized(t.writes[i]);
      var invalid := Paths.ValidateRelativePath(path, "side effect resource");
      if invalid.Some? {
        return Some(Diagnostic(WriteInvalid(invalid.value), LineAt(t.writeLines, i, t.line)));
      }
      if path !in declared {
        return Some(Diagnostic(WriteUndeclared(t.id, path), LineAt(t.writeLines, i, t.line)));
      }
    }
    problem := None;
  }

  method ValidateStructuredAuthoring(b: Brief, writes: seq<string>) returns (problem: Option<Diagnostic>)
    ensures problem == First(AllNotes(b, writes))
  {
    var obligationIDs, taskIDs;
    problem, obligationIDs := ValidateObligations(b);
    if problem.Some? {
      return;
    }
    problem, taskIDs := ValidateTasks(b.tasks);
    if problem.Some? {
      return;
    }
    var declared := DeclaredWrites(writes);
    for i := 0 to |b.tasks|
      invariant BodiesNotes(b.tasks, taskIDs.Keys, obligationIDs.Keys, declared)
             == BodiesNotes(b.tasks[i..], taskIDs.Keys, obligationIDs.Keys, declared)
    {
      assert b.tasks[i..][1..] == b.tasks[i + 1..];
      problem := ValidateBody(b.tasks[i], taskIDs.Keys, obligationIDs.Keys, declared);
      if problem.Some? {
        return;
      }
    }
    problem := None;
  }

  // ----- what a clean brief is -----

  ghost predicate DistinctObligationIDs(b: Brief) {
    forall i, j :: 0 <= i < j < |b.obligations| ==> b.obligations[i].id != b.obligations[j].id
  }

  ghost predicate DistinctTaskIDs(b: Brief) {
    forall i, j :: 0 <= i < j < |b.tasks| ==> b.tasks[i].id != b.tasks[j].id
  }

  predicate WriteClean(w: string, declared: set<string>) {
    Paths.ValidateRelativePath(Normalized(w), "side effect resource").None? && Normalized(w) in declared
  }

  predicate ObligationIDValid(id: string) {
    Validation.ValidatePublicID(id, "obligation id").None?
  }

  predicate TaskIDValid(id: string) {
    Validation.ValidatePublicID(id, "task id").None?
  }

  ghost predicate BodyClean(t: TaskDraft, tasks: set<string>, obligations: set<string>, declared: set<string>) {
    && (forall d :: d in t.dependsOn ==> d in tasks)
    && (forall o :: o in t.obligations ==> o in obligations)
    && WritesClean(t.writes, declared)
  }

  function DraftIDs(tasks: seq<TaskDraft>): set<string> {
    set t | t in tasks :: t.id
  }

  function ObligationIDs(b: Brief): set<string> {
    set o | o in b.obligations :: o.id
  }

  ghost predicate ObligationIDsValid(b: Brief) {
    forall o :: o in b.obligations ==> ObligationIDValid(o.id)
  }

  ghost predicate TaskIDsValid(b: Brief) {
    forall t :: t in b.tasks ==> TaskIDValid(t.id)
  }

  ghost predicate BodiesClean(drafts: seq<TaskDraft>, tasks: set<string>, obligations: set<string>, declared: set<string>) {
    forall t :: t in drafts ==> BodyClean(t, tasks, obligations, declared)
  }

  /** Valid distinct IDs, and every reference and write declared. */
  ghost predicate WellAuthored(b: Brief, writes: seq<string>) {
    && DistinctObligationIDs(b) && DistinctTaskIDs(b) && ObligationIDsValid(b) && TaskIDsValid(b)
    && BodiesClean(b.tasks, DraftIDs(b.tasks), ObligationIDs(b), DeclaredWrites(writes))
  }

  /** From obligation i on: valid IDs, new ones, no two alike. */
  ghost predicate FreshObligations(b: Brief, i: nat, seen: set<string>) {
    && (forall k :: i <= k < |b.obligations| ==> ObligationIDValid(b.obligations[k].id) && b.obligations[k].id !in seen)
    && (forall k, m :: i <= k < m < |b.obligations| ==> b.obligations[k].id != b.obligations[m].id)
  }

  function ObligationIDsFrom(b: Brief, i: nat): set<string> {
    set k | i <= k < |b.obligations| :: b.obligations[k].id
  }

  lemma {:induction false} FreshObligationsStep(b: Brief, i: nat, seen: set<string>)
    requires i < |b.obligations|
    ensures var id := b.obligations[i].id;
            FreshObligations(b, i, seen) <==> ObligationIDValid(id) && id !in seen && FreshObligations(b, i + 1, seen + {id})
    ensures ObligationIDsFrom(b, i) == {b.obligations[i].id} + ObligationIDsFrom(b, i + 1)
  {
  }

  lemma {:induction false} ObligationsCleanExactly(b: Brief, i: nat, seen: map<string, int>)
    requires i <= |b.obligations|
    ensures ObligationNotes(b, i, seen) == [] <==> FreshObligations(b, i, seen.Keys)
    ensures ObligationNotes(b, i, seen) == [] ==> KnownObligations(b, i, seen).Keys == seen.Keys + ObligationIDsFrom(b, i)
    decreases |b.obligations| - i
  {
    if i < |b.obligations| {
      var id := b.obligations[i].id;
      FreshObligationsStep(b, i, seen.Keys);
      assert ObligationNote(b, i, seen).None? <==> ObligationIDValid(id) && id !in seen;
      if ObligationNote(b, i, seen).None? {
        ObligationsCleanExactly(b, i + 1, SeeObligation(b, i, seen));
        assert SeeObligation(b, i, seen).Keys == seen.Keys + {id};
      }
    }
  }

  ghost predicate FreshTasks(tasks: seq<TaskDraft>, seen: set<string>) {
    && (forall k :: 0 <= k < |tasks| ==> TaskIDValid(tasks[k].id) && tasks[k].id !in seen)
    && (forall k, m :: 0 <= k < m < |tasks| ==> tasks[k].id != tasks[m].id)
  }

  lemma {:induction false} FreshTasksStep(tasks: seq<TaskDraft>, seen: set<string>)
    requires tasks != []
    ensures var id := tasks[0].id;
            FreshTasks(tasks, seen) <==> TaskIDValid(id) && id !in seen && FreshTasks(tasks[1..], seen + {id})
    ensures DraftIDs(tasks) == {tasks[0].id} + DraftIDs(tasks[1..])
  {
    var rest := tasks[1..];
    assert tasks == [tasks[0]] + rest;
    assert forall k :: 0 <= k < |rest| ==> rest[k] == tasks[k + 1];
    if FreshTasks(rest, seen + {tasks[0].id}) && TaskIDValid(tasks[0].id) && tasks[0].id !in seen {
      forall k, m | 0 <= k < m < |tasks| ensures tasks[k].id != tasks[m].id {
        assert tasks[m] == rest[m - 1];
        assert k > 0 ==> tasks[k] == rest[k - 1];
      }
    }
  }

  lemma {:induction false} TasksCleanExactly(tasks: seq<TaskDraft>, seen: map<string, int>)
    ensures TaskNotes(tasks, seen) == [] <==> FreshTasks(tasks, seen.Keys)
    ensures TaskNotes(tasks, seen) == [] ==> KnownTasks(tasks, seen).Keys == seen.Keys + DraftIDs(tasks)
  {
    if tasks != [] {
      var t := tasks[0];
      FreshTasksStep(tasks, seen.Keys);
      assert TaskNote(t, seen).None? <==> TaskIDValid(t.id) && t.id !in seen;
      if TaskNote(t, seen).None? {
        TasksCleanExactly(tasks[1..], SeeTask(t, seen));
        assert SeeTask(t, seen).Keys == seen.Keys + {t.id};
      }
    }
  }

  lemma {:induction false} DependenciesClean(t: TaskDraft, i: nat, tasks: set<string>)
    requires i <= |t.dependsOn|
    ensures DependencyNotes(t, i, tasks) == [] <==> forall k :: i <= k < |t.dependsOn| ==> t.dependsOn[k] in tasks
    decreases |t.dependsOn| - i
  {
    if i < |t.dependsOn| {
      DependenciesClean(t, i + 1, tasks);
    }
  }

  lemma {:induction false} ReferencesClean(t: TaskDraft, i: nat, obligations: set<string>)
    requires i <= |t.obligations|
    ensures ReferenceNotes(t, i, obligations) == [] <==> forall k :: i <= k < |t.obligations| ==> t.obligations[k] in obligations
    decreases |t.obligations| - i
  {
    if i < |t.obligations| {
      ReferencesClean(t, i + 1, obligations);
    }
  }

  ghost predicate WritesClean(writes: seq<string>, declared: set<string>) {
    forall w :: w in writes ==> WriteClean(w, declared)
  }

  lemma {:induction false} WriteNoteExactly(t: TaskDraft, i: nat, declared: set<string>)
    requires i < |t.writes|
    ensures WriteNote(t, i, declared).None? <==> WriteClean(t.writes[i], declared)
  {
  }

  lemma {:induction false} WritesStep(writes: seq<string>, i: nat, declared: set<string>)
    requires i < |writes|
    ensures WritesClean(writes[i..], declared) <==> WriteClean(writes[i], declared) && WritesClean(writes[i + 1..], declared)
  {
    assert writes[i..] == [writes[i]] + writes[i + 1..];
  }

  lemma {:induction false} WritesCleanExactly(t: TaskDraft, i: nat, declared: set<string>)
    requires i <= |t.writes|
    ensures WriteNotes(t, i, declared) == [] <==> WritesClean(t.writes[i..], declared)
    decreases |t.writes| - i
  {
    if i < |t.writes| {
      WriteNoteExactly(t, i, declared);
      WritesStep(t.writes, i, declared);
      WritesCleanExactly(t, i + 1, declared);
    }
  }

  lemma {:induction false} BodyCleanExactly(t: TaskDraft, tasks: set<string>, obligations: set<string>, declared: set<string>)
    ensures BodyNotes(t, tasks, obligations, declared) == [] <==> BodyClean(t, tasks, obligations, declared)
  {
    DependenciesClean(t, 0, tasks);
    ReferencesClean(t, 0, obligations);
    WritesCleanExactly(t, 0, declared);
    assert t.writes[0..] == t.writes;
  }

  lemma {:induction false} BodiesCleanExactly(drafts: seq<TaskDraft>, tasks: set<string>, obligations: set<string>, declared: set<string>)
    ensures BodiesNotes(drafts, tasks, obligations, declared) == [] <==> BodiesClean(drafts, tasks, obligations, declared)
  {
    if drafts != [] {
      BodyCleanExactly(drafts[0], tasks, obligations, declared);
      BodiesCleanExactly(drafts[1..], tasks, obligations, declared);
      BodiesStep(drafts, tasks, obligations, declared);
    }
  }

  lemma {:induction false} BodiesStep(drafts: seq<TaskDraft>, tasks: set<string>, obligations: set<string>, declared: set<string>)
    requires drafts != []
    ensures BodiesClean(drafts, tasks, obligations, declared) <==>
            BodyClean(drafts[0], tasks, obligations, declared) && BodiesClean(drafts[1..], tasks, obligations, declared)
  {
    assert drafts == [drafts[0]] + drafts[1..];
  }

  lemma {:induction false} KnownWhenClean(b: Brief)
    ensures ObligationNotes(b, 0, map[]) == [] <==> DistinctObligationIDs(b) && ObligationIDsValid(b)
    ensures ObligationNotes(b, 0, map[]) == [] ==> KnownObligations(b, 0, map[]).Keys == ObligationIDs(b)
    ensures TaskNotes(b.tasks, map[]) == [] <==> DistinctTaskIDs(b) && TaskIDsValid(b)
    ensures TaskNotes(b.tasks, map[]) == [] ==> KnownTasks(b.tasks, map[]).Keys == DraftIDs(b.tasks)
  {
    var none: map<string, int> := map[];
    assert none.Keys == {};
    ObligationsCleanExactly(b, 0, none);
    TasksCleanExactly(b.tasks, none);
    FreshExactly(b);
    assert {} + ObligationIDs(b) == ObligationIDs(b) && {} + DraftIDs(b.tasks) == DraftIDs(b.tasks);
  }

  lemma {:induction false} FreshExactly(b: Brief)
    ensures FreshObligations(b, 0, {}) <==> DistinctObligationIDs(b) && ObligationIDsValid(b)
    ensures FreshTasks(b.tasks, {}) <==> DistinctTaskIDs(b) && TaskIDsValid(b)
    ensures ObligationIDsFrom(b, 0) == ObligationIDs(b)
  {
  }

  lemma {:induction false} EmptyParts(a: seq<Diagnostic>, b: seq<Diagnostic>, c: seq<Diagnostic>)
    ensures a + b + c == [] <==> a == [] && b == [] && c == []
  {
    assert |a + b + c| == |a| + |b| + |c|;
  }

  /** Linting finds nothing, and validation passes, exactly for a well-authored brief. */
  lemma {:induction false} NoNotesExactly(b: Brief, writes: seq<string>)
    ensures AllNotes(b, writes) == [] <==> WellAuthored(b, writes)
    ensures First(AllNotes(b, writes)).None? <==> WellAuthored(b, writes)
  {
    var tasks, obligations := KnownTasks(b.tasks, map[]).Keys, KnownObligations(b, 0, map[]).Keys;
    KnownWhenClean(b);
    BodiesCleanExactly(b.tasks, tasks, obligations, DeclaredWrites(writes));
    EmptyParts(ObligationNotes(b, 0, map[]), TaskNotes(b.tasks, map[]),
               BodiesNotes(b.tasks, tasks, obligations, DeclaredWrites(writes)));
  }
}
