/** The diagnostics of a brief by what is wrong with it: each one is real and on its line, and each fault has one. */
module AuthoringFaults {
  import opened Text
  import opened Contracts
  import opened Authoring
  import ContractFaults
  import ValidContract
  import Paths
  import PathWalk
  import Validation

  // ----- identifiers -----

  /** Position j repeats the good ID that stands at i for the first time. */
  ghost predicate RepeatsFirst(ids: seq<string>, i: nat, j: nat, id: string) {
    && i < j < |ids| && ids[i] == id && ids[j] == id && ValidContract.GoodID(id)
    && forall k :: 0 <= k < i ==> ids[k] != id
  }

  function ObligationIDList(b: Brief): seq<string> {
    seq(|b.obligations|, i requires 0 <= i < |b.obligations| => b.obligations[i].id)
  }

  function TaskIDList(tasks: seq<TaskDraft>): seq<string> {
    seq(|tasks|, i requires 0 <= i < |tasks| => tasks[i].id)
  }

  function ObligationLine(b: Brief, i: nat): int {
    LineAt(b.obligationLines, i, 0)
  }

  /** Each good ID before position n is remembered with the line of its first occurrence, and nothing else is. */
  ghost predicate Remembers(seen: map<string, int>, ids: seq<string>, line: nat -> int, n: nat) {
    && n <= |ids|
    && (forall id :: id in seen <==> ValidContract.GoodID(id) && id in ids[..n])
    && forall i: nat :: i < n && ValidContract.GoodID(ids[i]) && ids[i] !in ids[..i] ==> ids[i] in seen && seen[ids[i]] == line(i)
  }

  lemma {:induction false} FirstOccurrence(ids: seq<string>, n: nat, id: string) returns (i: nat)
    requires n <= |ids| && id in ids[..n]
    ensures i < n && ids[i] == id && forall k :: 0 <= k < i ==> ids[k] != id
    ensures id !in ids[..i]
  {
    i := 0;
    while ids[i] != id
      invariant i < n && forall k :: 0 <= k < i ==> ids[k] != id
      invariant id in ids[..n]
      decreases n - i
    {
      if i + 1 == n {
        var k :| 0 <= k < n && ids[..n][k] == id;
        assert ids[k] == id;
      }
      i := i + 1;
    }
    assert forall k :: 0 <= k < |ids[..i]| ==> ids[..i][k] == ids[k];
  }

  lemma {:induction false} RememberNext(seen: map<string, int>, ids: seq<string>, line: nat -> int, n: nat)
    requires Remembers(seen, ids, line, n) && n < |ids|
    ensures Remembers(if ValidContract.GoodID(ids[n]) && ids[n] !in seen then seen[ids[n] := line(n)] else seen, ids, line, n + 1)
  {
    hide ValidContract.GoodID;
    assert ids[..n + 1] == ids[..n] + [ids[n]];
    assert forall i :: 0 <= i < n ==> ids[..n][i] == ids[i];
    var next := if ValidContract.GoodID(ids[n]) && ids[n] !in seen then seen[ids[n] := line(n)] else seen;
    forall i: nat | i < n + 1 && ValidContract.GoodID(ids[i]) && ids[i] !in ids[..i] ensures ids[i] in next && next[ids[i]] == line(i) {
      assert i < n ==> ids[i] in ids[..n];
    }
  }

  /** A repeated ID is reported with the line that is remembered for it. */
  lemma {:induction false} RepeatIsRemembered(seen: map<string, int>, ids: seq<string>, line: nat -> int, n: nat, id: string, first: int)
    requires Remembers(seen, ids, line, n) && n < |ids| && ids[n] == id
    ensures id in seen && seen[id] == first <==> exists i: nat :: RepeatsFirst(ids, i, n, id) && line(i) == first
  {
    hide ValidContract.GoodID;
    if id in seen {
      var i := FirstOccurrence(ids, n, id);
      assert RepeatsFirst(ids, i, n, id) && seen[id] == line(i);
      forall k: nat | RepeatsFirst(ids, k, n, id) ensures k == i {
      }
    }
    if i: nat :| RepeatsFirst(ids, i, n, id) && line(i) == first {
      assert ids[..n][i] == id;
      assert forall k :: 0 <= k < |ids[..i]| ==> ids[..i][k] == ids[k];
    }
  }

  // ----- obligations -----

  ghost predicate ObligationFaultAt(d: Diagnostic, b: Brief, k: nat) {
    && k < |b.obligations| && d.line == ObligationLine(b, k)
    && match d.problem
       case ObligationIDInvalid(cause) => ContractFaults.IDFault(cause, b.obligations[k].id, "obligation id")
       case ObligationIDDuplicate(id, first) =>
         exists i: nat :: RepeatsFirst(ObligationIDList(b), i, k, id) && ObligationLine(b, i) == first
       case _ => false
  }

  lemma {:induction false} ObligationNoteExactly(d: Diagnostic, b: Brief, k: nat, seen: map<string, int>)
    requires k < |b.obligations| && Remembers(seen, ObligationIDList(b), (i: nat) => ObligationLine(b, i), k)
    ensures d in AsList(ObligationNote(b, k, seen)) <==> ObligationFaultAt(d, b, k)
    ensures Remembers(SeeObligation(b, k, seen), ObligationIDList(b), (i: nat) => ObligationLine(b, i), k + 1)
  {
    var ids, line := ObligationIDList(b), (i: nat) => ObligationLine(b, i);
    var id := b.obligations[k].id;
    ValidContract.PublicIDExactly(id, "obligation id");
    if d.problem.ObligationIDInvalid? {
      ContractFaults.IDFaultExactly(d.problem.cause, id, "obligation id");
    }
    RememberNext(seen, ids, line, k);
    if d.problem.ObligationIDDuplicate? && d.problem.id == id {
      RepeatIsRemembered(seen, ids, line, k, id, d.problem.firstLine);
    }
    hide ContractFaults.IDFault, ValidContract.GoodID, Validation.ValidatePublicID, Remembers;
    SeenIsGood(seen, ids, line, k);
  }

  lemma {:induction false} SeenIsGood(seen: map<string, int>, ids: seq<string>, line: nat -> int, n: nat)
    requires Remembers(seen, ids, line, n)
    ensures forall id :: id in seen ==> ValidContract.GoodID(id)
  {
  }

  lemma {:induction false} ObligationNotesExactly(d: Diagnostic, b: Brief, k: nat, seen: map<string, int>)
    requires k <= |b.obligations| && Remembers(seen, ObligationIDList(b), (i: nat) => ObligationLine(b, i), k)
    ensures d in ObligationNotes(b, k, seen) <==> exists m: nat :: k <= m && ObligationFaultAt(d, b, m)
    ensures Remembers(KnownObligations(b, k, seen), ObligationIDList(b), (i: nat) => ObligationLine(b, i), |b.obligations|)
    decreases |b.obligations| - k
  {
    if k < |b.obligations| {
      ObligationNoteExactly(d, b, k, seen);
      hide ObligationNote, SeeObligation, ObligationFaultAt, Remembers;
      ObligationNotesExactly(d, b, k + 1, SeeObligation(b, k, seen));
    }
  }

  // ----- task IDs -----

  ghost predicate TaskFaultAt(d: Diagnostic, tasks: seq<TaskDraft>, k: nat) {
    && k < |tasks| && d.line == tasks[k].line
    && match d.problem
       case TaskIDInvalid(cause) => ContractFaults.IDFault(cause, tasks[k].id, "task id")
       case TaskIDDuplicate(id, first) =>
         exists i: nat :: RepeatsFirst(TaskIDList(tasks), i, k, id) && TaskLine(tasks, i) == first
       case _ => false
  }

  function TaskLine(tasks: seq<TaskDraft>, i: nat): int {
    if i < |tasks| then tasks[i].line else 0
  }

  lemma {:induction false} TaskNoteExactly(d: Diagnostic, tasks: seq<TaskDraft>, k: nat, seen: map<string, int>)
    requires k < |tasks| && Remembers(seen, TaskIDList(tasks), (i: nat) => TaskLine(tasks, i), k)
    ensures d in AsList(TaskNote(tasks[k], seen)) <==> TaskFaultAt(d, tasks, k)
    ensures Remembers(SeeTask(tasks[k], seen), TaskIDList(tasks), (i: nat) => TaskLine(tasks, i), k + 1)
  {
    var ids, line := TaskIDList(tasks), (i: nat) => TaskLine(tasks, i);
    var id := tasks[k].id;
    ValidContract.PublicIDExactly(id, "task id");
    if d.problem.TaskIDInvalid? {
      ContractFaults.IDFaultExactly(d.problem.cause, id, "task id");
    }
    RememberNext(seen, ids, line, k);
    if d.problem.TaskIDDuplicate? && d.problem.id == id {
      RepeatIsRemembered(seen, ids, line, k, id, d.problem.firstLine);
    }
    hide ContractFaults.IDFault, ValidContract.GoodID, Validation.ValidatePublicID, Remembers;
    SeenIsGood(seen, ids, line, k);
  }

  lemma {:induction false} TaskNotesExactly(d: Diagnostic, tasks: seq<TaskDraft>, k: nat, seen: map<string, int>)
    requires k <= |tasks| && Remembers(seen, TaskIDList(tasks), (i: nat) => TaskLine(tasks, i), k)
    ensures d in TaskNotes(tasks[k..], seen) <==> exists m: nat :: k <= m && TaskFaultAt(d, tasks, m)
    ensures Remembers(Authoring.KnownTasks(tasks[k..], seen), TaskIDList(tasks), (i: nat) => TaskLine(tasks, i), |tasks|)
    decreases |tasks| - k
  {
    if k < |tasks| {
      TaskNoteExactly(d, tasks, k, seen);
      assert tasks[k..][0] == tasks[k] && tasks[k..][1..] == tasks[k + 1..];
      hide TaskNote, SeeTask, TaskFaultAt, Remembers;
      TaskNotesExactly(d, tasks, k + 1, SeeTask(tasks[k], seen));
    }
  }

  // ----- references and writes -----

  ghost predicate ReferenceFaultAt(d: Diagnostic, t: TaskDraft, i: nat, tasks: set<string>, obligations: set<string>) {
    || (i < |t.dependsOn| && t.dependsOn[i] !in tasks
        && d == Diagnostic(DependencyUnknown(t.id, t.dependsOn[i]), LineAt(t.dependsOnLines, i, t.line)))
    || (i < |t.obligations| && t.obligations[i] !in obligations
        && d == Diagnostic(ObligationUnknown(t.id, t.obligations[i]), LineAt(t.obligationLines, i, t.line)))
  }

  /** The write's path is blank or leads out, or it is not declared. */
  ghost predicate WriteFaultAt(d: Diagnostic, t: TaskDraft, i: nat, writes: seq<string>) {
    && i < |t.writes| && d.line == LineAt(t.writeLines, i, t.line)
    && var path := Paths.SlashClean(t.writes[i]);
       var blank, out := TrimSpace(path) == "", PathWalk.LeadsOut(path);
       match d.problem
       case WriteInvalid(reason) =>
         (blank && reason == Paths.PathRequired("side effect resource"))
         || (!blank && out && reason == Paths.PathEscapes("side effect resource", path))
       case WriteUndeclared(task, p) => !blank && !out && task == t.id && p == path && path !in writes
       case _ => false
  }

  lemma {:induction false} DependencyNotesExactly(d: Diagnostic, t: TaskDraft, i: nat, tasks: set<string>)
    requires i <= |t.dependsOn|
    ensures d in DependencyNotes(t, i, tasks) <==>
              exists k: nat :: i <= k < |t.dependsOn| && t.dependsOn[k] !in tasks
                && d == Diagnostic(DependencyUnknown(t.id, t.dependsOn[k]), LineAt(t.dependsOnLines, k, t.line))
    decreases |t.dependsOn| - i
  {
    hide LineAt;
    if i < |t.dependsOn| {
      DependencyNotesExactly(d, t, i + 1, tasks);
    }
  }

  lemma {:induction false} ReferenceNotesExactly(d: Diagnostic, t: TaskDraft, i: nat, obligations: set<string>)
    requires i <= |t.obligations|
    ensures d in ReferenceNotes(t, i, obligations) <==>
              exists k: nat :: i <= k < |t.obligations| && t.obligations[k] !in obligations
                && d == Diagnostic(ObligationUnknown(t.id, t.obligations[k]), LineAt(t.obligationLines, k, t.line))
    decreases |t.obligations| - i
  {
    hide LineAt;
    if i < |t.obligations| {
      ReferenceNotesExactly(d, t, i + 1, obligations);
    }
  }

  lemma {:induction false} WriteNoteIs(d: Diagnostic, t: TaskDraft, i: nat, writes: seq<string>)
    requires i < |t.writes|
    ensures d in AsList(WriteNote(t, i, DeclaredWrites(writes))) <==> WriteFaultAt(d, t, i, writes)
  {
    PathWalk.VerdictsExactly("", Paths.SlashClean(t.writes[i]), "side effect resource");
    assert Normalized(t.writes[i]) == Paths.SlashClean(t.writes[i]);
    hide Paths.ValidateRelativePath, PathWalk.LeadsOut, Paths.SlashClean, TrimSpace;
  }

  lemma {:induction false} WriteNotesExactly(d: Diagnostic, t: TaskDraft, i: nat, writes: seq<string>)
    requires i <= |t.writes|
    ensures d in WriteNotes(t, i, DeclaredWrites(writes)) <==> exists k: nat :: i <= k && WriteFaultAt(d, t, k, writes)
    decreases |t.writes| - i
  {
    if i < |t.writes| {
      WriteNoteIs(d, t, i, writes);
      hide WriteNote, WriteFaultAt;
      WriteNotesExactly(d, t, i + 1, writes);
    }
  }

  ghost predicate BodyFault(d: Diagnostic, t: TaskDraft, tasks: set<string>, obligations: set<string>, writes: seq<string>) {
    exists i: nat :: ReferenceFaultAt(d, t, i, tasks, obligations) || WriteFaultAt(d, t, i, writes)
  }

  lemma {:induction false} BodyNotesExactly(
    d: Diagnostic, t: TaskDraft, tasks: set<string>, obligations: set<string>, writes: seq<string>)
    ensures d in BodyNotes(t, tasks, obligations, DeclaredWrites(writes)) <==> BodyFault(d, t, tasks, obligations, writes)
  {
    DependencyNotesExactly(d, t, 0, tasks);
    ReferenceNotesExactly(d, t, 0, obligations);
    WriteNotesExactly(d, t, 0, writes);
    hide WriteFaultAt, DependencyNotes, ReferenceNotes, WriteNotes, LineAt;
    if k: nat :| k < |t.dependsOn| && t.dependsOn[k] !in tasks
                 && d == Diagnostic(DependencyUnknown(t.id, t.dependsOn[k]), LineAt(t.dependsOnLines, k, t.line)) {
      assert ReferenceFaultAt(d, t, k, tasks, obligations);
    }
    if k: nat :| k < |t.obligations| && t.obligations[k] !in obligations
                 && d == Diagnostic(ObligationUnknown(t.id, t.obligations[k]), LineAt(t.obligationLines, k, t.line)) {
      assert ReferenceFaultAt(d, t, k, tasks, obligations);
    }
  }

  lemma {:induction false} BodiesNotesExactly(
    d: Diagnostic, drafts: seq<TaskDraft>, tasks: set<string>, obligations: set<string>, writes: seq<string>)
    ensures d in BodiesNotes(drafts, tasks, obligations, DeclaredWrites(writes)) <==>
            exists t :: t in drafts && BodyFault(d, t, tasks, obligations, writes)
  {
    hide BodyFault, BodyNotes, DeclaredWrites;
    if drafts != [] {
      BodyNotesExactly(d, drafts[0], tasks, obligations, writes);
      BodiesNotesExactly(d, drafts[1..], tasks, obligations, writes);
      assert forall x :: x in drafts <==> x == drafts[0] || x in drafts[1..];
    }
  }

  // ----- the whole brief -----

  /** The IDs that can be referred to. */
  function GoodIDs(ids: seq<string>): set<string> {
    set id | id in ids && ValidContract.GoodID(id)
  }

  ghost predicate Fault(d: Diagnostic, b: Brief, writes: seq<string>) {
    || (exists k: nat :: ObligationFaultAt(d, b, k)) || (exists k: nat :: TaskFaultAt(d, b.tasks, k))
    || exists t :: t in b.tasks
         && BodyFault(d, t, GoodIDs(TaskIDList(b.tasks)), GoodIDs(ObligationIDList(b)), writes)
  }

  lemma {:induction false} RemembersNone(ids: seq<string>, line: nat -> int)
    ensures Remembers(map[], ids, line, 0)
  {
    assert ids[..0] == [];
  }

  lemma {:induction false} RemembersAll(seen: map<string, int>, ids: seq<string>, line: nat -> int)
    requires Remembers(seen, ids, line, |ids|)
    ensures seen.Keys == GoodIDs(ids)
  {
    hide ValidContract.GoodID;
    assert ids[..|ids|] == ids;
  }

  /** Linting a brief reports exactly its faults, each on its line; so validation passes exactly when there is none, and
      otherwise reports one. */
  lemma {:induction false} NotesExactly(d: Diagnostic, b: Brief, writes: seq<string>)
    ensures d in AllNotes(b, writes) <==> Fault(d, b, writes)
    ensures First(AllNotes(b, writes)) == Some(d) ==> Fault(d, b, writes)
  {
    var ids, line := ObligationIDList(b), (i: nat) => ObligationLine(b, i);
    var taskIDs, taskLine := TaskIDList(b.tasks), (i: nat) => TaskLine(b.tasks, i);
    RemembersNone(ids, line);
    RemembersNone(taskIDs, taskLine);
    ObligationNotesExactly(d, b, 0, map[]);
    assert b.tasks[0..] == b.tasks;
    TaskNotesExactly(d, b.tasks, 0, map[]);
    RemembersAll(KnownObligations(b, 0, map[]), ids, line);
    RemembersAll(Authoring.KnownTasks(b.tasks, map[]), taskIDs, taskLine);
    BodiesNotesExactly(d, b.tasks, GoodIDs(taskIDs), GoodIDs(ids), writes);
    hide ObligationFaultAt, TaskFaultAt, BodyFault, ObligationNotes, TaskNotes, BodiesNotes, GoodIDs, Remembers,
      KnownObligations, Authoring.KnownTasks, DeclaredWrites;
  }
}
