/** The diagnostics of a brief as a listing: exactly its faults, each at the place of the check that finds it. */
module BriefListing {
  import opened Text
  import opened Authoring
  import opened AuthoringFaults
  import opened Listings

  type Faults = Findings<Diagnostic>

  lemma {:induction false} NoteListed(note: Option<Diagnostic>, found: Faults) returns (places: seq<Place>)
    requires forall p, d :: found(p, d) <==> p == [] && d in AsList(note)
    ensures Lists(AsList(note), places, found)
  {
    places := ListsOne(AsList(note), found);
  }

  // ----- identifiers -----

  ghost function ObligationFaults(b: Brief): Faults {
    (p: Place, d: Diagnostic) => |p| == 1 && ObligationFaultAt(d, b, p[0])
  }

  lemma {:induction false} ObligationsListed(b: Brief, k: nat, seen: map<string, int>) returns (places: seq<Place>)
    requires k <= |b.obligations| && Remembers(seen, ObligationIDList(b), (i: nat) => ObligationLine(b, i), k)
    ensures Lists(ObligationNotes(b, k, seen), places, From(ObligationFaults(b), k))
    decreases |b.obligations| - k
  {
    var found := ObligationFaults(b);
    if k == |b.obligations| {
      places := [];
      NoObligationBeyond(b);
      hide ObligationFaultAt;
      ListsNone(From(found, k));
    } else {
      forall d ensures d in AsList(ObligationNote(b, k, seen)) <==> ObligationFaultAt(d, b, k) {
        ObligationNoteExactly(d, b, k, seen);
      }
      ObligationNoteExactly(Diagnostic(ObligationIDDuplicate("", 0), 0), b, k, seen);
      hide ObligationFaultAt, Remembers, ObligationNote, SeeObligation, Lists;
      var here := NoteListed(ObligationNote(b, k, seen), At(found, k));
      var next := SeeObligation(b, k, seen);
      var rest := ObligationsListed(b, k + 1, next);
      places := ListsCons(AsList(ObligationNote(b, k, seen)), here, ObligationNotes(b, k + 1, next), rest, found, k);
    }
  }

  lemma {:induction false} NoObligationBeyond(b: Brief)
    ensures forall k: nat, d :: ObligationFaultAt(d, b, k) ==> k < |b.obligations|
  {
  }

  ghost function TaskFaults(tasks: seq<TaskDraft>): Faults {
    (p: Place, d: Diagnostic) => |p| == 1 && TaskFaultAt(d, tasks, p[0])
  }

  lemma {:induction false} TasksListed(tasks: seq<TaskDraft>, k: nat, seen: map<string, int>) returns (places: seq<Place>)
    requires k <= |tasks| && Remembers(seen, TaskIDList(tasks), (i: nat) => TaskLine(tasks, i), k)
    ensures Lists(TaskNotes(tasks[k..], seen), places, From(TaskFaults(tasks), k))
    decreases |tasks| - k
  {
    var found := TaskFaults(tasks);
    if k == |tasks| {
      places := [];
      NoTaskBeyond(tasks);
      hide TaskFaultAt;
      ListsNone(From(found, k));
    } else {
      forall d ensures d in AsList(TaskNote(tasks[k], seen)) <==> TaskFaultAt(d, tasks, k) {
        TaskNoteExactly(d, tasks, k, seen);
      }
      TaskNoteExactly(Diagnostic(ObligationIDDuplicate("", 0), 0), tasks, k, seen);
      assert tasks[k..][0] == tasks[k] && tasks[k..][1..] == tasks[k + 1..];
      hide TaskFaultAt, Remembers, TaskNote, SeeTask, Lists;
      var here := NoteListed(TaskNote(tasks[k], seen), At(found, k));
      var next := SeeTask(tasks[k], seen);
      var rest := TasksListed(tasks, k + 1, next);
      places := ListsCons(AsList(TaskNote(tasks[k], seen)), here, TaskNotes(tasks[k + 1..], next), rest, found, k);
    }
  }

  lemma {:induction false} NoTaskBeyond(tasks: seq<TaskDraft>)
    ensures forall k: nat, d :: TaskFaultAt(d, tasks, k) ==> k < |tasks|
  {
  }

  // ----- what a task refers to and writes -----

  ghost function DependencyFaults(t: TaskDraft, tasks: set<string>): Faults {
    (p: Place, d: Diagnostic) =>
      |p| == 1 && p[0] < |t.dependsOn| && t.dependsOn[p[0]] !in tasks
      && d == Diagnostic(DependencyUnknown(t.id, t.dependsOn[p[0]]), LineAt(t.dependsOnLines, p[0], t.line))
  }

  lemma {:induction false} DependenciesListed(t: TaskDraft, i: nat, tasks: set<string>) returns (places: seq<Place>)
    requires i <= |t.dependsOn|
    ensures Lists(DependencyNotes(t, i, tasks), places, From(DependencyFaults(t, tasks), i))
    decreases |t.dependsOn| - i
  {
    var found := DependencyFaults(t, tasks);
    hide LineAt, Lists;
    if i == |t.dependsOn| {
      places := [];
      ListsNone(From(found, i));
    } else {
      var here := NoteListed(DependencyNote(t, i, tasks), At(found, i));
      var rest := DependenciesListed(t, i + 1, tasks);
      places := ListsCons(AsList(DependencyNote(t, i, tasks)), here, DependencyNotes(t, i + 1, tasks), rest, found, i);
    }
  }

  ghost function ReferenceFaults(t: TaskDraft, obligations: set<string>): Faults {
    (p: Place, d: Diagnostic) =>
      |p| == 1 && p[0] < |t.obligations| && t.obligations[p[0]] !in obligations
      && d == Diagnostic(ObligationUnknown(t.id, t.obligations[p[0]]), LineAt(t.obligationLines, p[0], t.line))
  }

  lemma {:induction false} ReferencesListed(t: TaskDraft, i: nat, obligations: set<string>) returns (places: seq<Place>)
    requires i <= |t.obligations|
    ensures Lists(ReferenceNotes(t, i, obligations), places, From(ReferenceFaults(t, obligations), i))
    decreases |t.obligations| - i
  {
    var found := ReferenceFaults(t, obligations);
    hide LineAt, Lists;
    if i == |t.obligations| {
      places := [];
      ListsNone(From(found, i));
    } else {
      var here := NoteListed(ReferenceNote(t, i, obligations), At(found, i));
      var rest := ReferencesListed(t, i + 1, obligations);
      places := ListsCons(AsList(ReferenceNote(t, i, obligations)), here, ReferenceNotes(t, i + 1, obligations), rest, found, i);
    }
  }

  ghost function WriteFaults(t: TaskDraft, writes: seq<string>): Faults {
    (p: Place, d: Diagnostic) => |p| == 1 && WriteFaultAt(d, t, p[0], writes)
  }

  lemma {:induction false} WritesListed(t: TaskDraft, i: nat, writes: seq<string>) returns (places: seq<Place>)
    requires i <= |t.writes|
    ensures Lists(WriteNotes(t, i, DeclaredWrites(writes)), places, From(WriteFaults(t, writes), i))
    decreases |t.writes| - i
  {
    var found, declared := WriteFaults(t, writes), DeclaredWrites(writes);
    if i == |t.writes| {
      places := [];
      NoWriteBeyond(t, writes);
      hide WriteFaultAt;
      ListsNone(From(found, i));
    } else {
      forall d ensures d in AsList(WriteNote(t, i, declared)) <==> WriteFaultAt(d, t, i, writes) {
        WriteNoteIs(d, t, i, writes);
      }
      hide WriteFaultAt, WriteNote, DeclaredWrites, Lists;
      var here := NoteListed(WriteNote(t, i, declared), At(found, i));
      var rest := WritesListed(t, i + 1, writes);
      places := ListsCons(AsList(WriteNote(t, i, declared)), here, WriteNotes(t, i + 1, declared), rest, found, i);
    }
  }

  lemma {:induction false} NoWriteBeyond(t: TaskDraft, writes: seq<string>)
    ensures forall k: nat, d :: WriteFaultAt(d, t, k, writes) ==> k < |t.writes|
  {
  }

  /** The three lists of a task: dependencies, obligations and writes. */
  ghost predicate BodyAt(p: Place, d: Diagnostic, t: TaskDraft, tasks: set<string>, obligations: set<string>, writes: seq<string>) {
    p != [] &&
    if p[0] == 0 then DependencyFaults(t, tasks)(p[1..], d)
    else if p[0] == 1 then ReferenceFaults(t, obligations)(p[1..], d)
    else p[0] == 2 && WriteFaults(t, writes)(p[1..], d)
  }

  ghost function BodyFaults(t: TaskDraft, tasks: set<string>, obligations: set<string>, writes: seq<string>): Faults {
    (p: Place, d: Diagnostic) => BodyAt(p, d, t, tasks, obligations, writes)
  }

  lemma {:induction false} BodyIs(
    p: Place, d: Diagnostic, t: TaskDraft, tasks: set<string>, obligations: set<string>, writes: seq<string>)
    ensures var found := BodyFaults(t, tasks, obligations, writes);
            && (At(found, 0)(p, d) <==> From(DependencyFaults(t, tasks), 0)(p, d))
            && (At(found, 1)(p, d) <==> From(ReferenceFaults(t, obligations), 0)(p, d))
            && (At(found, 2)(p, d) <==> From(WriteFaults(t, writes), 0)(p, d))
            && !Below(found, 0)(p, d) && (Below(found, 3)(p, d) <==> found(p, d))
  {
    hide LineAt, WriteFaultAt;
  }

  lemma {:induction false} BodyListed(t: TaskDraft, tasks: set<string>, obligations: set<string>, writes: seq<string>)
    returns (places: seq<Place>)
    ensures Lists(BodyNotes(t, tasks, obligations, DeclaredWrites(writes)), places, BodyFaults(t, tasks, obligations, writes))
  {
    var found := BodyFaults(t, tasks, obligations, writes);
    var one, two, three := DependencyNotes(t, 0, tasks), ReferenceNotes(t, 0, obligations), WriteNotes(t, 0, DeclaredWrites(writes));
    assert BodyNotes(t, tasks, obligations, DeclaredWrites(writes)) == one + two + three;
    assert [] + one == one;
    hide *;
    forall p, d
      ensures At(found, 0)(p, d) <==> From(DependencyFaults(t, tasks), 0)(p, d)
      ensures At(found, 1)(p, d) <==> From(ReferenceFaults(t, obligations), 0)(p, d)
      ensures At(found, 2)(p, d) <==> From(WriteFaults(t, writes), 0)(p, d)
      ensures !Below(found, 0)(p, d) && (Below(found, 3)(p, d) <==> found(p, d))
    {
      BodyIs(p, d, t, tasks, obligations, writes);
    }
    ListsNone(Below(found, 0));
    var part := DependenciesListed(t, 0, tasks);
    ListsSame(one, part, From(DependencyFaults(t, tasks), 0), At(found, 0));
    places := ListsSnoc([], [], one, part, found, 0);
    part := ReferencesListed(t, 0, obligations);
    ListsSame(two, part, From(ReferenceFaults(t, obligations), 0), At(found, 1));
    places := ListsSnoc(one, places, two, part, found, 1);
    part := WritesListed(t, 0, writes);
    ListsSame(three, part, From(WriteFaults(t, writes), 0), At(found, 2));
    places := ListsSnoc(one + two, places, three, part, found, 2);
    ListsSame(one + two + three, places, Below(found, 3), found);
  }

  ghost function BodiesFaults(drafts: seq<TaskDraft>, tasks: set<string>, obligations: set<string>, writes: seq<string>): Faults {
    (p: Place, d: Diagnostic) => p != [] && p[0] < |drafts| && BodyAt(p[1..], d, drafts[p[0]], tasks, obligations, writes)
  }

  lemma {:induction false} BodiesListed(
    drafts: seq<TaskDraft>, i: nat, tasks: set<string>, obligations: set<string>, writes: seq<string>)
    returns (places: seq<Place>)
    requires i <= |drafts|
    ensures Lists(BodiesNotes(drafts[i..], tasks, obligations, DeclaredWrites(writes)), places,
                  From(BodiesFaults(drafts, tasks, obligations, writes), i))
    decreases |drafts| - i
  {
    var found := BodiesFaults(drafts, tasks, obligations, writes);
    hide BodyAt, Lists, BodyNotes, DeclaredWrites;
    if i == |drafts| {
      places := [];
      ListsNone(From(found, i));
    } else {
      var t := drafts[i];
      var here := BodyListed(t, tasks, obligations, writes);
      ListsSame(BodyNotes(t, tasks, obligations, DeclaredWrites(writes)), here, BodyFaults(t, tasks, obligations, writes), At(found, i));
      var rest := BodiesListed(drafts, i + 1, tasks, obligations, writes);
      assert drafts[i..][0] == t && drafts[i..][1..] == drafts[i + 1..];
      places := ListsCons(BodyNotes(t, tasks, obligations, DeclaredWrites(writes)), here,
                          BodiesNotes(drafts[i + 1..], tasks, obligations, DeclaredWrites(writes)), rest, found, i);
    }
  }

  // ----- the whole brief -----

  /** Obligation IDs, then task IDs, then what the tasks refer to and write. */
  ghost predicate FaultAt(p: Place, d: Diagnostic, b: Brief, writes: seq<string>) {
    p != [] &&
    if p[0] == 0 then ObligationFaults(b)(p[1..], d)
    else if p[0] == 1 then TaskFaults(b.tasks)(p[1..], d)
    else
      p[0] == 2
      && BodiesFaults(b.tasks, GoodIDs(TaskIDList(b.tasks)), GoodIDs(ObligationIDList(b)), writes)(p[1..], d)
  }

  ghost function BriefFaults(b: Brief, writes: seq<string>): Faults {
    (p: Place, d: Diagnostic) => FaultAt(p, d, b, writes)
  }

  lemma {:induction false} PartIs(p: Place, d: Diagnostic, b: Brief, writes: seq<string>)
    ensures var found := BriefFaults(b, writes);
            && (At(found, 0)(p, d) <==> From(ObligationFaults(b), 0)(p, d))
            && (At(found, 1)(p, d) <==> From(TaskFaults(b.tasks), 0)(p, d))
            && (At(found, 2)(p, d) <==>
                  From(BodiesFaults(b.tasks, GoodIDs(TaskIDList(b.tasks)), GoodIDs(ObligationIDList(b)), writes), 0)(p, d))
            && !Below(found, 0)(p, d) && (Below(found, 3)(p, d) <==> found(p, d))
  {
    hide ObligationFaultAt, TaskFaultAt, BodyAt, GoodIDs;
  }

  lemma {:induction false} KnownIDs(b: Brief)
    ensures KnownObligations(b, 0, map[]).Keys == GoodIDs(ObligationIDList(b))
    ensures Authoring.KnownTasks(b.tasks, map[]).Keys == GoodIDs(TaskIDList(b.tasks))
    ensures Remembers(map[], ObligationIDList(b), (i: nat) => ObligationLine(b, i), 0)
    ensures Remembers(map[], TaskIDList(b.tasks), (i: nat) => TaskLine(b.tasks, i), 0)
  {
    var ids, line := ObligationIDList(b), (i: nat) => ObligationLine(b, i);
    var taskIDs, taskLine := TaskIDList(b.tasks), (i: nat) => TaskLine(b.tasks, i);
    var any := Diagnostic(ObligationIDDuplicate("", 0), 0);
    RemembersNone(ids, line);
    RemembersNone(taskIDs, taskLine);
    ObligationNotesExactly(any, b, 0, map[]);
    assert b.tasks[0..] == b.tasks;
    TaskNotesExactly(any, b.tasks, 0, map[]);
    RemembersAll(KnownObligations(b, 0, map[]), ids, line);
    RemembersAll(Authoring.KnownTasks(b.tasks, map[]), taskIDs, taskLine);
  }

  /** The diagnostics of a brief are exactly its faults, each with its line, listed in the order of their places. */
  lemma {:induction false} NotesListed(b: Brief, writes: seq<string>) returns (places: seq<Place>)
    ensures Lists(AllNotes(b, writes), places, BriefFaults(b, writes))
  {
    KnownIDs(b);
    var found, tasks, obligations := BriefFaults(b, writes), GoodIDs(TaskIDList(b.tasks)), GoodIDs(ObligationIDList(b));
    var one, two := ObligationNotes(b, 0, map[]), TaskNotes(b.tasks, map[]);
    var three := BodiesNotes(b.tasks, tasks, obligations, DeclaredWrites(writes));
    assert AllNotes(b, writes) == one + two + three && [] + one == one && b.tasks[0..] == b.tasks;
    hide *;
    forall p, d
      ensures At(found, 0)(p, d) <==> From(ObligationFaults(b), 0)(p, d)
      ensures At(found, 1)(p, d) <==> From(TaskFaults(b.tasks), 0)(p, d)
      ensures At(found, 2)(p, d) <==> From(BodiesFaults(b.tasks, tasks, obligations, writes), 0)(p, d)
      ensures !Below(found, 0)(p, d) && (Below(found, 3)(p, d) <==> found(p, d))
    {
      PartIs(p, d, b, writes);
    }
    ListsNone(Below(found, 0));
    var part := ObligationsListed(b, 0, map[]);
    ListsSame(one, part, From(ObligationFaults(b), 0), At(found, 0));
    places := ListsSnoc([], [], one, part, found, 0);
    part := TasksListed(b.tasks, 0, map[]);
    ListsSame(two, part, From(TaskFaults(b.tasks), 0), At(found, 1));
    places := ListsSnoc(one, places, two, part, found, 1);
    part := BodiesListed(b.tasks, 0, tasks, obligations, writes);
    ListsSame(three, part, From(BodiesFaults(b.tasks, tasks, obligations, writes), 0), At(found, 2));
    places := ListsSnoc(one + two, places, three, part, found, 2);
    ListsSame(one + two + three, places, Below(found, 3), found);
  }

  /** So the validator reports the fault at the earliest place, and nothing exactly when there is none. */
  lemma {:induction false} FirstNote(b: Brief, writes: seq<string>) returns (p: Place)
    ensures First(AllNotes(b, writes)).None? <==> forall q, d :: !FaultAt(q, d, b, writes)
    ensures First(AllNotes(b, writes)).Some? ==>
              && FaultAt(p, First(AllNotes(b, writes)).value, b, writes)
              && forall q, d :: FaultAt(q, d, b, writes) ==>
                   (q == p && d == First(AllNotes(b, writes)).value) || Earlier(p, q)
  {
    var places := NotesListed(b, writes);
    var list, found := AllNotes(b, writes), BriefFaults(b, writes);
    hide FaultAt, AllNotes, Earlier;
    FirstIsEarliest(list, places, found);
    assert forall q, d :: found(q, d) <==> FaultAt(q, d, b, writes);
    p := if list == [] then [] else places[0];
  }
}
