/** The problems of a contract as a listing: exactly its faults, each at the place of the check that finds it. */
module ContractListing {
  import opened Text
  import opened Contracts
  import opened Cycles
  import opened Validation
  import opened ValidContract
  import opened ContractFaults
  import opened Listings
  import Lint

  type Faults = Findings<Problem>

  lemma {:induction false} WhenListed(condition: bool, y: Problem, found: Faults) returns (places: seq<Place>)
    requires forall p, x :: found(p, x) <==> p == [] && condition && x == y
    ensures Lists(When(condition, y), places, found)
  {
    places := ListsOne(When(condition, y), found);
  }

  lemma {:induction false} NothingBelow(found: Faults, n: nat)
    requires forall p, x :: found(p, x) ==> p != [] && p[0] >= n
    ensures Lists([], [], Below(found, n))
  {
    ListsNone(Below(found, n));
  }

  // ----- paths -----

  ghost function PathFaults(raw: string, what: string): Faults {
    (p: Place, x: Problem) => p == [] && PathFault(x, raw, what)
  }

  lemma {:induction false} PathListed(raw: string, what: string) returns (places: seq<Place>)
    ensures Lists(PathList(raw, what), places, PathFaults(raw, what))
  {
    forall x ensures x in PathList(raw, what) <==> PathFault(x, raw, what) {
      PathFaultExactly(x, raw, what);
    }
    assert |PathList(raw, what)| <= 1;
    hide PathList, PathFault;
    places := ListsOne(PathList(raw, what), PathFaults(raw, what));
  }

  ghost function PathsFaults(raws: seq<string>, what: string): Faults {
    (p: Place, x: Problem) => |p| == 1 && p[0] < |raws| && PathFault(x, raws[p[0]], what)
  }

  lemma {:induction false} PathsListed(raws: seq<string>, what: string, i: nat) returns (places: seq<Place>)
    requires i <= |raws|
    ensures Lists(PathsList(raws[i..], what), places, From(PathsFaults(raws, what), i))
    decreases |raws| - i
  {
    var found := PathsFaults(raws, what);
    if i == |raws| {
      places := [];
      ListsNone(From(found, i));
    } else {
      var here := PathListed(raws[i], what);
      hide PathFault, PathList, Lists;
      ListsSame(PathList(raws[i], what), here, PathFaults(raws[i], what), At(found, i));
      var rest := PathsListed(raws, what, i + 1);
      places := ListsCons(PathList(raws[i], what), here, PathsList(raws[i + 1..], what), rest, found, i);
      assert raws[i..][0] == raws[i] && raws[i..][1..] == raws[i + 1..];
    }
  }

  lemma {:induction false} AllPathsListed(raws: seq<string>, what: string, found: Faults) returns (places: seq<Place>)
    requires forall p, x :: found(p, x) <==> PathsFaults(raws, what)(p, x)
    ensures Lists(PathsList(raws, what), places, found)
  {
    places := PathsListed(raws, what, 0);
    hide PathFault, PathsList, Lists;
    assert raws[0..] == raws;
    ListsSame(PathsList(raws, what), places, From(PathsFaults(raws, what), 0), found);
  }

  // ----- the header -----

  ghost predicate HeaderAt(p: Place, x: Problem, c: Contract) {
    || (p == [0] && c.schemaVersion != "covenant.contract.v1" && x == UnsupportedSchemaVersion(c.schemaVersion))
    || (p == [1] && TrimSpace(c.objective) == "" && x == ObjectiveRequired)
    || (p == [2] && PathFault(x, c.root, "workspace root"))
    || (|p| == 2 && p[0] == 3 && p[1] < |c.readPaths| && PathFault(x, c.readPaths[p[1]], "read path"))
    || (|p| == 2 && p[0] == 4 && p[1] < |c.writePaths| && PathFault(x, c.writePaths[p[1]], "write path"))
  }

  ghost function HeaderFaults(c: Contract): Faults {
    (p: Place, x: Problem) => HeaderAt(p, x, c)
  }

  lemma {:induction false} HeaderListed(c: Contract) returns (places: seq<Place>)
    ensures Lists(HeaderList(c), places, Below(HeaderFaults(c), 5))
  {
    hide PathFault, PathList, PathsList, TrimSpace, Lists;
    var found := HeaderFaults(c);
    var version, objective := When(c.schemaVersion != CONTRACT_SCHEMA, UnsupportedSchemaVersion(c.schemaVersion)),
                              When(TrimSpace(c.objective) == "", ObjectiveRequired);
    assert CONTRACT_SCHEMA == "covenant.contract.v1";
    NothingBelow(found, 0);
    var one := WhenListed(c.schemaVersion != CONTRACT_SCHEMA, UnsupportedSchemaVersion(c.schemaVersion), At(found, 0));
    places := ListsSnoc([], [], version, one, found, 0);
    assert [] + version == version;
    one := WhenListed(TrimSpace(c.objective) == "", ObjectiveRequired, At(found, 1));
    places := ListsSnoc(version, places, objective, one, found, 1);
    one := PathListed(c.root, "workspace root");
    ListsSame(PathList(c.root, "workspace root"), one, PathFaults(c.root, "workspace root"), At(found, 2));
    places := ListsSnoc(version + objective, places, PathList(c.root, "workspace root"), one, found, 2);
    places := LastHeaderListed(c, version + objective + PathList(c.root, "workspace root"), places);
  }

  lemma {:induction false} LastHeaderListed(c: Contract, list: seq<Problem>, before: seq<Place>) returns (places: seq<Place>)
    requires Lists(list, before, Below(HeaderFaults(c), 3))
    ensures Lists(list + PathsList(c.readPaths, "read path") + PathsList(c.writePaths, "write path"), places,
                  Below(HeaderFaults(c), 5))
  {
    hide PathFault, PathsList, TrimSpace, Lists;
    var found := HeaderFaults(c);
    var one := AllPathsListed(c.readPaths, "read path", At(found, 3));
    places := ListsSnoc(list, before, PathsList(c.readPaths, "read path"), one, found, 3);
    one := AllPathsListed(c.writePaths, "write path", At(found, 4));
    places := ListsSnoc(list + PathsList(c.readPaths, "read path"), places, PathsList(c.writePaths, "write path"), one, found, 4);
  }

  // ----- obligations -----

  /** The ID is bad, or good and taken by an earlier obligation. */
  ghost predicate ObligationAt(x: Problem, obligations: seq<Obligation>, i: nat)
    requires i < |obligations|
  {
    var id := obligations[i].id;
    || IDFault(x, id, "obligation id")
    || (GoodID(id) && x == DuplicateObligation(id) && exists j :: 0 <= j < i && obligations[j].id == id)
  }

  ghost function ObligationFaults(obligations: seq<Obligation>): Faults {
    (p: Place, x: Problem) => |p| == 1 && p[0] < |obligations| && ObligationAt(x, obligations, p[0])
  }

  /** The good IDs among the first i. */
  function GoodAmong(ids: seq<string>, i: nat): set<string>
    requires i <= |ids|
  {
    set j | 0 <= j < i && GoodID(ids[j]) :: ids[j]
  }

  lemma {:induction false} GoodAmongStep(ids: seq<string>, i: nat)
    requires i < |ids|
    ensures GoodAmong(ids, i + 1) == GoodAmong(ids, i) + if GoodID(ids[i]) then {ids[i]} else {}
    ensures GoodID(ids[i]) ==> (ids[i] in GoodAmong(ids, i) <==> exists j :: 0 <= j < i && ids[j] == ids[i])
  {
    hide GoodID;
  }

  function ObligationHead(o: Obligation, seen: set<string>): seq<Problem> {
    match ValidatePublicID(o.id, "obligation id")
    case Some(p) => [p]
    case None => if o.id in seen then [DuplicateObligation(o.id)] else []
  }

  lemma {:induction false} ObligationHeadHas(x: Problem, obligations: seq<Obligation>, i: nat)
    requires i < |obligations|
    ensures x in ObligationHead(obligations[i], GoodAmong(ObligationIDList(obligations), i)) <==> ObligationAt(x, obligations, i)
  {
    var o, ids := obligations[i], ObligationIDList(obligations);
    IDFaultExactly(x, o.id, "obligation id");
    PublicIDExactly(o.id, "obligation id");
    GoodAmongStep(ids, i);
    hide ValidatePublicID, GoodID, IDFault, GoodAmong;
    assert forall j :: 0 <= j <= i ==> ids[j] == obligations[j].id;
  }

  lemma {:induction false} ObligationHeadListed(obligations: seq<Obligation>, i: nat) returns (places: seq<Place>)
    requires i < |obligations|
    ensures Lists(ObligationHead(obligations[i], GoodAmong(ObligationIDList(obligations), i)), places,
                  At(ObligationFaults(obligations), i))
  {
    var list := ObligationHead(obligations[i], GoodAmong(ObligationIDList(obligations), i));
    hide ValidatePublicID, ObligationAt, GoodAmong;
    forall x ensures x in list <==> ObligationAt(x, obligations, i) {
      ObligationHeadHas(x, obligations, i);
    }
    places := ListsOne(list, At(ObligationFaults(obligations), i));
  }

  lemma {:induction false} ObligationsListed(obligations: seq<Obligation>, i: nat) returns (places: seq<Place>)
    requires i <= |obligations|
    ensures Lists(ObligationList(obligations[i..], GoodAmong(ObligationIDList(obligations), i)), places,
                  From(ObligationFaults(obligations), i))
    decreases |obligations| - i
  {
    var found, ids := ObligationFaults(obligations), ObligationIDList(obligations);
    if i == |obligations| {
      places := [];
      ListsNone(From(found, i));
    } else {
      var o, seen := obligations[i], GoodAmong(ids, i);
      var here := ObligationHeadListed(obligations, i);
      var rest := ObligationsListed(obligations, i + 1);
      ObligationListStep(obligations, i);
      hide *;
      places := ListsCons(ObligationHead(o, seen), here, ObligationList(obligations[i + 1..], GoodAmong(ids, i + 1)), rest, found, i);
    }
  }

  lemma {:induction false} ObligationListUnfolds(list: seq<Obligation>, seen: set<string>)
    requires list != []
    ensures ObligationList(list, seen) ==
            ObligationHead(list[0], seen) + ObligationList(list[1..], if GoodID(list[0].id) then seen + {list[0].id} else seen)
  {
    PublicIDExactly(list[0].id, "obligation id");
    hide ValidatePublicID, GoodID;
    assert list[0].id in seen ==> seen + {list[0].id} == seen;
    assert forall rest: seq<Problem> :: [] + rest == rest;
  }

  lemma {:induction false} ObligationListStep(obligations: seq<Obligation>, i: nat)
    requires i < |obligations|
    ensures var ids := ObligationIDList(obligations);
            ObligationList(obligations[i..], GoodAmong(ids, i)) ==
            ObligationHead(obligations[i], GoodAmong(ids, i)) + ObligationList(obligations[i + 1..], GoodAmong(ids, i + 1))
  {
    var ids := ObligationIDList(obligations);
    hide ValidatePublicID, GoodID, GoodAmong, ObligationList, ObligationHead;
    ObligationListUnfolds(obligations[i..], GoodAmong(ids, i));
    GoodAmongStep(ids, i);
    assert obligations[i..][0] == obligations[i] && obligations[i..][1..] == obligations[i + 1..];
    assert GoodAmong(ids, i) + {} == GoodAmong(ids, i);
  }

  // ----- tasks -----

  ghost predicate EffectAt(p: Place, x: Problem, t: Task, a: ActionRef) {
    || (p == [0] && a.effectType !in EFFECT_TYPES && x == UnsupportedEffect(a.effectType, t.id))
    || (p == [1] && PathFault(x, a.resource, "side effect resource"))
  }

  ghost function EffectFaults(t: Task): Faults {
    (p: Place, x: Problem) => p != [] && p[0] < |t.effects| && EffectAt(p[1..], x, t, t.effects[p[0]])
  }

  function EffectNotes(t: Task, a: ActionRef): seq<Problem> {
    When(a.effectType !in EFFECT_TYPES, UnsupportedEffect(a.effectType, t.id)) + PathList(a.resource, "side effect resource")
  }

  lemma {:induction false} EffectListed(t: Task, i: nat) returns (places: seq<Place>)
    requires i < |t.effects|
    ensures Lists(EffectNotes(t, t.effects[i]), places, At(EffectFaults(t), i))
  {
    hide PathFault, PathList, Lists, EFFECT_TYPES;
    var a, found := t.effects[i], At(EffectFaults(t), i);
    var kind := When(a.effectType !in EFFECT_TYPES, UnsupportedEffect(a.effectType, t.id));
    NothingBelow(found, 0);
    var one := WhenListed(a.effectType !in EFFECT_TYPES, UnsupportedEffect(a.effectType, t.id), At(found, 0));
    places := ListsSnoc([], [], kind, one, found, 0);
    assert [] + kind == kind;
    one := PathListed(a.resource, "side effect resource");
    ListsSame(PathList(a.resource, "side effect resource"), one, PathFaults(a.resource, "side effect resource"), At(found, 1));
    places := ListsSnoc(kind, places, PathList(a.resource, "side effect resource"), one, found, 1);
    ListsSame(EffectNotes(t, a), places, Below(found, 2), found);
  }

  lemma {:induction false} EffectsListed(t: Task, i: nat) returns (places: seq<Place>)
    requires i <= |t.effects|
    ensures Lists(EffectList(t, i), places, From(EffectFaults(t), i))
    decreases |t.effects| - i
  {
    if i == |t.effects| {
      places := [];
      ListsNone(From(EffectFaults(t), i));
    } else {
      var here := EffectListed(t, i);
      var rest := EffectsListed(t, i + 1);
      hide PathList, Lists, EFFECT_TYPES, When, EffectFaults;
      places := ListsCons(EffectNotes(t, t.effects[i]), here, EffectList(t, i + 1), rest, EffectFaults(t), i);
    }
  }

  ghost function UnknownFaults(t: Task, known: set<string>): Faults {
    (p: Place, x: Problem) =>
      |p| == 1 && p[0] < |t.obligations| && t.obligations[p[0]] !in known && x == UnknownObligation(t.id, t.obligations[p[0]])
  }

  lemma {:induction false} UnknownListed(t: Task, known: set<string>, i: nat) returns (places: seq<Place>)
    requires i <= |t.obligations|
    ensures Lists(UnknownObligations(t, i, known), places, From(UnknownFaults(t, known), i))
    decreases |t.obligations| - i
  {
    var found := UnknownFaults(t, known);
    if i == |t.obligations| {
      places := [];
      ListsNone(From(found, i));
    } else {
      var id := t.obligations[i];
      var here := WhenListed(id !in known, UnknownObligation(t.id, id), At(found, i));
      var rest := UnknownListed(t, known, i + 1);
      hide Lists;
      places := ListsCons(When(id !in known, UnknownObligation(t.id, id)), here, UnknownObligations(t, i + 1, known), rest, found, i);
    }
  }

  /** What is wrong with a task that is taken, after its ID. */
  ghost predicate OwnAt(p: Place, x: Problem, t: Task, known: set<string>, schemaOk: Task -> bool) {
    || (p == [1] && t.kind !in TASK_KINDS && x == UnsupportedKind(t.kind, t.id))
    || (p == [2] && TrimSpace(t.adapter) == "" && x == AdapterRequired(t.id))
    || (p == [3] && t.timeoutSecs <= 0 && x == TimeoutNotPositive(t.id))
    || (p != [] && p[0] == 4 && UnknownFaults(t, known)(p[1..], x))
    || (p != [] && p[0] == 5 && EffectFaults(t)(p[1..], x))
    || (p == [6] && !schemaOk(t) && x == TaskSchemaInvalid(t.id))
  }

  ghost function OwnFaults(t: Task, known: set<string>, schemaOk: Task -> bool): Faults {
    (p: Place, x: Problem) => OwnAt(p, x, t, known, schemaOk)
  }

  function FieldNotes(t: Task): seq<Problem> {
    When(t.kind !in TASK_KINDS, UnsupportedKind(t.kind, t.id))
    + When(TrimSpace(t.adapter) == "", AdapterRequired(t.id))
    + When(t.timeoutSecs <= 0, TimeoutNotPositive(t.id))
  }

  function SchemaNotes(t: Task, schemaOk: Task -> bool): seq<Problem> {
    When(!schemaOk(t), TaskSchemaInvalid(t.id))
  }

  lemma {:induction false} FirstOwnListed(t: Task, known: set<string>, schemaOk: Task -> bool) returns (places: seq<Place>)
    ensures Lists(FieldNotes(t), places, Below(OwnFaults(t, known, schemaOk), 4))
  {
    hide UnknownFaults, EffectFaults, TrimSpace, Lists, TASK_KINDS;
    var found := OwnFaults(t, known, schemaOk);
    var kind, adapter := When(t.kind !in TASK_KINDS, UnsupportedKind(t.kind, t.id)),
                         When(TrimSpace(t.adapter) == "", AdapterRequired(t.id));
    NothingBelow(found, 1);
    var one := WhenListed(t.kind !in TASK_KINDS, UnsupportedKind(t.kind, t.id), At(found, 1));
    places := ListsSnoc([], [], kind, one, found, 1);
    assert [] + kind == kind;
    one := WhenListed(TrimSpace(t.adapter) == "", AdapterRequired(t.id), At(found, 2));
    places := ListsSnoc(kind, places, adapter, one, found, 2);
    one := WhenListed(t.timeoutSecs <= 0, TimeoutNotPositive(t.id), At(found, 3));
    places := ListsSnoc(kind + adapter, places, When(t.timeoutSecs <= 0, TimeoutNotPositive(t.id)), one, found, 3);
  }

  lemma {:induction false} ReferencesListed(
    t: Task, known: set<string>, schemaOk: Task -> bool, list: seq<Problem>, before: seq<Place>)
    returns (places: seq<Place>)
    requires Lists(list, before, Below(OwnFaults(t, known, schemaOk), 4))
    ensures Lists(list + UnknownObligations(t, 0, known), places, Below(OwnFaults(t, known, schemaOk), 5))
  {
    var found := OwnFaults(t, known, schemaOk);
    var one := UnknownListed(t, known, 0);
    hide TrimSpace, Lists, TASK_KINDS, EffectFaults;
    ListsSame(UnknownObligations(t, 0, known), one, From(UnknownFaults(t, known), 0), At(found, 4));
    hide *;
    places := ListsSnoc(list, before, UnknownObligations(t, 0, known), one, found, 4);
  }

  lemma {:induction false} DeclaredListed(
    t: Task, known: set<string>, schemaOk: Task -> bool, list: seq<Problem>, before: seq<Place>)
    returns (places: seq<Place>)
    requires Lists(list, before, Below(OwnFaults(t, known, schemaOk), 5))
    ensures Lists(list + EffectList(t, 0), places, Below(OwnFaults(t, known, schemaOk), 6))
  {
    var found := OwnFaults(t, known, schemaOk);
    var one := EffectsListed(t, 0);
    hide TrimSpace, Lists, TASK_KINDS, UnknownFaults, EffectAt;
    ListsSame(EffectList(t, 0), one, From(EffectFaults(t), 0), At(found, 5));
    hide *;
    places := ListsSnoc(list, before, EffectList(t, 0), one, found, 5);
  }

  lemma {:induction false} SchemaListed(
    t: Task, known: set<string>, schemaOk: Task -> bool, list: seq<Problem>, before: seq<Place>)
    returns (places: seq<Place>)
    requires Lists(list, before, Below(OwnFaults(t, known, schemaOk), 6))
    ensures Lists(list + SchemaNotes(t, schemaOk), places, OwnFaults(t, known, schemaOk))
  {
    hide TrimSpace, Lists, TASK_KINDS, UnknownFaults, EffectFaults;
    var found, last := OwnFaults(t, known, schemaOk), SchemaNotes(t, schemaOk);
    var one := WhenListed(!schemaOk(t), TaskSchemaInvalid(t.id), At(found, 6));
    places := ListsSnoc(list, before, last, one, found, 6);
    ListsSame(list + last, places, Below(found, 7), found);
  }

  lemma {:induction false} OwnListed(t: Task, known: set<string>, schemaOk: Task -> bool) returns (places: seq<Place>)
    ensures Lists(CheckedList(t, known, schemaOk), places, OwnFaults(t, known, schemaOk))
  {
    hide TrimSpace, Lists, TASK_KINDS, When, OwnFaults, UnknownObligations, EffectList;
    places := FirstOwnListed(t, known, schemaOk);
    places := ReferencesListed(t, known, schemaOk, FieldNotes(t), places);
    places := DeclaredListed(t, known, schemaOk, FieldNotes(t) + UnknownObligations(t, 0, known), places);
    places := SchemaListed(t, known, schemaOk, OwnList(t, known), places);
  }

  /** The ID is bad, or good and taken by an earlier task; otherwise the task's own faults count. */
  ghost predicate TaskAt(p: Place, x: Problem, tasks: seq<Task>, i: nat, known: set<string>, schemaOk: Task -> bool)
    requires i < |tasks|
  {
    var id := tasks[i].id;
    || (p == [0] && IDFault(x, id, "task id"))
    || (p == [0] && GoodID(id) && x == DuplicateTask(id) && exists j :: 0 <= j < i && tasks[j].id == id)
    || (Taken(tasks, i, {}) && OwnAt(p, x, tasks[i], known, schemaOk))
  }

  ghost function TaskFaults(tasks: seq<Task>, known: set<string>, schemaOk: Task -> bool): Faults {
    (p: Place, x: Problem) => p != [] && p[0] < |tasks| && TaskAt(p[1..], x, tasks, p[0], known, schemaOk)
  }

  function TaskHead(t: Task, seen: set<string>, known: set<string>, schemaOk: Task -> bool): seq<Problem> {
    match ValidatePublicID(t.id, "task id")
    case Some(p) => [p]
    case None => if t.id in seen then [DuplicateTask(t.id)] else CheckedList(t, known, schemaOk)
  }

  lemma {:induction false} TakenByIDs(tasks: seq<Task>, i: nat)
    requires i < |tasks|
    ensures var ids := TaskIDList(tasks);
            && (Taken(tasks, i, {}) <==> GoodID(tasks[i].id) && tasks[i].id !in GoodAmong(ids, i))
            && (GoodID(tasks[i].id) ==> (tasks[i].id in GoodAmong(ids, i) <==> exists j :: 0 <= j < i && tasks[j].id == tasks[i].id))
  {
    var ids := TaskIDList(tasks);
    GoodAmongStep(ids, i);
    hide GoodID, GoodAmong;
    assert forall j :: 0 <= j <= i ==> ids[j] == tasks[j].id;
  }

  /** A task whose ID is bad or taken has that one problem. */
  lemma {:induction false} IDProblemListed(tasks: seq<Task>, i: nat, known: set<string>, schemaOk: Task -> bool, y: Problem)
    returns (places: seq<Place>)
    requires i < |tasks| && !Taken(tasks, i, {})
    requires forall x :: TaskAt([0], x, tasks, i, known, schemaOk) <==> x == y
    ensures Lists([y], places, At(TaskFaults(tasks, known, schemaOk), i))
  {
    hide IDFault, GoodID, OwnAt, Taken;
    var leaf: Faults := (p: Place, x: Problem) => p == [] && x == y;
    var one := ListsOne([y], leaf);
    var found := At(TaskFaults(tasks, known, schemaOk), i);
    assert forall p: Place, x :: found(p, x) <==> p == [0] && x == y;
    hide Lists, TaskFaults;
    assert forall p: Place :: p != [] && p[0] == 0 && p[1..] == [] <==> p == [0];
    ListsUnder([y], one, 0, leaf, found);
    places := Under(0, one);
  }

  lemma {:induction false} TaskHeadListed(tasks: seq<Task>, i: nat, known: set<string>, schemaOk: Task -> bool)
    returns (places: seq<Place>)
    requires i < |tasks|
    ensures Lists(TaskHead(tasks[i], GoodAmong(TaskIDList(tasks), i), known, schemaOk), places,
                  At(TaskFaults(tasks, known, schemaOk), i))
  {
    var t, seen := tasks[i], GoodAmong(TaskIDList(tasks), i);
    TakenByIDs(tasks, i);
    PublicIDExactly(t.id, "task id");
    forall x ensures ValidatePublicID(t.id, "task id") == Some(x) <==> IDFault(x, t.id, "task id") {
      IDFaultExactly(x, t.id, "task id");
    }
    hide IDFault, GoodID, Taken, GoodAmong, ValidatePublicID, OwnAt, CheckedList, Lists;
    if Taken(tasks, i, {}) {
      places := OwnListed(t, known, schemaOk);
      OwnHasNoID(t, known, schemaOk);
      ListsSame(CheckedList(t, known, schemaOk), places, OwnFaults(t, known, schemaOk), At(TaskFaults(tasks, known, schemaOk), i));
    } else if GoodID(t.id) {
      places := IDProblemListed(tasks, i, known, schemaOk, DuplicateTask(t.id));
    } else {
      places := IDProblemListed(tasks, i, known, schemaOk, ValidatePublicID(t.id, "task id").value);
    }
  }

  lemma {:induction false} OwnHasNoID(t: Task, known: set<string>, schemaOk: Task -> bool)
    ensures forall p: Place, x :: OwnAt(p, x, t, known, schemaOk) ==> p != [] && p[0] >= 1
  {
    hide UnknownFaults, EffectFaults;
  }

  lemma {:induction false} TaskListUnfolds(list: seq<Task>, seen: set<string>, known: set<string>, schemaOk: Task -> bool)
    requires list != []
    ensures TaskList(list, seen, known, schemaOk) ==
            TaskHead(list[0], seen, known, schemaOk)
            + TaskList(list[1..], if GoodID(list[0].id) then seen + {list[0].id} else seen, known, schemaOk)
  {
    PublicIDExactly(list[0].id, "task id");
    hide ValidatePublicID, GoodID, CheckedList;
    assert list[0].id in seen ==> seen + {list[0].id} == seen;
  }

  lemma {:induction false} TaskListStep(tasks: seq<Task>, i: nat, known: set<string>, schemaOk: Task -> bool)
    requires i < |tasks|
    ensures var ids := TaskIDList(tasks);
            TaskList(tasks[i..], GoodAmong(ids, i), known, schemaOk) ==
            TaskHead(tasks[i], GoodAmong(ids, i), known, schemaOk) + TaskList(tasks[i + 1..], GoodAmong(ids, i + 1), known, schemaOk)
  {
    var ids := TaskIDList(tasks);
    hide ValidatePublicID, GoodID, GoodAmong, TaskList, TaskHead;
    TaskListUnfolds(tasks[i..], GoodAmong(ids, i), known, schemaOk);
    GoodAmongStep(ids, i);
    assert tasks[i..][0] == tasks[i] && tasks[i..][1..] == tasks[i + 1..];
    assert GoodAmong(ids, i) + {} == GoodAmong(ids, i);
  }

  lemma {:induction false} TasksListed(tasks: seq<Task>, i: nat, known: set<string>, schemaOk: Task -> bool)
    returns (places: seq<Place>)
    requires i <= |tasks|
    ensures Lists(TaskList(tasks[i..], GoodAmong(TaskIDList(tasks), i), known, schemaOk), places,
                  From(TaskFaults(tasks, known, schemaOk), i))
    decreases |tasks| - i
  {
    var found, ids := TaskFaults(tasks, known, schemaOk), TaskIDList(tasks);
    if i == |tasks| {
      places := [];
      hide TaskAt;
      ListsNone(From(found, i));
    } else {
      var seen := GoodAmong(ids, i);
      var here := TaskHeadListed(tasks, i, known, schemaOk);
      var rest := TasksListed(tasks, i + 1, known, schemaOk);
      TaskListStep(tasks, i, known, schemaOk);
      hide *;
      places := ListsCons(TaskHead(tasks[i], seen, known, schemaOk), here,
                          TaskList(tasks[i + 1..], GoodAmong(ids, i + 1), known, schemaOk), rest, found, i);
    }
  }

  // ----- approval tickets -----

  /** What is wrong with the ticket at position i, by the number of the check. */
  ghost predicate TicketAt(r: nat, x: Problem, c: Contract, i: nat, parse: string -> Option<int>)
    requires i < |c.approvals|
  {
    var t := c.approvals[i];
    || (r == 0 && t.schemaVersion != "covenant.approval-ticket.v1" && x == UnsupportedTicketVersion(t.schemaVersion))
    || (r == 1 && IDFault(x, t.ticketID, "approval ticket id"))
    || (r == 2 && x == DuplicateTicket(t.ticketID) && exists j :: 0 <= j < i && c.approvals[j].ticketID == t.ticketID)
    || (r == 3 && t.taskID !in KnownTasks(c) && x == TicketUnknownTask(t.ticketID, t.taskID))
    || (r == 4 && t.effectType !in EFFECT_TYPES && x == TicketUnsupportedEffect(t.ticketID, t.effectType))
    || (r == 5 && PathFault(x, t.resource, "approval ticket resource"))
    || (r == 6 && TrimSpace(t.reason) == "" && x == TicketReasonRequired(t.ticketID))
    || (r == 7 && TrimSpace(t.expiresAt) != "" && parse(t.expiresAt).None? && x == TicketBadExpiry(t.ticketID))
    || (r == 8 && !TakenDeclares(c.tasks, EffectKey(t.taskID, t.effectType, t.resource)) && x == TicketUndeclaredEffect(t.ticketID))
  }

  ghost function OneTicketFaults(c: Contract, i: nat, parse: string -> Option<int>): Faults
    requires i < |c.approvals|
  {
    (p: Place, x: Problem) => |p| == 1 && TicketAt(p[0], x, c, i, parse)
  }

  ghost function TicketFaults(c: Contract, parse: string -> Option<int>): Faults {
    (p: Place, x: Problem) => |p| == 2 && p[0] < |c.approvals| && TicketAt(p[1], x, c, p[0], parse)
  }

  lemma {:induction false} IDListed(raw: string, what: string, found: Faults) returns (places: seq<Place>)
    requires forall p, x :: found(p, x) <==> p == [] && IDFault(x, raw, what)
    ensures Lists(AsList(ValidatePublicID(raw, what)), places, found)
  {
    var list := AsList(ValidatePublicID(raw, what));
    forall x ensures x in list <==> IDFault(x, raw, what) {
      IDFaultExactly(x, raw, what);
      hide IDFault, ValidatePublicID;
    }
    hide IDFault, ValidatePublicID;
    places := ListsOne(list, found);
  }

  lemma {:induction false} TicketIdentityListed(c: Contract, i: nat, parse: string -> Option<int>, seen: set<string>)
    returns (places: seq<Place>)
    requires i < |c.approvals|
    requires c.approvals[i].ticketID in seen <==> exists j :: 0 <= j < i && c.approvals[j].ticketID == c.approvals[i].ticketID
    ensures Lists(TicketIdentity(c.approvals[i], seen, KnownTasks(c)), places, Below(OneTicketFaults(c, i, parse), 5))
  {
    hide IDFault, PathFault, TakenDeclares, EffectKey, KnownTasks, TrimSpace, Lists, EFFECT_TYPES, ValidatePublicID, AsList;
    TicketSchemaIs();
    var t, found := c.approvals[i], OneTicketFaults(c, i, parse);
    var version := When(t.schemaVersion != TICKET_SCHEMA, UnsupportedTicketVersion(t.schemaVersion));
    var id := AsList(ValidatePublicID(t.ticketID, "approval ticket id"));
    var again := When(t.ticketID in seen, DuplicateTicket(t.ticketID));
    var task := When(t.taskID !in KnownTasks(c), TicketUnknownTask(t.ticketID, t.taskID));
    NothingBelow(found, 0);
    var one := WhenListed(t.schemaVersion != TICKET_SCHEMA, UnsupportedTicketVersion(t.schemaVersion), At(found, 0));
    places := ListsSnoc([], [], version, one, found, 0);
    assert [] + version == version;
    one := IDListed(t.ticketID, "approval ticket id", At(found, 1));
    places := ListsSnoc(version, places, id, one, found, 1);
    one := WhenListed(t.ticketID in seen, DuplicateTicket(t.ticketID), At(found, 2));
    places := ListsSnoc(version + id, places, again, one, found, 2);
    one := WhenListed(t.taskID !in KnownTasks(c), TicketUnknownTask(t.ticketID, t.taskID), At(found, 3));
    places := ListsSnoc(version + id + again, places, task, one, found, 3);
    one := WhenListed(t.effectType !in EFFECT_TYPES, TicketUnsupportedEffect(t.ticketID, t.effectType), At(found, 4));
    places := ListsSnoc(version + id + again + task, places,
                        When(t.effectType !in EFFECT_TYPES, TicketUnsupportedEffect(t.ticketID, t.effectType)), one, found, 4);
  }

  function TermNotes(t: ApprovalTicket): seq<Problem> {
    PathList(t.resource, "approval ticket resource") + When(TrimSpace(t.reason) == "", TicketReasonRequired(t.ticketID))
  }

  function EndNotes(t: ApprovalTicket, declared: set<string>, parse: string -> Option<int>): seq<Problem> {
    When(TrimSpace(t.expiresAt) != "" && parse(t.expiresAt).None?, TicketBadExpiry(t.ticketID))
    + When(EffectKey(t.taskID, t.effectType, t.resource) !in declared, TicketUndeclaredEffect(t.ticketID))
  }

  lemma {:induction false} TicketTermsListed(
    c: Contract, i: nat, parse: string -> Option<int>, list: seq<Problem>, before: seq<Place>)
    returns (places: seq<Place>)
    requires i < |c.approvals| && Lists(list, before, Below(OneTicketFaults(c, i, parse), 5))
    ensures Lists(list + TermNotes(c.approvals[i]), places, Below(OneTicketFaults(c, i, parse), 7))
  {
    hide IDFault, PathFault, PathList, TakenDeclares, EffectKey, KnownTasks, TrimSpace, Lists, EFFECT_TYPES;
    var t, found := c.approvals[i], OneTicketFaults(c, i, parse);
    var path := PathList(t.resource, "approval ticket resource");
    var one := PathListed(t.resource, "approval ticket resource");
    ListsSame(path, one, PathFaults(t.resource, "approval ticket resource"), At(found, 5));
    places := ListsSnoc(list, before, path, one, found, 5);
    one := WhenListed(TrimSpace(t.reason) == "", TicketReasonRequired(t.ticketID), At(found, 6));
    var reason := When(TrimSpace(t.reason) == "", TicketReasonRequired(t.ticketID));
    places := ListsSnoc(list + path, places, reason, one, found, 6);
    assert list + path + reason == list + TermNotes(t);
  }

  lemma {:induction false} TicketEndListed(
    c: Contract, i: nat, parse: string -> Option<int>, declared: set<string>, list: seq<Problem>, before: seq<Place>)
    returns (places: seq<Place>)
    requires i < |c.approvals| && Lists(list, before, Below(OneTicketFaults(c, i, parse), 7))
    requires forall key :: key in declared <==> TakenDeclares(c.tasks, key)
    ensures Lists(list + EndNotes(c.approvals[i], declared, parse), places, OneTicketFaults(c, i, parse))
  {
    hide IDFault, PathFault, TakenDeclares, EffectKey, KnownTasks, TrimSpace, Lists, EFFECT_TYPES;
    var t, found := c.approvals[i], OneTicketFaults(c, i, parse);
    var key := EffectKey(t.taskID, t.effectType, t.resource);
    var expiry := When(TrimSpace(t.expiresAt) != "" && parse(t.expiresAt).None?, TicketBadExpiry(t.ticketID));
    var effect := When(key !in declared, TicketUndeclaredEffect(t.ticketID));
    var one := WhenListed(TrimSpace(t.expiresAt) != "" && parse(t.expiresAt).None?, TicketBadExpiry(t.ticketID), At(found, 7));
    places := ListsSnoc(list, before, expiry, one, found, 7);
    one := WhenListed(key !in declared, TicketUndeclaredEffect(t.ticketID), At(found, 8));
    places := ListsSnoc(list + expiry, places, effect, one, found, 8);
    assert list + expiry + effect == list + EndNotes(t, declared, parse);
    ListsSame(list + EndNotes(t, declared, parse), places, Below(found, 9), found);
  }

  lemma {:induction false} TicketGrantListed(
    c: Contract, i: nat, parse: string -> Option<int>, declared: set<string>, list: seq<Problem>, before: seq<Place>)
    returns (places: seq<Place>)
    requires i < |c.approvals| && Lists(list, before, Below(OneTicketFaults(c, i, parse), 5))
    requires forall key :: key in declared <==> TakenDeclares(c.tasks, key)
    ensures Lists(list + TicketGrant(c.approvals[i], declared, parse), places, OneTicketFaults(c, i, parse))
  {
    hide *;
    var t := c.approvals[i];
    places := TicketTermsListed(c, i, parse, list, before);
    places := TicketEndListed(c, i, parse, declared, list + TermNotes(t), places);
    TicketGrantIs(t, declared, parse);
    assert list + TermNotes(t) + EndNotes(t, declared, parse) == list + (TermNotes(t) + EndNotes(t, declared, parse));
  }

  lemma {:induction false} TicketGrantIs(t: ApprovalTicket, declared: set<string>, parse: string -> Option<int>)
    ensures TicketGrant(t, declared, parse) == TermNotes(t) + EndNotes(t, declared, parse)
  {
    hide PathList, When, TrimSpace, EffectKey;
  }

  /** The IDs of the first i tickets. */
  function TicketIDsBefore(c: Contract, i: nat): set<string>
    requires i <= |c.approvals|
  {
    set j | 0 <= j < i :: c.approvals[j].ticketID
  }

  lemma {:induction false} TicketsListed(c: Contract, i: nat, parse: string -> Option<int>, declared: set<string>)
    returns (places: seq<Place>)
    requires i <= |c.approvals| && forall key :: key in declared <==> TakenDeclares(c.tasks, key)
    ensures Lists(ApprovalList(c.approvals[i..], TicketIDsBefore(c, i), KnownTasks(c), declared, parse), places,
                  From(TicketFaults(c, parse), i))
    decreases |c.approvals| - i
  {
    hide TicketAt, TakenDeclares, KnownTasks, Lists, TicketIdentity, TicketGrant;
    var found := TicketFaults(c, parse);
    if i == |c.approvals| {
      places := [];
      ListsNone(From(found, i));
    } else {
      var t, seen := c.approvals[i], TicketIDsBefore(c, i);
      var here := TicketIdentityListed(c, i, parse, seen);
      here := TicketGrantListed(c, i, parse, declared, TicketIdentity(t, seen, KnownTasks(c)), here);
      ListsSame(TicketList(t, seen, KnownTasks(c), declared, parse), here, OneTicketFaults(c, i, parse), At(found, i));
      var rest := TicketsListed(c, i + 1, parse, declared);
      assert c.approvals[i..][0] == t && c.approvals[i..][1..] == c.approvals[i + 1..];
      assert TicketIDsBefore(c, i + 1) == seen + {t.ticketID};
      places := ListsCons(TicketList(t, seen, KnownTasks(c), declared, parse), here,
                          ApprovalList(c.approvals[i + 1..], TicketIDsBefore(c, i + 1), KnownTasks(c), declared, parse), rest,
                          found, i);
    }
  }

  // ----- dependencies and the evaluator -----

  ghost function UnknownDepFaults(t: Task, ids: set<string>): Faults {
    (p: Place, x: Problem) =>
      |p| == 1 && p[0] < |t.dependsOn| && t.dependsOn[p[0]] !in ids && x == UnknownDependency(t.id, t.dependsOn[p[0]])
  }

  lemma {:induction false} UnknownDepsListed(t: Task, i: nat, ids: set<string>) returns (places: seq<Place>)
    requires i <= |t.dependsOn|
    ensures Lists(UnknownDeps(t, i, ids), places, From(UnknownDepFaults(t, ids), i))
    decreases |t.dependsOn| - i
  {
    var found := UnknownDepFaults(t, ids);
    if i == |t.dependsOn| {
      places := [];
      ListsNone(From(found, i));
    } else {
      var d := t.dependsOn[i];
      var here := WhenListed(d !in ids, UnknownDependency(t.id, d), At(found, i));
      var rest := UnknownDepsListed(t, i + 1, ids);
      hide Lists;
      places := ListsCons(When(d !in ids, UnknownDependency(t.id, d)), here, UnknownDeps(t, i + 1, ids), rest, found, i);
    }
  }

  ghost function DependencyFaults(tasks: seq<Task>, ids: set<string>): Faults {
    (p: Place, x: Problem) => p != [] && p[0] < |tasks| && UnknownDepFaults(tasks[p[0]], ids)(p[1..], x)
  }

  lemma {:induction false} DependenciesListed(tasks: seq<Task>, i: nat, ids: set<string>) returns (places: seq<Place>)
    requires i <= |tasks|
    ensures Lists(DependencyList(tasks[i..], ids), places, From(DependencyFaults(tasks, ids), i))
    decreases |tasks| - i
  {
    var found := DependencyFaults(tasks, ids);
    hide Lists;
    if i == |tasks| {
      places := [];
      ListsNone(From(found, i));
    } else {
      var here := UnknownDepsListed(tasks[i], 0, ids);
      ListsSame(UnknownDeps(tasks[i], 0, ids), here, From(UnknownDepFaults(tasks[i], ids), 0), At(found, i));
      var rest := DependenciesListed(tasks, i + 1, ids);
      hide UnknownDepFaults, UnknownDeps;
      places := ListsCons(UnknownDeps(tasks[i], 0, ids), here, DependencyList(tasks[i + 1..], ids), rest, found, i);
      assert tasks[i..][0] == tasks[i] && tasks[i..][1..] == tasks[i + 1..];
    }
  }

  ghost function EvaluatorFaults(ids: seq<string>, known: set<string>): Faults {
    (p: Place, x: Problem) => |p| == 1 && p[0] < |ids| && ids[p[0]] !in known && x == EvaluatorUnknownObligation(ids[p[0]])
  }

  lemma {:induction false} EvaluatorListed(ids: seq<string>, i: nat, known: set<string>) returns (places: seq<Place>)
    requires i <= |ids|
    ensures Lists(EvaluatorList(ids[i..], known), places, From(EvaluatorFaults(ids, known), i))
    decreases |ids| - i
  {
    var found := EvaluatorFaults(ids, known);
    if i == |ids| {
      places := [];
      ListsNone(From(found, i));
    } else {
      var here := WhenListed(ids[i] !in known, EvaluatorUnknownObligation(ids[i]), At(found, i));
      var rest := EvaluatorListed(ids, i + 1, known);
      hide Lists;
      places := ListsCons(When(ids[i] !in known, EvaluatorUnknownObligation(ids[i])), here, EvaluatorList(ids[i + 1..], known),
                          rest, found, i);
      assert ids[i..][0] == ids[i] && ids[i..][1..] == ids[i + 1..];
    }
  }

  // ----- the whole contract -----

  /** The thirteen checks in their order, each by its faults. */
  ghost predicate FaultAt(p: Place, x: Problem, c: Contract, oracle: Oracle) {
    p != [] &&
    if p[0] < 5 then HeaderAt(p, x, c)
    else if p[0] == 5 then ObligationFaults(c.obligations)(p[1..], x)
    else if p[0] == 6 then
      p == [6] && x == NoRequiredObligation
      && forall i :: 0 <= i < |c.obligations| && Counts(c.obligations, i) ==> !c.obligations[i].required
    else if p[0] == 7 then TaskFaults(c.tasks, KnownObligations(c), oracle.taskSchemaOk)(p[1..], x)
    else if p[0] == 8 then p == [8] && x == NoTasks && forall t :: t in c.tasks ==> !GoodID(t.id)
    else if p[0] == 9 then TicketFaults(c, oracle.parse)(p[1..], x)
    else if p[0] == 10 then DependencyFaults(c.tasks, KnownTasks(c))(p[1..], x)
    else if p[0] == 11 then p == [11] && x == DependencyCycle && HasClosedWalk(DependencyMap(c.tasks))
    else p[0] == 12 && EvaluatorFaults(c.evaluatorObligations, KnownObligations(c))(p[1..], x)
  }

  ghost function ContractFaultsOf(c: Contract, oracle: Oracle): Faults {
    (p: Place, x: Problem) => FaultAt(p, x, c, oracle)
  }

  /** What is found at each check, by the rest of the place. */
  lemma {:induction false} CheckIs(p: Place, x: Problem, c: Contract, oracle: Oracle)
    ensures var found := ContractFaultsOf(c, oracle);
            && (At(found, 5)(p, x) <==> ObligationFaults(c.obligations)(p, x))
            && (At(found, 6)(p, x) <==>
                  p == [] && x == NoRequiredObligation
                  && forall i :: 0 <= i < |c.obligations| && Counts(c.obligations, i) ==> !c.obligations[i].required)
            && (At(found, 7)(p, x) <==> TaskFaults(c.tasks, KnownObligations(c), oracle.taskSchemaOk)(p, x))
            && (At(found, 8)(p, x) <==> p == [] && x == NoTasks && forall t :: t in c.tasks ==> !GoodID(t.id))
            && (At(found, 9)(p, x) <==> TicketFaults(c, oracle.parse)(p, x))
            && (At(found, 10)(p, x) <==> DependencyFaults(c.tasks, KnownTasks(c))(p, x))
            && (At(found, 11)(p, x) <==> p == [] && x == DependencyCycle && HasClosedWalk(DependencyMap(c.tasks)))
            && (At(found, 12)(p, x) <==> EvaluatorFaults(c.evaluatorObligations, KnownObligations(c))(p, x))
            && !From(found, 13)(p, x)
  {
    hide HeaderAt, ObligationFaults, Counts, TaskFaults, GoodID, TicketFaults, DependencyFaults, EvaluatorFaults, HasClosedWalk,
      KnownObligations, KnownTasks;
  }

  /** A list at check n, by the faults that this check looks for. */
  lemma {:induction false} CheckListed(
    list: seq<Problem>, places: seq<Place>, found: Faults, c: Contract, oracle: Oracle, n: nat)
    requires Lists(list, places, found)
    requires n == 5 ==> found == From(ObligationFaults(c.obligations), 0)
    requires n == 7 ==> found == From(TaskFaults(c.tasks, KnownObligations(c), oracle.taskSchemaOk), 0)
    requires n == 9 ==> found == From(TicketFaults(c, oracle.parse), 0)
    requires n == 10 ==> found == From(DependencyFaults(c.tasks, KnownTasks(c)), 0)
    requires n == 12 ==> found == From(EvaluatorFaults(c.evaluatorObligations, KnownObligations(c)), 0)
    requires n in {5, 7, 9, 10, 12}
    ensures Lists(list, places, At(ContractFaultsOf(c, oracle), n))
  {
    forall p, x ensures found(p, x) <==> At(ContractFaultsOf(c, oracle), n)(p, x) {
      CheckIs(p, x, c, oracle);
      NoFaultAtRoot(x, c, oracle);
      hide ContractFaultsOf, At, ObligationFaults, TaskFaults, TicketFaults, DependencyFaults, EvaluatorFaults;
    }
    hide *;
    ListsSame(list, places, found, At(ContractFaultsOf(c, oracle), n));
  }

  lemma {:induction false} NoFaultAtRoot(x: Problem, c: Contract, oracle: Oracle)
    ensures !ObligationFaults(c.obligations)([], x) && !TaskFaults(c.tasks, KnownObligations(c), oracle.taskSchemaOk)([], x)
    ensures !TicketFaults(c, oracle.parse)([], x) && !DependencyFaults(c.tasks, KnownTasks(c))([], x)
    ensures !EvaluatorFaults(c.evaluatorObligations, KnownObligations(c))([], x)
  {
    hide TaskAt, TicketAt, ObligationAt, UnknownDepFaults, KnownObligations, KnownTasks;
  }

  lemma {:induction false} EvaluatorPartListed(c: Contract, oracle: Oracle) returns (places: seq<Place>)
    ensures Lists(EvaluatorPart(c), places, At(ContractFaultsOf(c, oracle), 12))
  {
    AcceptedExactly(c.obligations, {});
    places := EvaluatorListed(c.evaluatorObligations, 0, KnownObligations(c));
    hide GoodID, EvaluatorList, AcceptedObligations, Lists, ContractFaultsOf, EvaluatorFaults;
    assert c.evaluatorObligations[0..] == c.evaluatorObligations;
    assert AcceptedObligations(c.obligations, {}) == KnownObligations(c);
    CheckListed(EvaluatorPart(c), places, From(EvaluatorFaults(c.evaluatorObligations, KnownObligations(c)), 0), c, oracle, 12);
  }

  lemma {:induction false} EndListed(c: Contract, oracle: Oracle) returns (places: seq<Place>)
    ensures Lists(CyclePart(c) + EvaluatorPart(c), places, From(ContractFaultsOf(c, oracle), 11))
  {
    var found := ContractFaultsOf(c, oracle);
    var one := EvaluatorPartListed(c, oracle);
    forall p, x
      ensures !From(found, 13)(p, x)
      ensures At(found, 11)(p, x) <==> p == [] && HasClosedWalk(DependencyMap(c.tasks)) && x == DependencyCycle
    {
      CheckIs(p, x, c, oracle);
      hide ContractFaultsOf, From, At, HasClosedWalk;
    }
    hide ContractFaultsOf, Lists, EvaluatorPart, HasClosedWalk, From, At;
    ListsNone(From(found, 13));
    places := ListsCons(EvaluatorPart(c), one, [], [], found, 12);
    assert EvaluatorPart(c) + [] == EvaluatorPart(c);
    one := WhenListed(HasClosedWalk(DependencyMap(c.tasks)), DependencyCycle, At(found, 11));
    places := ListsCons(CyclePart(c), one, EvaluatorPart(c), places, found, 11);
  }

  lemma {:induction false} DependencyPartListed(c: Contract, oracle: Oracle) returns (places: seq<Place>)
    ensures Lists(DependencyPart(c), places, At(ContractFaultsOf(c, oracle), 10))
  {
    KnownTasksExactly(c);
    places := DependenciesListed(c.tasks, 0, KnownTasks(c));
    hide ContractFaultsOf, DependencyFaults, Lists, DependencyList, KnownTasks, AcceptedTasks;
    assert c.tasks[0..] == c.tasks;
    CheckListed(DependencyPart(c), places, From(DependencyFaults(c.tasks, KnownTasks(c)), 0), c, oracle, 10);
  }

  lemma {:induction false} ApprovalPartListed(c: Contract, oracle: Oracle) returns (places: seq<Place>)
    ensures Lists(ApprovalPart(c, oracle.parse), places, At(ContractFaultsOf(c, oracle), 9))
  {
    KnownTasksExactly(c);
    var declared := DeclaredEffects(AcceptedTasks(c.tasks, map[]));
    forall key ensures key in declared <==> TakenDeclares(c.tasks, key) {
      DeclaredKeys(c, key);
      hide TakenDeclares, DeclaredEffects, AcceptedTasks;
    }
    hide ContractFaultsOf, TicketFaults, Lists, ApprovalList, KnownTasks, AcceptedTasks, DeclaredEffects, TakenDeclares;
    places := TicketsListed(c, 0, oracle.parse, declared);
    assert c.approvals[0..] == c.approvals && TicketIDsBefore(c, 0) == {};
    CheckListed(ApprovalPart(c, oracle.parse), places, From(TicketFaults(c, oracle.parse), 0), c, oracle, 9);
  }

  lemma {:induction false} TaskListListed(c: Contract, oracle: Oracle) returns (places: seq<Place>)
    ensures Lists(TaskList(c.tasks, {}, AcceptedObligations(c.obligations, {}), oracle.taskSchemaOk), places,
                  At(ContractFaultsOf(c, oracle), 7))
  {
    AcceptedExactly(c.obligations, {});
    var known := KnownObligations(c);
    places := TasksListed(c.tasks, 0, known, oracle.taskSchemaOk);
    assert c.tasks[0..] == c.tasks && GoodAmong(TaskIDList(c.tasks), 0) == {};
    assert AcceptedObligations(c.obligations, {}) == known;
    hide ContractFaultsOf, TaskFaults, Lists, TaskList, KnownObligations, AcceptedObligations;
    CheckListed(TaskList(c.tasks, {}, known, oracle.taskSchemaOk), places,
                From(TaskFaults(c.tasks, known, oracle.taskSchemaOk), 0), c, oracle, 7);
  }

  lemma {:induction false} NoTaskKnown(c: Contract)
    ensures AcceptedTasks(c.tasks, map[]) == map[] <==> forall t :: t in c.tasks ==> !GoodID(t.id)
  {
    KnownTasksExactly(c);
    hide GoodID, AcceptedTasks;
    var none: map<string, Task> := map[];
    assert AcceptedTasks(c.tasks, none) == none <==> KnownTasks(c) == {};
    if t :| t in c.tasks && GoodID(t.id) {
      assert t.id in KnownTasks(c);
    }
  }

  function NoTasksNotes(c: Contract): seq<Problem> {
    When(AcceptedTasks(c.tasks, map[]) == map[], NoTasks)
  }

  function NoneRequiredNotes(c: Contract): seq<Problem> {
    When(RequiredObligations(c.obligations, {}) == {}, NoRequiredObligation)
  }

  lemma {:induction false} LastPartsListed(c: Contract, oracle: Oracle) returns (places: seq<Place>)
    ensures Lists(NoTasksNotes(c) + (ApprovalPart(c, oracle.parse) + (DependencyPart(c) + (CyclePart(c) + EvaluatorPart(c)))),
                  places, From(ContractFaultsOf(c, oracle), 8))
  {
    hide *;
    var found := ContractFaultsOf(c, oracle);
    var one := DependencyPartListed(c, oracle);
    places := EndListed(c, oracle);
    var list := CyclePart(c) + EvaluatorPart(c);
    places := ListsCons(DependencyPart(c), one, list, places, found, 10);
    list := DependencyPart(c) + list;
    one := ApprovalPartListed(c, oracle);
    places := ListsCons(ApprovalPart(c, oracle.parse), one, list, places, found, 9);
    list := ApprovalPart(c, oracle.parse) + list;
    one := NoTasksListed(c, oracle);
    places := ListsCons(NoTasksNotes(c), one, list, places, found, 8);
  }

  lemma {:induction false} NoTasksListed(c: Contract, oracle: Oracle) returns (places: seq<Place>)
    ensures Lists(NoTasksNotes(c), places, At(ContractFaultsOf(c, oracle), 8))
  {
    var found, empty := ContractFaultsOf(c, oracle), AcceptedTasks(c.tasks, map[]) == map[];
    NoTaskKnown(c);
    assert NoTasksNotes(c) == When(empty, NoTasks);
    hide *;
    forall p, x ensures At(found, 8)(p, x) <==> p == [] && empty && x == NoTasks {
      CheckIs(p, x, c, oracle);
    }
    places := WhenListed(empty, NoTasks, At(found, 8));
  }

  lemma {:induction false} ObligationLoopListed(c: Contract, oracle: Oracle) returns (places: seq<Place>)
    ensures Lists(ObligationList(c.obligations, {}), places, At(ContractFaultsOf(c, oracle), 5))
  {
    places := ObligationsListed(c.obligations, 0);
    assert c.obligations[0..] == c.obligations && GoodAmong(ObligationIDList(c.obligations), 0) == {};
    hide ContractFaultsOf, ObligationFaults, Lists, ObligationList;
    CheckListed(ObligationList(c.obligations, {}), places, From(ObligationFaults(c.obligations), 0), c, oracle, 5);
  }

  lemma {:induction false} ObligationPartsListed(c: Contract, oracle: Oracle, rest: seq<Problem>, after: seq<Place>)
    returns (places: seq<Place>)
    requires Lists(rest, after, From(ContractFaultsOf(c, oracle), 7))
    ensures Lists(ObligationPart(c) + rest, places, From(ContractFaultsOf(c, oracle), 5))
  {
    hide *;
    var found := ContractFaultsOf(c, oracle);
    var loop, none := ObligationList(c.obligations, {}), NoneRequiredNotes(c);
    var one := NoneRequiredListed(c, oracle);
    places := ListsCons(none, one, rest, after, found, 6);
    one := ObligationLoopListed(c, oracle);
    places := ListsCons(loop, one, none + rest, places, found, 5);
    ObligationPartIs(c);
    assert loop + (none + rest) == loop + none + rest;
  }

  lemma {:induction false} ObligationPartIs(c: Contract)
    ensures ObligationPart(c) == ObligationList(c.obligations, {}) + NoneRequiredNotes(c)
  {
    hide ObligationList, RequiredObligations, When;
  }

  lemma {:induction false} NoneRequiredListed(c: Contract, oracle: Oracle) returns (places: seq<Place>)
    ensures Lists(NoneRequiredNotes(c), places, At(ContractFaultsOf(c, oracle), 6))
  {
    var found, none := ContractFaultsOf(c, oracle), RequiredObligations(c.obligations, {}) == {};
    assert NoneRequiredNotes(c) == When(none, NoRequiredObligation);
    hide *;
    NoneRequired(c.obligations);
    forall p, x ensures At(found, 6)(p, x) <==> p == [] && none && x == NoRequiredObligation {
      CheckIs(p, x, c, oracle);
    }
    places := WhenListed(none, NoRequiredObligation, At(found, 6));
  }

  /** The problems of a contract that come in a fixed order are exactly its faults, listed in the order of their places:
      by check, then by the element of the list that the check looks at, then by the check of that element. */
  lemma {:induction false} ProblemsListed(c: Contract, oracle: Oracle) returns (places: seq<Place>)
    ensures Lists(OrderedProblems(c, oracle), places, ContractFaultsOf(c, oracle))
  {
    var found := ContractFaultsOf(c, oracle);
    var known := AcceptedObligations(c.obligations, {});
    var tasks := TaskList(c.tasks, {}, known, oracle.taskSchemaOk);
    var last := ApprovalPart(c, oracle.parse) + (DependencyPart(c) + (CyclePart(c) + EvaluatorPart(c)));
    var one := TaskListListed(c, oracle);
    places := LastPartsListed(c, oracle);
    var header := HeaderListed(c);
    WholeAtHeader(c, oracle);
    hide Lists, ContractFaultsOf, HeaderFaults, ApprovalPart, DependencyPart, CyclePart, EvaluatorPart, TaskList, AcceptedTasks,
      AcceptedObligations, When, HeaderList, ObligationPart;
    var none := NoTasksNotes(c);
    places := ListsCons(tasks, one, none + last, places, found, 7);
    assert tasks + (none + last) == TaskPart(c, oracle.taskSchemaOk) + last;
    var rest := TaskPart(c, oracle.taskSchemaOk) + last;
    places := ObligationPartsListed(c, oracle, rest, places);
    ListsJoin(HeaderList(c), header, Below(HeaderFaults(c), 5), ObligationPart(c) + rest, places, From(found, 5), 5, found);
    places := header + places;
  }

  lemma {:induction false} WholeAtHeader(c: Contract, oracle: Oracle)
    ensures forall p, x :: ContractFaultsOf(c, oracle)(p, x) <==>
              Below(HeaderFaults(c), 5)(p, x) || From(ContractFaultsOf(c, oracle), 5)(p, x)
  {
    hide HeaderAt, ObligationFaults, Counts, TaskFaults, GoodID, TicketFaults, DependencyFaults, EvaluatorFaults, HasClosedWalk;
  }

  lemma {:induction false} MissedByID(x: Problem, c: Contract)
    ensures MissedFault(x, c) <==> x.EvaluatorMissesRequired? && x.id in MissingRequired(c)
  {
    MissedIsMissed(x, c);
    if x.EvaluatorMissesRequired? {
      MissedExactly(c, x.id);
    }
    hide MissedFault, MissingRequired;
  }

  lemma {:induction false} FoundIs(p: Place, x: Problem, c: Contract, oracle: Oracle)
    ensures ContractFaultsOf(c, oracle)(p, x) <==> FaultAt(p, x, c, oracle)
  {
    hide FaultAt;
  }

  lemma {:induction false} EarliestProblem(c: Contract, oracle: Oracle) returns (p: Place)
    ensures OrderedProblems(c, oracle) == [] <==> forall q, y :: !FaultAt(q, y, c, oracle)
    ensures OrderedProblems(c, oracle) != [] ==>
              && FaultAt(p, OrderedProblems(c, oracle)[0], c, oracle)
              && forall q, y :: FaultAt(q, y, c, oracle) ==> (q == p && y == OrderedProblems(c, oracle)[0]) || Earlier(p, q)
  {
    hide *;
    var places := ProblemsListed(c, oracle);
    var list, found := OrderedProblems(c, oracle), ContractFaultsOf(c, oracle);
    FirstIsEarliest(list, places, found);
    ListsLength(list, places, found);
    forall q, y ensures found(q, y) <==> FaultAt(q, y, c, oracle) {
      FoundIs(q, y, c, oracle);
    }
    p := if list == [] then [] else places[0];
  }

  /** The validator's error is the fault at the earliest place; only when there is none is it a required obligation that
      the evaluator misses, whichever comes first in the order of a map. */
  lemma {:induction false} FirstFault(c: Contract, oracle: Oracle, problem: Option<Problem>)
    requires FirstProblem(c, oracle, problem)
    ensures (forall p, x :: !FaultAt(p, x, c, oracle)) ==>
              (problem.None? ==> forall x :: !MissedFault(x, c)) && (problem.Some? ==> MissedFault(problem.value, c))
    ensures (exists p, x :: FaultAt(p, x, c, oracle)) ==>
              problem.Some?
              && exists p :: FaultAt(p, problem.value, c, oracle)
                   && forall q, y :: FaultAt(q, y, c, oracle) ==> (q == p && y == problem.value) || Earlier(p, q)
  {
    hide FaultAt, OrderedProblems, MissingRequired, MissedFault, Earlier;
    var p := EarliestProblem(c, oracle);
    forall x ensures MissedFault(x, c) <==> x.EvaluatorMissesRequired? && x.id in MissingRequired(c) {
      MissedByID(x, c);
    }
    assert problem.None? ==> MissingRequired(c) == {};
  }

  lemma {:induction false} CoverSize<T>(list: seq<T>, all: set<T>)
    requires forall x :: x in all ==> x in list
    ensures |all| <= |list|
    decreases |list|
  {
    if list == [] {
      assert all == {};
    } else {
      var last := list[|list| - 1];
      assert list == list[..|list| - 1] + [last];
      CoverSize(list[..|list| - 1], all - {last});
      assert |all| <= |all - {last}| + 1;
    }
  }

  /** A list no longer than the set that it covers repeats nothing. */
  lemma {:induction false} NoRepetition<T>(list: seq<T>, all: set<T>, i: nat, j: nat)
    requires |list| == |all| && forall x :: x in all ==> x in list
    requires i < j < |list|
    ensures list[i] != list[j]
  {
    if list[i] == list[j] {
      var shorter := list[..j] + list[j + 1..];
      forall x | x in all ensures x in shorter {
        var k :| 0 <= k < |list| && list[k] == x;
        assert if k == j then shorter[i] == x else if k < j then shorter[k] == x else shorter[k - 1] == x;
      }
      CoverSize(shorter, all);
    }
  }

  /** Linting lists the faults of the contract, the task schemas aside, in the order of their places, and then the
      required obligations that the evaluator misses, each once. */
  lemma {:induction false} LintListed(c: Contract, parse: string -> Option<int>, diagnostics: seq<Problem>)
    returns (places: seq<Place>)
    requires Lint.AllProblems(c, parse, diagnostics)
    ensures |places| <= |diagnostics|
    ensures Lists(diagnostics[..|places|], places, ContractFaultsOf(c, Oracle(Lint.AnySchema, parse)))
    ensures forall x :: x in diagnostics[|places|..] <==> MissedFault(x, c)
    ensures forall i, j :: |places| <= i < j < |diagnostics| ==> diagnostics[i] != diagnostics[j]
  {
    var ordered := OrderedProblems(c, Oracle(Lint.AnySchema, parse));
    assert ordered <= diagnostics && Lint.Enumerates(diagnostics[|ordered|..], MissingRequired(c)) by {
      hide OrderedProblems, MissingRequired, Lint.Enumerates;
    }
    hide *;
    places := ProblemsListed(c, Oracle(Lint.AnySchema, parse));
    ListsLength(ordered, places, ContractFaultsOf(c, Oracle(Lint.AnySchema, parse)));
    assert diagnostics[..|ordered|] == ordered;
    forall x ensures MissedFault(x, c) <==> x.EvaluatorMissesRequired? && x.id in MissingRequired(c) {
      MissedByID(x, c);
    }
    var tail := diagnostics[|ordered|..];
    TailListed(tail, MissingRequired(c));
    assert forall i :: |ordered| <= i < |diagnostics| ==> diagnostics[i] == tail[i - |ordered|];
  }

  lemma {:induction false} ListsLength(list: seq<Problem>, places: seq<Place>, found: Faults)
    requires Lists(list, places, found)
    ensures |places| == |list|
  {
  }

  lemma {:induction false} TailListed(tail: seq<Problem>, missing: set<string>)
    requires Lint.Enumerates(tail, missing)
    ensures forall x :: x in tail <==> x.EvaluatorMissesRequired? && x.id in missing
    ensures forall i, j :: 0 <= i < j < |tail| ==> tail[i] != tail[j]
  {
    forall x: Problem | x.EvaluatorMissesRequired? && x.id in missing ensures x in tail {
      assert x == EvaluatorMissesRequired(x.id);
    }
    var ids := seq(|tail|, i requires 0 <= i < |tail| => if tail[i].EvaluatorMissesRequired? then tail[i].id else "");
    forall id | id in missing ensures id in ids {
      var i :| 0 <= i < |tail| && tail[i] == EvaluatorMissesRequired(id);
      assert ids[i] == id;
    }
    forall i, j | 0 <= i < j < |tail| ensures tail[i] != tail[j] {
      NoRepetition(ids, missing, i, j);
    }
  }
}
