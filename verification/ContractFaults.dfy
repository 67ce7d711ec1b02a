/** What is wrong with a contract, problem by problem: each one reported is real and each fault is reported. */
module ContractFaults {
  import opened Text
  import opened Contracts
  import opened Cycles
  import opened Validation
  import opened ValidContract
  import Lint
  import Paths
  import PathWalk

  // ----- identifiers and paths -----

  /** What is wrong with an identifier: the first of these that holds. */
  ghost predicate IDFault(p: Problem, raw: string, what: string) {
    var blank, spaced := TrimSpace(raw) == "", TrimSpace(raw) != raw;
    var upper := exists c :: c in raw && 'A' <= c <= 'Z';
    match p
    case IDRequired(w) => w == what && blank
    case IDWhitespace(w, r) => w == what && r == raw && !blank && spaced
    case IDNotLowercase(w, r) => w == what && r == raw && !blank && !spaced && upper
    case IDReserved(w, r) => w == what && r == raw && !blank && !spaced && !upper && IsDeviceName(raw)
    case IDBadCharacter(w, r, c) =>
      w == what && r == raw && !blank && !spaced && !upper && !IsDeviceName(raw) && FirstOutside(raw, c)
    case _ => false
  }

  /** The device names that no file may have: con, prn, aux, nul and com1 to lpt9. */
  predicate IsDeviceName(id: string) {
    || id == "con" || id == "prn" || id == "aux" || id == "nul"
    || (|id| == 4 && (id[..3] == "com" || id[..3] == "lpt") && '1' <= id[3] <= '9')
  }

  /** The first character that is no lower-case letter, digit, underscore or dash. */
  ghost predicate FirstOutside(id: string, c: char) {
    exists i :: 0 <= i < |id| && id[i] == c && !IDChar(c) && forall j :: 0 <= j < i ==> IDChar(id[j])
  }

  lemma {:induction false} UpperExactly(s: string)
    ensures s != ToLower(s) <==> exists c :: c in s && 'A' <= c <= 'Z'
  {
    if c :| c in s && 'A' <= c <= 'Z' {
      var i :| 0 <= i < |s| && s[i] == c;
      assert ToLower(s)[i] != s[i];
    } else {
      forall i | 0 <= i < |s| ensures ToLower(s)[i] == s[i] {
        assert s[i] in s;
      }
    }
  }

  lemma {:induction false} OutsideExactly(id: string, c: char)
    ensures FirstBadChar(id) == Some(c) <==> FirstOutside(id, c)
  {
    if id != "" {
      OutsideExactly(id[1..], c);
      if FirstOutside(id, c) {
        var i :| 0 <= i < |id| && id[i] == c && !IDChar(c) && forall j :: 0 <= j < i ==> IDChar(id[j]);
        assert i > 0 ==> id[1..][i - 1] == c && forall j :: 0 <= j < i - 1 ==> IDChar(id[1..][j]);
      }
      if IDChar(id[0]) && FirstOutside(id[1..], c) {
        var i :| 0 <= i < |id[1..]| && id[1..][i] == c && !IDChar(c) && forall j :: 0 <= j < i ==> IDChar(id[1..][j]);
        assert id[i + 1] == c && forall j :: 0 <= j < i + 1 ==> IDChar(id[j]);
      }
    }
  }

  lemma {:induction false} DeviceExactly(id: string)
    ensures ReservedName(id) <==> IsDeviceName(id)
  {
  }

  /** An identifier is refused with exactly its fault. */
  lemma {:induction false} IDFaultExactly(p: Problem, raw: string, what: string)
    ensures ValidatePublicID(raw, what) == Some(p) <==> IDFault(p, raw, what)
  {
    UpperExactly(raw);
    DeviceExactly(raw);
    if p.IDBadCharacter? {
      OutsideExactly(raw, p.c);
    }
    hide TrimSpace, ToLower, IsDeviceName, ReservedName, FirstOutside, FirstBadChar;
  }

  ghost predicate PathFault(p: Problem, raw: string, what: string) {
    p.BadPath? &&
    if TrimSpace(raw) == "" then p.path == Paths.PathRequired(what)
    else PathWalk.LeadsOut(raw) && p.path == Paths.PathEscapes(what, raw)
  }

  lemma {:induction false} PathFaultExactly(p: Problem, raw: string, what: string)
    ensures p in PathList(raw, what) <==> PathFault(p, raw, what)
  {
    PathWalk.VerdictsExactly("", raw, what);
    hide PathWalk.LeadsOut, TrimSpace, Paths.ValidateRelativePath;
  }

  lemma {:induction false} PathsFaultExactly(p: Problem, raws: seq<string>, what: string)
    ensures p in PathsList(raws, what) <==> exists raw :: raw in raws && PathFault(p, raw, what)
  {
    if raws != [] {
      PathFaultExactly(p, raws[0], what);
      PathsFaultExactly(p, raws[1..], what);
      hide PathFault;
      assert forall raw :: raw in raws <==> raw == raws[0] || raw in raws[1..];
    }
  }

  // ----- the header -----

  ghost predicate HeaderFault(p: Problem, c: Contract) {
    || (p == UnsupportedSchemaVersion(c.schemaVersion) && c.schemaVersion != "covenant.contract.v1")
    || (p.ObjectiveRequired? && TrimSpace(c.objective) == "")
    || PathFault(p, c.root, "workspace root")
    || (exists raw :: raw in c.readPaths && PathFault(p, raw, "read path"))
    || (exists raw :: raw in c.writePaths && PathFault(p, raw, "write path"))
  }

  lemma {:induction false} HeaderFaultExactly(p: Problem, c: Contract)
    ensures p in HeaderList(c) <==> HeaderFault(p, c)
  {
    PathFaultExactly(p, c.root, "workspace root");
    PathsFaultExactly(p, c.readPaths, "read path");
    PathsFaultExactly(p, c.writePaths, "write path");
    hide PathFault, PathList, PathsList, TrimSpace;
  }

  // ----- obligations -----

  /** The obligation at position i counts: its ID is good and no earlier one has it. */
  ghost predicate Counts(obligations: seq<Obligation>, i: nat) {
    && i < |obligations| && GoodID(obligations[i].id)
    && forall j :: 0 <= j < i ==> obligations[j].id != obligations[i].id
  }

  /** The ID occurs at a position where it was seen before: it is among the seen ones, or at an earlier position. */
  ghost predicate Repeats(ids: seq<string>, id: string, seen: set<string>) {
    exists j :: 0 <= j < |ids| && ids[j] == id && (id in seen || id in ids[..j])
  }

  lemma {:induction false} RepeatsStep(ids: seq<string>, id: string, seen: set<string>, next: set<string>)
    requires ids != [] && (id in next <==> id in seen || ids[0] == id)
    ensures Repeats(ids, id, seen) <==> (ids[0] == id && id in seen) || Repeats(ids[1..], id, next)
  {
    var rest := ids[1..];
    assert forall j :: 0 < j <= |ids| ==> ids[..j] == [ids[0]] + rest[..j - 1];
    if Repeats(ids, id, seen) {
      var j :| 0 <= j < |ids| && ids[j] == id && (id in seen || id in ids[..j]);
      assert j > 0 ==> rest[j - 1] == id;
    }
    if Repeats(rest, id, next) {
      var j :| 0 <= j < |rest| && rest[j] == id && (id in next || id in rest[..j]);
      assert ids[j + 1] == id && ids[..j + 1] == [ids[0]] + rest[..j];
    }
  }

  function ObligationIDList(obligations: seq<Obligation>): seq<string> {
    seq(|obligations|, i requires 0 <= i < |obligations| => obligations[i].id)
  }

  lemma {:induction false} RepeatsAtFirst(ids: seq<string>, id: string)
    ensures Repeats(ids, id, {}) <==> exists i, j :: 0 <= i < j < |ids| && ids[i] == ids[j] == id
  {
    if Repeats(ids, id, {}) {
      var j :| 0 <= j < |ids| && ids[j] == id && id in ids[..j];
      var i :| 0 <= i < j && ids[..j][i] == id;
      assert ids[i] == id;
    }
    if i, j :| 0 <= i < j < |ids| && ids[i] == ids[j] == id {
      assert ids[..j][i] == id;
    }
  }

  lemma {:induction false} ObligationListExactly(p: Problem, obligations: seq<Obligation>, seen: set<string>)
    ensures p in ObligationList(obligations, seen) <==>
              || (exists o :: o in obligations && IDFault(p, o.id, "obligation id"))
              || (p.DuplicateObligation? && GoodID(p.id) && Repeats(ObligationIDList(obligations), p.id, seen))
  {
    if obligations != [] {
      var o, rest := obligations[0], obligations[1..];
      IDFaultExactly(p, o.id, "obligation id");
      PublicIDExactly(o.id, "obligation id");
      var next := if GoodID(o.id) then seen + {o.id} else seen;
      ObligationListExactly(p, rest, next);
      var ids := ObligationIDList(obligations);
      assert ids[1..] == ObligationIDList(rest);
      if p.DuplicateObligation? && GoodID(p.id) {
        RepeatsStep(ids, p.id, seen, next);
      }
      assert o.id in seen ==> seen + {o.id} == seen;
      hide IDFault, GoodID, ValidatePublicID, Repeats;
      assert forall x :: x in obligations <==> x == o || x in rest;
    }
  }

  lemma {:induction false} AcceptedExactly(obligations: seq<Obligation>, seen: set<string>)
    ensures AcceptedObligations(obligations, seen) == seen + set o | o in obligations && GoodID(o.id) :: o.id
  {
    if obligations != [] {
      var o, rest := obligations[0], obligations[1..];
      PublicIDExactly(o.id, "obligation id");
      AcceptedExactly(rest, if GoodID(o.id) then seen + {o.id} else seen);
      hide GoodID, ValidatePublicID;
      assert forall x :: x in obligations <==> x == o || x in rest;
    }
  }

  /** From position k on the obligation counts, given the IDs seen. */
  ghost predicate CountsFrom(obligations: seq<Obligation>, i: nat, seen: set<string>) {
    Counts(obligations, i) && obligations[i].id !in seen
  }

  lemma {:induction false} RequiredExactly(obligations: seq<Obligation>, seen: set<string>, id: string)
    ensures id in RequiredObligations(obligations, seen) <==>
              exists i: nat :: CountsFrom(obligations, i, seen) && obligations[i].required && obligations[i].id == id
  {
    if obligations != [] {
      var o, rest := obligations[0], obligations[1..];
      PublicIDExactly(o.id, "obligation id");
      var skip := !GoodID(o.id) || o.id in seen;
      RequiredExactly(rest, if skip then seen else seen + {o.id}, id);
      RequiredStep(obligations, seen, id);
      hide GoodID, ValidatePublicID, CountsFrom;
    }
  }

  lemma {:induction false} RequiredStep(obligations: seq<Obligation>, seen: set<string>, id: string)
    requires obligations != []
    ensures var o, rest := obligations[0], obligations[1..];
            var skip := !GoodID(o.id) || o.id in seen;
            (exists i: nat :: CountsFrom(obligations, i, seen) && obligations[i].required && obligations[i].id == id) <==>
              || (!skip && o.required && o.id == id)
              || exists i: nat :: CountsFrom(rest, i, if skip then seen else seen + {o.id}) && rest[i].required && rest[i].id == id
  {
    hide GoodID;
    var o, rest := obligations[0], obligations[1..];
    var skip := !GoodID(o.id) || o.id in seen;
    assert forall k :: 0 <= k < |rest| ==> rest[k] == obligations[k + 1];
    if i: nat :| CountsFrom(obligations, i, seen) && obligations[i].required && obligations[i].id == id {
      if i > 0 {
        assert obligations[0].id != obligations[i].id;
        forall j | 0 <= j < i - 1 ensures rest[j].id != rest[i - 1].id {
          assert obligations[j + 1].id != obligations[i].id;
        }
        assert CountsFrom(rest, i - 1, if skip then seen else seen + {o.id});
      }
    }
    if i: nat :| CountsFrom(rest, i, if skip then seen else seen + {o.id}) && rest[i].required && rest[i].id == id {
      forall j | 0 <= j < i + 1 ensures obligations[j].id != obligations[i + 1].id {
        if j > 0 {
          assert rest[j - 1].id != rest[i].id;
        }
      }
      assert CountsFrom(obligations, i + 1, seen);
    }
    if !skip && o.required && o.id == id {
      assert CountsFrom(obligations, 0, seen);
    }
  }

  ghost predicate ObligationFault(p: Problem, c: Contract) {
    || (exists o :: o in c.obligations && IDFault(p, o.id, "obligation id"))
    || (p.DuplicateObligation? && GoodID(p.id)
        && exists i, j :: 0 <= i < j < |c.obligations| && c.obligations[i].id == c.obligations[j].id == p.id)
    || (p.NoRequiredObligation? && forall i :: 0 <= i < |c.obligations| && Counts(c.obligations, i) ==> !c.obligations[i].required)
  }

  lemma {:induction false} ObligationFaultExactly(p: Problem, c: Contract)
    ensures p in ObligationPart(c) <==> ObligationFault(p, c)
  {
    ObligationListExactly(p, c.obligations, {});
    NoneRequired(c.obligations);
    hide IDFault, GoodID, ObligationList, RequiredObligations, Counts;
    if p.DuplicateObligation? {
      var ids := ObligationIDList(c.obligations);
      RepeatsAtFirst(ids, p.id);
      assert forall i :: 0 <= i < |ids| ==> ids[i] == c.obligations[i].id;
    }
  }

  lemma {:induction false} NoneRequired(obligations: seq<Obligation>)
    ensures RequiredObligations(obligations, {}) == {} <==>
            forall i :: 0 <= i < |obligations| && Counts(obligations, i) ==> !obligations[i].required
  {
    forall id ensures id in RequiredObligations(obligations, {}) <==>
      exists i: nat :: CountsFrom(obligations, i, {}) && obligations[i].required && obligations[i].id == id
    {
      RequiredExactly(obligations, {}, id);
    }
    hide GoodID, RequiredObligations;
    if RequiredObligations(obligations, {}) == {} {
      forall i | 0 <= i < |obligations| && Counts(obligations, i) ensures !obligations[i].required {
        assert CountsFrom(obligations, i, {});
        assert obligations[i].id !in RequiredObligations(obligations, {});
      }
    }
  }

  // ----- tasks -----

  function KnownObligations(c: Contract): set<string> {
    set o | o in c.obligations && GoodID(o.id) :: o.id
  }

  /** The task at position i is taken: its ID is good, and neither seen nor used by an earlier task. */
  ghost predicate Taken(tasks: seq<Task>, i: nat, seen: set<string>) {
    && i < |tasks| && GoodID(tasks[i].id) && tasks[i].id !in seen
    && forall j :: 0 <= j < i ==> tasks[j].id != tasks[i].id
  }

  ghost predicate EffectFault(p: Problem, t: Task, a: ActionRef) {
    || (p == UnsupportedEffect(a.effectType, t.id) && a.effectType !in EFFECT_TYPES)
    || PathFault(p, a.resource, "side effect resource")
  }

  /** What is wrong with the task itself. */
  ghost predicate OwnFault(p: Problem, t: Task, known: set<string>, schemaOk: Task -> bool) {
    || (p == UnsupportedKind(t.kind, t.id) && t.kind !in TASK_KINDS)
    || (p == AdapterRequired(t.id) && TrimSpace(t.adapter) == "")
    || (p == TimeoutNotPositive(t.id) && t.timeoutSecs <= 0)
    || (exists id :: id in t.obligations && id !in known && p == UnknownObligation(t.id, id))
    || (exists a :: a in t.effects && EffectFault(p, t, a))
    || (p == TaskSchemaInvalid(t.id) && !schemaOk(t))
  }

  lemma {:induction false} UnknownExactly(p: Problem, t: Task, from: nat, known: set<string>)
    requires from <= |t.obligations|
    ensures p in UnknownObligations(t, from, known) <==>
              exists k :: from <= k < |t.obligations| && t.obligations[k] !in known && p == UnknownObligation(t.id, t.obligations[k])
    decreases |t.obligations| - from
  {
    if from < |t.obligations| {
      UnknownExactly(p, t, from + 1, known);
    }
  }

  lemma {:induction false} EffectsExactly(p: Problem, t: Task, from: nat)
    requires from <= |t.effects|
    ensures p in EffectList(t, from) <==> exists k :: from <= k < |t.effects| && EffectFault(p, t, t.effects[k])
    decreases |t.effects| - from
  {
    if from < |t.effects| {
      PathFaultExactly(p, t.effects[from].resource, "side effect resource");
      EffectsExactly(p, t, from + 1);
      EffectStep(p, t, from);
      hide EffectFault, PathList, PathFault;
    }
  }

  lemma {:induction false} EffectStep(p: Problem, t: Task, from: nat)
    requires from < |t.effects|
    ensures EffectFault(p, t, t.effects[from]) <==>
              || (p == UnsupportedEffect(t.effects[from].effectType, t.id) && t.effects[from].effectType !in EFFECT_TYPES)
              || PathFault(p, t.effects[from].resource, "side effect resource")
  {
    hide PathFault;
  }

  lemma {:induction false} WhenHas(p: Problem, condition: bool, q: Problem)
    ensures p in When(condition, q) <==> condition && p == q
  {
  }

  lemma {:induction false} InOwn(p: Problem, t: Task, known: set<string>, schemaOk: Task -> bool)
    ensures p in CheckedList(t, known, schemaOk) <==>
              || p in When(t.kind !in TASK_KINDS, UnsupportedKind(t.kind, t.id))
              || p in When(TrimSpace(t.adapter) == "", AdapterRequired(t.id))
              || p in When(t.timeoutSecs <= 0, TimeoutNotPositive(t.id))
              || p in UnknownObligations(t, 0, known) || p in EffectList(t, 0)
              || p in When(!schemaOk(t), TaskSchemaInvalid(t.id))
  {
    hide When, TrimSpace, UnknownObligations, EffectList, TASK_KINDS;
  }

  lemma {:induction false} OwnFaultExactly(p: Problem, t: Task, known: set<string>, schemaOk: Task -> bool)
    ensures p in CheckedList(t, known, schemaOk) <==> OwnFault(p, t, known, schemaOk)
  {
    hide When, UnknownObligations, EffectList, EffectFault, TrimSpace, TASK_KINDS, CheckedList;
    InOwn(p, t, known, schemaOk);
    UnknownExactly(p, t, 0, known);
    EffectsExactly(p, t, 0);
    WhenHas(p, t.kind !in TASK_KINDS, UnsupportedKind(t.kind, t.id));
    WhenHas(p, TrimSpace(t.adapter) == "", AdapterRequired(t.id));
    WhenHas(p, t.timeoutSecs <= 0, TimeoutNotPositive(t.id));
    WhenHas(p, !schemaOk(t), TaskSchemaInvalid(t.id));
    if id :| id in t.obligations && id !in known && p == UnknownObligation(t.id, id) {
      var k :| 0 <= k < |t.obligations| && t.obligations[k] == id;
    }
    if a :| a in t.effects && EffectFault(p, t, a) {
      var k :| 0 <= k < |t.effects| && t.effects[k] == a;
    }
  }

  function TaskIDList(tasks: seq<Task>): seq<string> {
    seq(|tasks|, i requires 0 <= i < |tasks| => tasks[i].id)
  }

  ghost predicate TakenFault(p: Problem, tasks: seq<Task>, seen: set<string>, known: set<string>, schemaOk: Task -> bool) {
    exists i: nat :: Taken(tasks, i, seen) && OwnFault(p, tasks[i], known, schemaOk)
  }

  function SeenNext(t: Task, seen: set<string>): set<string> {
    if GoodID(t.id) then seen + {t.id} else seen
  }

  lemma {:induction false} TakenStep(tasks: seq<Task>, i: nat, seen: set<string>)
    requires tasks != [] && i < |tasks|
    ensures Taken(tasks, i, seen) <==>
              if i == 0 then GoodID(tasks[0].id) && tasks[0].id !in seen else Taken(tasks[1..], i - 1, SeenNext(tasks[0], seen))
  {
    hide GoodID;
    var t, rest := tasks[0], tasks[1..];
    assert forall k :: 0 <= k < |rest| ==> rest[k] == tasks[k + 1];
    if i > 0 && Taken(tasks, i, seen) {
      assert tasks[0].id != tasks[i].id;
      forall j | 0 <= j < i - 1 ensures rest[j].id != rest[i - 1].id {
        assert tasks[j + 1].id != tasks[i].id;
      }
    }
    if i > 0 && Taken(rest, i - 1, SeenNext(t, seen)) {
      forall j | 0 <= j < i ensures tasks[j].id != tasks[i].id {
        if j > 0 {
          assert rest[j - 1].id != rest[i - 1].id;
        }
      }
    }
  }

  lemma {:induction false} TakenFaultSplits(
    p: Problem, tasks: seq<Task>, seen: set<string>, known: set<string>, schemaOk: Task -> bool, i: nat)
    requires tasks != [] && Taken(tasks, i, seen) && OwnFault(p, tasks[i], known, schemaOk)
    ensures || (GoodID(tasks[0].id) && tasks[0].id !in seen && OwnFault(p, tasks[0], known, schemaOk))
            || TakenFault(p, tasks[1..], SeenNext(tasks[0], seen), known, schemaOk)
  {
    TakenInRange(tasks, i, seen);
    TakenStep(tasks, i, seen);
    hide Taken, GoodID, OwnFault, SeenNext;
    assert i > 0 ==> tasks[1..][i - 1] == tasks[i];
  }

  lemma {:induction false} TakenFaultJoins(
    p: Problem, tasks: seq<Task>, seen: set<string>, known: set<string>, schemaOk: Task -> bool, i: nat)
    requires i < |tasks| && Taken(tasks, i, seen) && OwnFault(p, tasks[i], known, schemaOk)
    ensures TakenFault(p, tasks, seen, known, schemaOk)
  {
    hide Taken, OwnFault;
  }

  lemma {:induction false} LaterFaultJoins(
    p: Problem, tasks: seq<Task>, seen: set<string>, known: set<string>, schemaOk: Task -> bool, i: nat)
    requires tasks != [] && Taken(tasks[1..], i, SeenNext(tasks[0], seen)) && OwnFault(p, tasks[1..][i], known, schemaOk)
    ensures TakenFault(p, tasks, seen, known, schemaOk)
  {
    TakenInRange(tasks[1..], i, SeenNext(tasks[0], seen));
    TakenStep(tasks, i + 1, seen);
    hide Taken, OwnFault, SeenNext, TakenFault;
    assert tasks[1..][i] == tasks[i + 1];
    TakenFaultJoins(p, tasks, seen, known, schemaOk, i + 1);
  }

  /** The first task is taken and has the fault. */
  ghost predicate FirstFault(p: Problem, t: Task, seen: set<string>, known: set<string>, schemaOk: Task -> bool) {
    GoodID(t.id) && t.id !in seen && OwnFault(p, t, known, schemaOk)
  }

  lemma {:induction false} TakenFaultForth(p: Problem, tasks: seq<Task>, seen: set<string>, known: set<string>, schemaOk: Task -> bool)
    requires tasks != [] && TakenFault(p, tasks, seen, known, schemaOk)
    ensures FirstFault(p, tasks[0], seen, known, schemaOk)
         || TakenFault(p, tasks[1..], SeenNext(tasks[0], seen), known, schemaOk)
  {
    var i: nat :| Taken(tasks, i, seen) && OwnFault(p, tasks[i], known, schemaOk);
    TakenFaultSplits(p, tasks, seen, known, schemaOk, i);
    hide TakenFault, OwnFault, Taken, GoodID, SeenNext;
  }

  lemma {:induction false} TakenFaultBack(p: Problem, tasks: seq<Task>, seen: set<string>, known: set<string>, schemaOk: Task -> bool)
    requires tasks != []
    ensures FirstFault(p, tasks[0], seen, known, schemaOk) ==> TakenFault(p, tasks, seen, known, schemaOk)
    ensures TakenFault(p, tasks[1..], SeenNext(tasks[0], seen), known, schemaOk) ==> TakenFault(p, tasks, seen, known, schemaOk)
  {
    hide OwnFault, GoodID, SeenNext;
    if FirstFault(p, tasks[0], seen, known, schemaOk) {
      TakenStep(tasks, 0, seen);
      TakenFaultJoins(p, tasks, seen, known, schemaOk, 0);
    }
    if TakenFault(p, tasks[1..], SeenNext(tasks[0], seen), known, schemaOk) {
      var i: nat :| Taken(tasks[1..], i, SeenNext(tasks[0], seen)) && OwnFault(p, tasks[1..][i], known, schemaOk);
      LaterFaultJoins(p, tasks, seen, known, schemaOk, i);
    }
  }

  lemma {:induction false} TakenFaultStep(p: Problem, tasks: seq<Task>, seen: set<string>, known: set<string>, schemaOk: Task -> bool)
    requires tasks != []
    ensures TakenFault(p, tasks, seen, known, schemaOk) <==>
              || (GoodID(tasks[0].id) && tasks[0].id !in seen && OwnFault(p, tasks[0], known, schemaOk))
              || TakenFault(p, tasks[1..], SeenNext(tasks[0], seen), known, schemaOk)
  {
    TakenFaultBack(p, tasks, seen, known, schemaOk);
    hide TakenFault, OwnFault, GoodID, SeenNext;
    if TakenFault(p, tasks, seen, known, schemaOk) {
      TakenFaultForth(p, tasks, seen, known, schemaOk);
    }
  }

  lemma {:induction false} TakenInRange(tasks: seq<Task>, i: nat, seen: set<string>)
    ensures Taken(tasks, i, seen) ==> i < |tasks|
  {
  }

  lemma {:induction false} NothingTaken(p: Problem, seen: set<string>, known: set<string>, schemaOk: Task -> bool)
    ensures !TakenFault(p, [], seen, known, schemaOk) && forall id :: !Repeats(TaskIDList([]), id, seen)
  {
  }

  lemma {:induction false} TaskListExactly(
    p: Problem, tasks: seq<Task>, seen: set<string>, known: set<string>, schemaOk: Task -> bool)
    ensures p in TaskList(tasks, seen, known, schemaOk) <==>
              || (exists t :: t in tasks && IDFault(p, t.id, "task id"))
              || (p.DuplicateTask? && GoodID(p.id) && Repeats(TaskIDList(tasks), p.id, seen))
              || TakenFault(p, tasks, seen, known, schemaOk)
  {
    hide IDFault, GoodID, ValidatePublicID, Repeats, OwnFault, CheckedList;
    if tasks == [] {
      NothingTaken(p, seen, known, schemaOk);
    } else {
      hide TakenFault;
      var t, rest := tasks[0], tasks[1..];
      IDFaultExactly(p, t.id, "task id");
      PublicIDExactly(t.id, "task id");
      OwnFaultExactly(p, t, known, schemaOk);
      TaskListExactly(p, rest, SeenNext(t, seen), known, schemaOk);
      TakenFaultStep(p, tasks, seen, known, schemaOk);
      var ids := TaskIDList(tasks);
      assert ids[1..] == TaskIDList(rest);
      if p.DuplicateTask? && GoodID(p.id) {
        RepeatsStep(ids, p.id, seen, SeenNext(t, seen));
      }
      assert t.id in seen ==> seen + {t.id} == seen;
      assert forall x :: x in tasks <==> x == t || x in rest;
    }
  }

  lemma {:induction false} AcceptedTaskKeys(tasks: seq<Task>, seen: map<string, Task>)
    ensures AcceptedTasks(tasks, seen).Keys == seen.Keys + set t | t in tasks && GoodID(t.id) :: t.id
  {
    if tasks != [] {
      var t, rest := tasks[0], tasks[1..];
      PublicIDExactly(t.id, "task id");
      AcceptedTaskKeys(rest, if GoodID(t.id) && t.id !in seen then seen[t.id := t] else seen);
      hide GoodID, ValidatePublicID;
      assert seen[t.id := t].Keys == seen.Keys + {t.id};
      assert forall x :: x in tasks <==> x == t || x in rest;
    }
  }

  /** The IDs of the tasks that are taken. */
  function KnownTasks(c: Contract): set<string> {
    set t | t in c.tasks && GoodID(t.id) :: t.id
  }

  lemma {:induction false} KnownTasksExactly(c: Contract)
    ensures AcceptedTasks(c.tasks, map[]).Keys == KnownTasks(c)
  {
    var none: map<string, Task> := map[];
    assert none.Keys == {};
    AcceptedTaskKeys(c.tasks, none);
    hide GoodID, AcceptedTasks;
  }

  ghost predicate TaskFault(p: Problem, c: Contract, schemaOk: Task -> bool) {
    || (exists t :: t in c.tasks && IDFault(p, t.id, "task id"))
    || (p.DuplicateTask? && GoodID(p.id)
        && exists i, j :: 0 <= i < j < |c.tasks| && c.tasks[i].id == c.tasks[j].id == p.id)
    || TakenFault(p, c.tasks, {}, KnownObligations(c), schemaOk)
    || (p.NoTasks? && forall t :: t in c.tasks ==> !GoodID(t.id))
  }

  lemma {:induction false} TaskFaultExactly(p: Problem, c: Contract, schemaOk: Task -> bool)
    ensures p in TaskPart(c, schemaOk) <==> TaskFault(p, c, schemaOk)
  {
    AcceptedExactly(c.obligations, {});
    KnownTasksExactly(c);
    TaskListExactly(p, c.tasks, {}, KnownObligations(c), schemaOk);
    hide GoodID, IDFault, TaskList, TakenFault, AcceptedObligations, AcceptedTasks;
    assert AcceptedObligations(c.obligations, {}) == KnownObligations(c);
    assert AcceptedTasks(c.tasks, map[]) == map[] <==> KnownTasks(c) == {};
    assert KnownTasks(c) == {} <==> forall t :: t in c.tasks ==> !GoodID(t.id) by {
      if t :| t in c.tasks && GoodID(t.id) {
        assert t.id in KnownTasks(c);
      }
    }
    if p.DuplicateTask? {
      var ids := TaskIDList(c.tasks);
      RepeatsAtFirst(ids, p.id);
      assert forall i :: 0 <= i < |ids| ==> ids[i] == c.tasks[i].id;
    }
  }

  // ----- approval tickets -----

  /** Some task that is taken declares an effect with this key. */
  ghost predicate TakenDeclares(tasks: seq<Task>, key: string) {
    exists i: nat, a :: Taken(tasks, i, {}) && a in tasks[i].effects && EffectKey(tasks[i].id, a.effectType, a.resource) == key
  }

  lemma {:induction false} AcceptedTaskAt(tasks: seq<Task>, seen: map<string, Task>, id: string)
    requires id in AcceptedTasks(tasks, seen)
    ensures AcceptedTasks(tasks, seen)[id].id == id || id in seen
    ensures (id in seen && AcceptedTasks(tasks, seen)[id] == seen[id])
            || (id !in seen && exists i: nat :: Taken(tasks, i, seen.Keys) && tasks[i] == AcceptedTasks(tasks, seen)[id])
  {
    if tasks != [] {
      var t, rest := tasks[0], tasks[1..];
      PublicIDExactly(t.id, "task id");
      var next := if GoodID(t.id) && t.id !in seen then seen[t.id := t] else seen;
      AcceptedTaskAt(rest, next, id);
      assert next.Keys == SeenNext(t, seen.Keys);
      hide GoodID, ValidatePublicID, Taken;
      TakenStep(tasks, 0, seen.Keys);
      if id !in next {
        var i: nat :| Taken(rest, i, next.Keys) && rest[i] == AcceptedTasks(rest, next)[id];
        TakenInRange(rest, i, next.Keys);
        TakenStep(tasks, i + 1, seen.Keys);
        assert tasks[i + 1] == rest[i];
      }
    }
  }

  lemma {:induction false} TakenIsAccepted(tasks: seq<Task>, seen: map<string, Task>, i: nat)
    requires Taken(tasks, i, seen.Keys)
    ensures tasks[i].id in AcceptedTasks(tasks, seen) && AcceptedTasks(tasks, seen)[tasks[i].id] == tasks[i]
  {
    var t, rest := tasks[0], tasks[1..];
    PublicIDExactly(t.id, "task id");
    var next := if GoodID(t.id) && t.id !in seen then seen[t.id := t] else seen;
    assert next.Keys == SeenNext(t, seen.Keys);
    TakenStep(tasks, i, seen.Keys);
    hide GoodID, ValidatePublicID;
    if i > 0 {
      TakenIsAccepted(rest, next, i - 1);
      assert rest[i - 1] == tasks[i];
    } else {
      SeenStays(rest, next, t.id);
    }
  }

  lemma {:induction false} SeenStays(tasks: seq<Task>, seen: map<string, Task>, id: string)
    requires id in seen
    ensures id in AcceptedTasks(tasks, seen) && AcceptedTasks(tasks, seen)[id] == seen[id]
  {
    if tasks != [] {
      var t := tasks[0];
      SeenStays(tasks[1..], if ValidatePublicID(t.id, "task id").None? && t.id !in seen then seen[t.id := t] else seen, id);
    }
  }

  lemma {:induction false} DeclaredKeys(c: Contract, key: string)
    ensures key in DeclaredEffects(AcceptedTasks(c.tasks, map[])) <==> TakenDeclares(c.tasks, key)
  {
    hide GoodID, ValidatePublicID, EffectKey, AcceptedTasks;
    var none: map<string, Task> := map[];
    var accepted := AcceptedTasks(c.tasks, none);
    assert none.Keys == {};
    if key in DeclaredEffects(accepted) {
      var id, a :| id in accepted && a in accepted[id].effects && EffectKey(accepted[id].id, a.effectType, a.resource) == key;
      AcceptedTaskAt(c.tasks, none, id);
      var i: nat :| Taken(c.tasks, i, {}) && c.tasks[i] == accepted[id];
    }
    if i: nat, a :| Taken(c.tasks, i, {}) && a in c.tasks[i].effects && EffectKey(c.tasks[i].id, a.effectType, a.resource) == key {
      TakenIsAccepted(c.tasks, none, i);
      TakenInRange(c.tasks, i, {});
    }
  }

  /** What is wrong with one ticket. */
  ghost predicate TicketFault(p: Problem, t: ApprovalTicket, c: Contract, parse: string -> Option<int>) {
    || (p == UnsupportedTicketVersion(t.schemaVersion) && t.schemaVersion != "covenant.approval-ticket.v1")
    || IDFault(p, t.ticketID, "approval ticket id")
    || (p == TicketUnknownTask(t.ticketID, t.taskID) && t.taskID !in KnownTasks(c))
    || (p == TicketUnsupportedEffect(t.ticketID, t.effectType) && t.effectType !in EFFECT_TYPES)
    || PathFault(p, t.resource, "approval ticket resource")
    || (p == TicketReasonRequired(t.ticketID) && TrimSpace(t.reason) == "")
    || (p == TicketBadExpiry(t.ticketID) && TrimSpace(t.expiresAt) != "" && parse(t.expiresAt).None?)
    || (p == TicketUndeclaredEffect(t.ticketID) && !TakenDeclares(c.tasks, EffectKey(t.taskID, t.effectType, t.resource)))
  }

  lemma {:induction false} InTicket(
    p: Problem, t: ApprovalTicket, seen: set<string>, taskIDs: set<string>, declared: set<string>, parse: string -> Option<int>)
    ensures p in TicketList(t, seen, taskIDs, declared, parse) <==>
              || p in When(t.schemaVersion != TICKET_SCHEMA, UnsupportedTicketVersion(t.schemaVersion))
              || p in AsList(ValidatePublicID(t.ticketID, "approval ticket id"))
              || p in When(t.ticketID in seen, DuplicateTicket(t.ticketID))
              || p in When(t.taskID !in taskIDs, TicketUnknownTask(t.ticketID, t.taskID))
              || p in When(t.effectType !in EFFECT_TYPES, TicketUnsupportedEffect(t.ticketID, t.effectType))
              || p in PathList(t.resource, "approval ticket resource")
              || p in When(TrimSpace(t.reason) == "", TicketReasonRequired(t.ticketID))
              || p in When(TrimSpace(t.expiresAt) != "" && parse(t.expiresAt).None?, TicketBadExpiry(t.ticketID))
              || p in When(EffectKey(t.taskID, t.effectType, t.resource) !in declared, TicketUndeclaredEffect(t.ticketID))
  {
    hide When, TrimSpace, PathList, ValidatePublicID, EffectKey, EFFECT_TYPES, TICKET_SCHEMA, AsList;
  }

  lemma {:induction false} TicketFaultExactly(p: Problem, t: ApprovalTicket, seen: set<string>, c: Contract, parse: string -> Option<int>)
    ensures p in TicketList(t, seen, AcceptedTasks(c.tasks, map[]).Keys, DeclaredEffects(AcceptedTasks(c.tasks, map[])), parse) <==>
              TicketFault(p, t, c, parse) || (p == DuplicateTicket(t.ticketID) && t.ticketID in seen)
  {
    hide IDFault, PathFault, PathList, ValidatePublicID, KnownTasks, AcceptedTasks, DeclaredEffects, TakenDeclares, EffectKey,
      TrimSpace, TICKET_SCHEMA, EFFECT_TYPES, When, TicketList;
    var taskIDs, declared := AcceptedTasks(c.tasks, map[]).Keys, DeclaredEffects(AcceptedTasks(c.tasks, map[]));
    var key := EffectKey(t.taskID, t.effectType, t.resource);
    InTicket(p, t, seen, taskIDs, declared, parse);
    IDFaultExactly(p, t.ticketID, "approval ticket id");
    PathFaultExactly(p, t.resource, "approval ticket resource");
    KnownTasksExactly(c);
    DeclaredKeys(c, key);
    TicketSchemaIs();
    WhenHas(p, t.schemaVersion != TICKET_SCHEMA, UnsupportedTicketVersion(t.schemaVersion));
    WhenHas(p, t.ticketID in seen, DuplicateTicket(t.ticketID));
    WhenHas(p, t.taskID !in taskIDs, TicketUnknownTask(t.ticketID, t.taskID));
    WhenHas(p, t.effectType !in EFFECT_TYPES, TicketUnsupportedEffect(t.ticketID, t.effectType));
    WhenHas(p, TrimSpace(t.reason) == "", TicketReasonRequired(t.ticketID));
    WhenHas(p, TrimSpace(t.expiresAt) != "" && parse(t.expiresAt).None?, TicketBadExpiry(t.ticketID));
    WhenHas(p, key !in declared, TicketUndeclaredEffect(t.ticketID));
  }

  lemma {:induction false} TicketSchemaIs()
    ensures TICKET_SCHEMA == "covenant.approval-ticket.v1"
  {
  }

  function TicketIDList(approvals: seq<ApprovalTicket>): seq<string> {
    seq(|approvals|, i requires 0 <= i < |approvals| => approvals[i].ticketID)
  }

  lemma {:induction false} ApprovalListExactly(
    p: Problem, approvals: seq<ApprovalTicket>, seen: set<string>, c: Contract, parse: string -> Option<int>)
    ensures p in ApprovalList(approvals, seen, AcceptedTasks(c.tasks, map[]).Keys, DeclaredEffects(AcceptedTasks(c.tasks, map[])), parse) <==>
              || (exists t :: t in approvals && TicketFault(p, t, c, parse))
              || (p.DuplicateTicket? && Repeats(TicketIDList(approvals), p.id, seen))
  {
    hide AcceptedTasks, DeclaredEffects, TicketFault, TicketList;
    if approvals != [] {
      var t, rest := approvals[0], approvals[1..];
      TicketFaultExactly(p, t, seen, c, parse);
      ApprovalListExactly(p, rest, seen + {t.ticketID}, c, parse);
      var ids := TicketIDList(approvals);
      assert ids[1..] == TicketIDList(rest);
      if p.DuplicateTicket? {
        RepeatsStep(ids, p.id, seen, seen + {t.ticketID});
      }
      hide Repeats;
      assert forall x :: x in approvals <==> x == t || x in rest;
    }
  }

  ghost predicate ApprovalFault(p: Problem, c: Contract, parse: string -> Option<int>) {
    || (exists t :: t in c.approvals && TicketFault(p, t, c, parse))
    || (p.DuplicateTicket?
        && exists i, j :: 0 <= i < j < |c.approvals| && c.approvals[i].ticketID == c.approvals[j].ticketID == p.id)
  }

  lemma {:induction false} ApprovalFaultExactly(p: Problem, c: Contract, parse: string -> Option<int>)
    ensures p in ApprovalPart(c, parse) <==> ApprovalFault(p, c, parse)
  {
    ApprovalListExactly(p, c.approvals, {}, c, parse);
    hide TicketFault, AcceptedTasks, DeclaredEffects, ApprovalList;
    if p.DuplicateTicket? {
      var ids := TicketIDList(c.approvals);
      RepeatsAtFirst(ids, p.id);
      assert forall i :: 0 <= i < |ids| ==> ids[i] == c.approvals[i].ticketID;
    }
  }

  // ----- dependencies and the evaluator -----

  lemma {:induction false} DepsExactly(p: Problem, t: Task, from: nat, ids: set<string>)
    requires from <= |t.dependsOn|
    ensures p in UnknownDeps(t, from, ids) <==>
              exists k :: from <= k < |t.dependsOn| && t.dependsOn[k] !in ids && p == UnknownDependency(t.id, t.dependsOn[k])
    decreases |t.dependsOn| - from
  {
    if from < |t.dependsOn| {
      DepsExactly(p, t, from + 1, ids);
    }
  }

  ghost predicate DependencyFault(p: Problem, tasks: seq<Task>, ids: set<string>) {
    exists t, d :: t in tasks && d in t.dependsOn && d !in ids && p == UnknownDependency(t.id, d)
  }

  lemma {:induction false} DependencyListExactly(p: Problem, tasks: seq<Task>, ids: set<string>)
    ensures p in DependencyList(tasks, ids) <==> DependencyFault(p, tasks, ids)
  {
    if tasks != [] {
      DepsExactly(p, tasks[0], 0, ids);
      DependencyListExactly(p, tasks[1..], ids);
      assert forall x :: x in tasks <==> x == tasks[0] || x in tasks[1..];
      if DependencyFault(p, tasks, ids) {
        var t, d :| t in tasks && d in t.dependsOn && d !in ids && p == UnknownDependency(t.id, d);
        if t == tasks[0] {
          var k :| 0 <= k < |t.dependsOn| && t.dependsOn[k] == d;
        }
      }
    }
  }

  lemma {:induction false} EvaluatorListExactly(p: Problem, ids: seq<string>, known: set<string>)
    ensures p in EvaluatorList(ids, known) <==> exists id :: id in ids && id !in known && p == EvaluatorUnknownObligation(id)
  {
    if ids != [] {
      EvaluatorListExactly(p, ids[1..], known);
      assert forall x :: x in ids <==> x == ids[0] || x in ids[1..];
    }
  }

  // ----- the whole contract -----

  /** What is wrong with a contract, apart from what the evaluator misses. */
  ghost predicate OrderedFault(p: Problem, c: Contract, oracle: Oracle) {
    || HeaderFault(p, c) || ObligationFault(p, c) || TaskFault(p, c, oracle.taskSchemaOk) || ApprovalFault(p, c, oracle.parse)
    || DependencyFault(p, c.tasks, KnownTasks(c))
    || (p.DependencyCycle? && HasClosedWalk(DependencyMap(c.tasks)))
    || (exists id :: id in c.evaluatorObligations && id !in KnownObligations(c) && p == EvaluatorUnknownObligation(id))
  }

  /** The evaluator does not look at a required obligation. */
  ghost predicate MissedFault(p: Problem, c: Contract) {
    && p.EvaluatorMissesRequired? && p.id !in c.evaluatorObligations
    && exists i: nat :: Counts(c.obligations, i) && c.obligations[i].required && c.obligations[i].id == p.id
  }

  ghost predicate Fault(p: Problem, c: Contract, oracle: Oracle) {
    OrderedFault(p, c, oracle) || MissedFault(p, c)
  }

  lemma {:induction false} InParts(p: Problem, c: Contract, oracle: Oracle)
    ensures p in OrderedProblems(c, oracle) <==>
              || p in HeaderList(c) || p in ObligationPart(c) || p in TaskPart(c, oracle.taskSchemaOk)
              || p in ApprovalPart(c, oracle.parse) || p in DependencyPart(c) || p in CyclePart(c) || p in EvaluatorPart(c)
  {
    hide HeaderList, ObligationPart, TaskPart, ApprovalPart, DependencyPart, CyclePart, EvaluatorPart;
  }

  lemma {:induction false} OrderedExactly(p: Problem, c: Contract, oracle: Oracle)
    ensures p in OrderedProblems(c, oracle) <==> OrderedFault(p, c, oracle)
  {
    InParts(p, c, oracle);
    HeaderFaultExactly(p, c);
    ObligationFaultExactly(p, c);
    TaskFaultExactly(p, c, oracle.taskSchemaOk);
    ApprovalFaultExactly(p, c, oracle.parse);
    KnownTasksExactly(c);
    DependencyListExactly(p, c.tasks, KnownTasks(c));
    AcceptedExactly(c.obligations, {});
    EvaluatorListExactly(p, c.evaluatorObligations, KnownObligations(c));
    LastParts(p, c);
    hide OrderedProblems, HeaderList, ObligationPart, TaskPart, ApprovalPart, DependencyPart, CyclePart, EvaluatorPart,
      HeaderFault, ObligationFault, TaskFault, ApprovalFault, DependencyFault, HasClosedWalk, KnownTasks, KnownObligations,
      AcceptedObligations, AcceptedTasks, EvaluatorList, DependencyList;
  }

  lemma {:induction false} LastParts(p: Problem, c: Contract)
    ensures DependencyPart(c) == DependencyList(c.tasks, AcceptedTasks(c.tasks, map[]).Keys)
    ensures p in CyclePart(c) <==> p.DependencyCycle? && HasClosedWalk(DependencyMap(c.tasks))
    ensures EvaluatorPart(c) == EvaluatorList(c.evaluatorObligations, AcceptedObligations(c.obligations, {}))
    ensures AcceptedObligations(c.obligations, {}) == KnownObligations(c)
  {
    AcceptedExactly(c.obligations, {});
    hide HasClosedWalk, GoodID, DependencyList, EvaluatorList, AcceptedTasks, AcceptedObligations;
  }

  lemma {:induction false} MissedExactly(c: Contract, id: string)
    ensures id in MissingRequired(c) <==> MissedFault(EvaluatorMissesRequired(id), c)
  {
    RequiredExactly(c.obligations, {}, id);
    hide Counts, RequiredObligations;
    assert forall i: nat :: CountsFrom(c.obligations, i, {}) <==> Counts(c.obligations, i);
  }

  lemma {:induction false} MissedIsMissed(p: Problem, c: Contract)
    ensures MissedFault(p, c) ==> p.EvaluatorMissesRequired? && p == EvaluatorMissesRequired(p.id)
  {
    hide Counts;
  }

  lemma {:induction false} InTail(p: Problem, ordered: seq<Problem>, diagnostics: seq<Problem>, missing: set<string>)
    requires ordered <= diagnostics && Lint.Enumerates(diagnostics[|ordered|..], missing)
    ensures p in diagnostics <==> p in ordered || (p.EvaluatorMissesRequired? && p.id in missing)
  {
    var tail := diagnostics[|ordered|..];
    assert diagnostics == ordered + tail;
    if p in tail {
      var i :| 0 <= i < |tail| && tail[i] == p;
    }
  }

  /** Linting reports exactly what is wrong with the contract, the schema of its tasks aside. */
  lemma {:induction false} LintExactly(p: Problem, c: Contract, parse: string -> Option<int>, diagnostics: seq<Problem>)
    requires Lint.AllProblems(c, parse, diagnostics)
    ensures p in diagnostics <==> Fault(p, c, Oracle(Lint.AnySchema, parse))
  {
    hide OrderedProblems, OrderedFault, MissingRequired, MissedFault, Lint.Enumerates;
    var oracle := Oracle(Lint.AnySchema, parse);
    InTail(p, OrderedProblems(c, oracle), diagnostics, MissingRequired(c));
    OrderedExactly(p, c, oracle);
    MissedIsMissed(p, c);
    if p.EvaluatorMissesRequired? {
      MissedExactly(c, p.id);
    }
  }
}
