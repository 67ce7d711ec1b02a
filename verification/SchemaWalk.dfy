/** The walk over a schema's subschemas and the paths it reports. */
module SchemaWalk {
  import opened Text
  import opened JsonValue
  import opened JsonPointer

  /** The keywords that hold subschemas: in an object by name, directly, or in a list. */
  datatype Vocabulary = Vocabulary(maps: seq<string>, singles: seq<string>, lists: seq<string>)

  const DRAFT: Vocabulary := Vocabulary(
    ["properties", "patternProperties", "$defs"],
    ["additionalProperties", "unevaluatedProperties", "items", "contains", "unevaluatedItems", "not", "if", "then", "else"],
    ["prefixItems", "allOf", "anyOf", "oneOf"])

  /** No keyword is empty or of two kinds. */
  ghost predicate Coherent(voc: Vocabulary) {
    && (forall k :: k in voc.maps ==> k != "" && k !in voc.singles && k !in voc.lists)
    && (forall k :: k in voc.singles ==> k != "" && k !in voc.lists)
    && (forall k :: k in voc.lists ==> k != "")
  }

  lemma {:induction false} DraftIsCoherent()
    ensures Coherent(DRAFT)
  {
  }

  /** One move of the walk: the path segments it adds, the subschema, and whether it stays inside objects. */
  datatype Step = Step(segments: seq<string>, child: Json, plain: bool)

  predicate IsMember(value: Json, s: Step) {
    && value.Obj? && |s.segments| == 2 && s.segments[1] in value.fields
    && s.child == value.fields[s.segments[1]] && s.plain
  }

  predicate IsSingle(value: Json, s: Step) {
    |s.segments| == 1 && s.child == value && s.plain
  }

  predicate IsItem(value: Json, s: Step) {
    && value.Arr? && |s.segments| == 2 && !s.plain
    && exists i :: 0 <= i < |value.items| && s.segments[1] == Digits(i) && s.child == value.items[i]
  }

  predicate IsStep(voc: Vocabulary, node: Json, s: Step) {
    && node.Obj? && s.segments != [] && s.segments[0] in node.fields
    && var kw, value := s.segments[0], node.fields[s.segments[0]];
       || (kw in voc.maps && IsMember(value, s))
       || (kw in voc.singles && IsSingle(value, s))
       || (kw in voc.lists && IsItem(value, s))
  }

  /** These steps lead the walk from `node` to `target`. */
  predicate IsWalk(voc: Vocabulary, node: Json, steps: seq<Step>, target: Json)
    decreases |steps|
  {
    && node.Obj?
    && if steps == [] then target == node
       else IsStep(voc, node, steps[0]) && IsWalk(voc, steps[0].child, steps[1..], target)
  }

  function Segments(steps: seq<Step>): seq<string> {
    if steps == [] then [] else steps[0].segments + Segments(steps[1..])
  }

  predicate AllPlain(steps: seq<Step>) {
    forall i :: 0 <= i < |steps| ==> steps[i].plain
  }

  // ----- reported paths resolve -----

  lemma {:induction false} RfcFollowConcat(v: Json, a: seq<string>, b: seq<string>)
    ensures RfcFollow(v, a + b) == match RfcFollow(v, a) case None => None case Some(next) => RfcFollow(next, b)
    decreases |a|
  {
    if a == [] {
      assert a + b == b;
    } else {
      assert (a + b)[0] == a[0] && (a + b)[1..] == a[1..] + b;
      match RfcStep(v, a[0])
      case None =>
      case Some(next) => RfcFollowConcat(next, a[1..], b);
    }
  }

  lemma {:induction false} FollowConcat(v: Json, a: seq<string>, b: seq<string>)
    ensures Follow(v, a + b) == match Follow(v, a) case None => None case Some(next) => Follow(next, b)
    decreases |a|
  {
    if a == [] {
      assert a + b == b;
    } else {
      assert (a + b)[0] == a[0] && (a + b)[1..] == a[1..] + b;
      if v.Obj? && a[0] in v.fields {
        FollowConcat(v.fields[a[0]], a[1..], b);
      }
    }
  }

  lemma {:induction false} IndexFound(items: seq<Json>, i: nat, n: nat)
    requires i < n <= |items|
    ensures IndexStep(items, Digits(i), n) == Some(items[i])
  {
    if Digits(n - 1) == Digits(i) {
      DigitsInjective(n - 1, i);
    } else {
      IndexFound(items, i, n - 1);
    }
  }

  lemma {:induction false} FollowOne(v: Json, tokens: seq<string>)
    requires |tokens| == 1
    ensures RfcFollow(v, tokens) == RfcStep(v, tokens[0])
    ensures Follow(v, tokens) == if v.Obj? then RfcStep(v, tokens[0]) else None
  {
    assert tokens[1..] == [];
  }

  lemma {:induction false} FollowTwo(v: Json, tokens: seq<string>)
    requires |tokens| == 2 && v.Obj? && tokens[0] in v.fields
    ensures var value := v.fields[tokens[0]];
            && RfcFollow(v, tokens) == RfcStep(value, tokens[1])
            && Follow(v, tokens) == if value.Obj? then RfcStep(value, tokens[1]) else None
  {
    var value := v.fields[tokens[0]];
    FollowOne(value, tokens[1..]);
    assert RfcFollow(v, tokens) == RfcFollow(value, tokens[1..]);
    assert Follow(v, tokens) == Follow(value, tokens[1..]);
  }

  lemma {:induction false} StepResolves(voc: Vocabulary, node: Json, s: Step)
    requires IsStep(voc, node, s)
    ensures RfcFollow(node, s.segments) == Some(s.child)
    ensures Follow(node, s.segments) == if s.plain then Some(s.child) else None
  {
    var value := node.fields[s.segments[0]];
    if IsSingle(value, s) {
      assert s.segments[1..] == [];
    } else {
      FollowTwo(node, s.segments);
      if IsItem(value, s) {
        var i :| 0 <= i < |value.items| && s.segments[1] == Digits(i) && s.child == value.items[i];
        IndexFound(value.items, i, |value.items|);
      }
    }
  }

  lemma {:induction false} WalkResolves(voc: Vocabulary, node: Json, steps: seq<Step>, target: Json)
    requires IsWalk(voc, node, steps, target)
    ensures RfcFollow(node, Segments(steps)) == Some(target)
    ensures Follow(node, Segments(steps)) == if AllPlain(steps) then Some(target) else None
    decreases |steps|
  {
    if steps != [] {
      StepResolves(voc, node, steps[0]);
      WalkResolves(voc, steps[0].child, steps[1..], target);
      RfcFollowConcat(node, steps[0].segments, Segments(steps[1..]));
      FollowConcat(node, steps[0].segments, Segments(steps[1..]));
      assert AllPlain(steps) <==> steps[0].plain && AllPlain(steps[1..]) by {
        assert forall i :: 0 <= i < |steps| - 1 ==> steps[1..][i] == steps[i + 1];
        assert steps == [steps[0]] + steps[1..];
      }
    }
  }

  /** Every reported path is an RFC 6901 pointer to the visited node, and the repository's own resolver finds it
      exactly when the walk got there through object keywords only: it does not enter arrays. */
  lemma {:induction false} ReportedPathResolves(voc: Vocabulary, root: Json, steps: seq<Step>, target: Json)
    requires Coherent(voc) && IsWalk(voc, root, steps, target)
    ensures PathJoin("#", Segments(steps)) == "#" + Pointer(Segments(steps))
    ensures RfcResolve(root, Pointer(Segments(steps))) == Some(target)
    ensures Resolve(root, Pointer(Segments(steps))) == if AllPlain(steps) then Some(target) else None
  {
    PathJoinIsPointer("#", Segments(steps));
    WalkResolves(voc, root, steps, target);
    if steps != [] {
      assert Segments(steps)[0] == steps[0].segments[0] != "";
    }
    ResolveOfPointer(root, Segments(steps));
  }

  /** So it is for the keywords that the repository walks. */
  lemma {:induction false} DraftPathResolves(root: Json, steps: seq<Step>, target: Json)
    requires IsWalk(DRAFT, root, steps, target)
    ensures RfcResolve(root, Pointer(Segments(steps))) == Some(target)
    ensures Resolve(root, Pointer(Segments(steps))) == if AllPlain(steps) then Some(target) else None
  {
    DraftIsCoherent();
    hide Coherent, IsWalk;
    ReportedPathResolves(DRAFT, root, steps, target);
  }

  // ----- the walk -----

  /** What the visit callback is given. */
  datatype Visit = Visit(path: string, node: Json)

  ghost predicate Reported(voc: Vocabulary, path: string, node: Json, v: Visit) {
    exists steps :: IsWalk(voc, node, steps, v.node) && v.path == PathJoin(path, Segments(steps))
  }

  ghost predicate ReportedBy(voc: Vocabulary, path: string, s: Step, v: Visit) {
    Reported(voc, PathJoin(path, s.segments), s.child, v)
  }

  ghost predicate ReportedUnder(voc: Vocabulary, path: string, node: Json, kw: string, v: Visit) {
    exists s :: IsStep(voc, node, s) && s.segments[0] == kw && ReportedBy(voc, path, s, v)
  }

  lemma {:induction false} PathJoinConcat(path: string, a: seq<string>, b: seq<string>)
    ensures PathJoin(path, a + b) == PathJoin(PathJoin(path, a), b)
    decreases |a|
  {
    if a == [] {
      assert a + b == b;
    } else {
      assert (a + b)[0] == a[0] && (a + b)[1..] == a[1..] + b;
      PathJoinConcat(path + "/" + EscapeSegment(a[0]), a[1..], b);
    }
  }

  lemma {:induction false} ReportedExactly(voc: Vocabulary, path: string, node: Json, v: Visit)
    requires node.Obj?
    ensures Reported(voc, path, node, v) <==>
            v == Visit(path, node) || exists kw :: ReportedUnder(voc, path, node, kw, v)
  {
    if Reported(voc, path, node, v) {
      var steps: seq<Step> :| IsWalk(voc, node, steps, v.node) && v.path == PathJoin(path, Segments(steps));
      if steps != [] {
        PathJoinConcat(path, steps[0].segments, Segments(steps[1..]));
        assert ReportedBy(voc, path, steps[0], v);
        assert ReportedUnder(voc, path, node, steps[0].segments[0], v);
      }
    }
    if v == Visit(path, node) {
      assert IsWalk(voc, node, [], node) && PathJoin(path, Segments([])) == path;
    }
    if kw :| ReportedUnder(voc, path, node, kw, v) {
      var s :| IsStep(voc, node, s) && s.segments[0] == kw && ReportedBy(voc, path, s, v);
      ExtendWalk(voc, path, node, s, v);
    }
  }

  lemma {:induction false} ExtendWalk(voc: Vocabulary, path: string, node: Json, s: Step, v: Visit)
    requires IsStep(voc, node, s) && ReportedBy(voc, path, s, v)
    ensures Reported(voc, path, node, v)
  {
    var rest: seq<Step> :| IsWalk(voc, s.child, rest, v.node) && v.path == PathJoin(PathJoin(path, s.segments), Segments(rest));
    var steps := [s] + rest;
    assert steps[1..] == rest;
    PathJoinConcat(path, s.segments, Segments(rest));
    assert IsWalk(voc, node, steps, v.node);
  }

  function MemberStep(members: map<string, Json>, kw: string, name: string): Step
    requires name in members
  {
    Step([kw, name], members[name], true)
  }

  method WalkMembers(voc: Vocabulary, path: string, node: Json, kw: string) returns (visits: seq<Visit>)
    requires Coherent(voc) && node.Obj? && kw in voc.maps
    ensures forall v :: v in visits <==> ReportedUnder(voc, path, node, kw, v)
    decreases node, 0
  {
    visits := [];
    if kw !in node.fields || !node.fields[kw].Obj? {
      return;
    }
    var members := node.fields[kw].fields;
    var left := members.Keys;
    while left != {}
      invariant left <= members.Keys
      invariant forall v :: v in visits <==>
                  exists name :: name in members && name !in left && ReportedBy(voc, path, MemberStep(members, kw, name), v)
      decreases |left|
    {
      var name :| name in left;
      var more := WalkSchema(voc, PathJoin(path, [kw, name]), members[name]);
      assert forall v :: v in more <==> ReportedBy(voc, path, MemberStep(members, kw, name), v);
      visits, left := visits + more, left - {name};
    }
    forall v ensures v in visits <==> ReportedUnder(voc, path, node, kw, v) {
      MembersReport(voc, path, node, kw, v);
    }
  }

  lemma {:induction false} MembersReport(voc: Vocabulary, path: string, node: Json, kw: string, v: Visit)
    requires Coherent(voc) && node.Obj? && kw in voc.maps && kw in node.fields && node.fields[kw].Obj?
    ensures var members := node.fields[kw].fields;
            ReportedUnder(voc, path, node, kw, v) <==>
            exists name :: name in members && ReportedBy(voc, path, MemberStep(members, kw, name), v)
  {
    var members := node.fields[kw].fields;
    if name :| name in members && ReportedBy(voc, path, MemberStep(members, kw, name), v) {
      assert IsStep(voc, node, MemberStep(members, kw, name));
    }
    if s :| IsStep(voc, node, s) && s.segments[0] == kw && ReportedBy(voc, path, s, v) {
      assert s == MemberStep(members, kw, s.segments[1]);
    }
  }

  method WalkSingle(voc: Vocabulary, path: string, node: Json, kw: string) returns (visits: seq<Visit>)
    requires Coherent(voc) && node.Obj? && kw in voc.singles
    ensures forall v :: v in visits <==> ReportedUnder(voc, path, node, kw, v)
    decreases node, 0
  {
    visits := [];
    if kw in node.fields {
      visits := WalkSchema(voc, PathJoin(path, [kw]), node.fields[kw]);
      forall v ensures v in visits <==> ReportedUnder(voc, path, node, kw, v) {
        SingleReports(voc, path, node, kw, v);
      }
    }
  }

  lemma {:induction false} SingleReports(voc: Vocabulary, path: string, node: Json, kw: string, v: Visit)
    requires Coherent(voc) && node.Obj? && kw in voc.singles && kw in node.fields
    ensures ReportedUnder(voc, path, node, kw, v) <==> ReportedBy(voc, path, Step([kw], node.fields[kw], true), v)
  {
    var only := Step([kw], node.fields[kw], true);
    assert IsStep(voc, node, only);
    if s :| IsStep(voc, node, s) && s.segments[0] == kw && ReportedBy(voc, path, s, v) {
      assert s == only;
    }
  }

  function ItemStep(children: seq<Json>, kw: string, i: nat): Step
    requires i < |children|
  {
    Step([kw, Digits(i)], children[i], false)
  }

  method WalkList(voc: Vocabulary, path: string, node: Json, kw: string) returns (visits: seq<Visit>)
    requires Coherent(voc) && node.Obj? && kw in voc.lists
    ensures forall v :: v in visits <==> ReportedUnder(voc, path, node, kw, v)
    decreases node, 0
  {
    visits := [];
    if kw !in node.fields || !node.fields[kw].Arr? {
      return;
    }
    var children := node.fields[kw].items;
    for index := 0 to |children|
      invariant forall v :: v in visits <==>
                  exists i :: 0 <= i < index && ReportedBy(voc, path, ItemStep(children, kw, i), v)
    {
      var more := WalkSchema(voc, PathJoin(path, [kw, Digits(index)]), children[index]);
      assert forall v :: v in more <==> ReportedBy(voc, path, ItemStep(children, kw, index), v);
      visits := visits + more;
    }
    forall v ensures v in visits <==> ReportedUnder(voc, path, node, kw, v) {
      ListReports(voc, path, node, kw, v);
    }
  }

  lemma {:induction false} ListReports(voc: Vocabulary, path: string, node: Json, kw: string, v: Visit)
    requires Coherent(voc) && node.Obj? && kw in voc.lists && kw in node.fields && node.fields[kw].Arr?
    ensures var children := node.fields[kw].items;
            ReportedUnder(voc, path, node, kw, v) <==>
            exists i :: 0 <= i < |children| && ReportedBy(voc, path, ItemStep(children, kw, i), v)
  {
    var children := node.fields[kw].items;
    if i :| 0 <= i < |children| && ReportedBy(voc, path, ItemStep(children, kw, i), v) {
      assert IsItem(node.fields[kw], ItemStep(children, kw, i));
      assert IsStep(voc, node, ItemStep(children, kw, i));
    }
    if s :| IsStep(voc, node, s) && s.segments[0] == kw && ReportedBy(voc, path, s, v) {
      var i :| 0 <= i < |children| && s.segments[1] == Digits(i) && s.child == children[i];
      assert s == ItemStep(children, kw, i);
    }
  }

  ghost predicate ReportedUnderSome(voc: Vocabulary, path: string, node: Json, keywords: seq<string>, v: Visit) {
    exists i :: 0 <= i < |keywords| && ReportedUnder(voc, path, node, keywords[i], v)
  }

  lemma {:induction false} KeywordsCover(voc: Vocabulary, path: string, node: Json, v: Visit)
    ensures (exists kw :: ReportedUnder(voc, path, node, kw, v)) <==>
            || ReportedUnderSome(voc, path, node, voc.maps, v)
            || ReportedUnderSome(voc, path, node, voc.singles, v)
            || ReportedUnderSome(voc, path, node, voc.lists, v)
  {
    if kw :| ReportedUnder(voc, path, node, kw, v) {
      assert kw in voc.maps || kw in voc.singles || kw in voc.lists;
    }
  }

  /** Visits every subschema and nothing else, each with its own path. */
  method WalkSchema(voc: Vocabulary, path: string, node: Json) returns (visits: seq<Visit>)
    requires Coherent(voc)
    ensures forall v :: v in visits <==> Reported(voc, path, node, v)
    decreases node
  {
    if !node.Obj? {
      return [];
    }
    hide Reported, ReportedUnder, Coherent;
    visits := [Visit(path, node)];
    for i := 0 to |voc.maps|
      invariant forall v :: v in visits <==> v == Visit(path, node) || ReportedUnderSome(voc, path, node, voc.maps[..i], v)
    {
      var more := WalkMembers(voc, path, node, voc.maps[i]);
      visits := visits + more;
      OneMore(voc, path, node, voc.maps, i);
    }
    ghost var byMap := visits;
    for i := 0 to |voc.singles|
      invariant forall v :: v in visits <==> v in byMap || ReportedUnderSome(voc, path, node, voc.singles[..i], v)
    {
      var more := WalkSingle(voc, path, node, voc.singles[i]);
      visits := visits + more;
      OneMore(voc, path, node, voc.singles, i);
    }
    ghost var bySingle := visits;
    for i := 0 to |voc.lists|
      invariant forall v :: v in visits <==> v in bySingle || ReportedUnderSome(voc, path, node, voc.lists[..i], v)
    {
      var more := WalkList(voc, path, node, voc.lists[i]);
      visits := visits + more;
      OneMore(voc, path, node, voc.lists, i);
    }
    assert voc.maps[..|voc.maps|] == voc.maps && voc.singles[..|voc.singles|] == voc.singles
        && voc.lists[..|voc.lists|] == voc.lists;
    forall v ensures v in visits <==> Reported(voc, path, node, v) {
      ReportedExactly(voc, path, node, v);
      KeywordsCover(voc, path, node, v);
    }
  }

  lemma {:induction false} OneMore(voc: Vocabulary, path: string, node: Json, keywords: seq<string>, i: nat)
    requires i < |keywords|
    ensures forall v :: ReportedUnderSome(voc, path, node, keywords[..i + 1], v) <==>
              ReportedUnderSome(voc, path, node, keywords[..i], v) || ReportedUnder(voc, path, node, keywords[i], v)
  {
    var more := keywords[..i + 1];
    forall v ensures ReportedUnderSome(voc, path, node, more, v) <==>
                ReportedUnderSome(voc, path, node, keywords[..i], v) || ReportedUnder(voc, path, node, keywords[i], v)
    {
      if ReportedUnder(voc, path, node, keywords[i], v) {
        assert more[i] == keywords[i];
      }
      if k :| 0 <= k < i && ReportedUnder(voc, path, node, keywords[..i][k], v) {
        assert more[k] == keywords[..i][k];
      }
    }
  }
}
