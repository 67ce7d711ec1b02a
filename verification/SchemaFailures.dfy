/** Schemas on which the schema_version analyses promise more than the standard keeps, or see less than it asks. */
module SchemaFailures {
  import opened Text
  import opened JsonValue
  import opened JsonPointer
  import opened SchemaVersion
  import opened SchemaEval
  import opened SchemaExact

  const EMPTY := Obj(map[])

  /** The names in the schemas of this module. */
  const USED: set<string> :=
    {REF, ALL, ANY, ONE, PROPERTIES, REQUIRED, CONST, ID, ANCHOR, FIELD, "$defs", "a", "x", "%61"}

  /** The dialect has no other meaning for these names. */
  predicate Plain(d: Dialect) {
    d.unread !! USED
  }

  /** The draft has none. */
  lemma {:induction false} DraftIsPlain(num: Number)
    ensures Plain(Dialect(num, UNREAD))
  {
  }

  function One(key: string, v: Json): Json {
    Obj(map[key := v])
  }

  function RequiresFieldNode(): Json {
    One(REQUIRED, Arr([Str(FIELD)]))
  }

  function ConstNode(id: string): Json {
    One(PROPERTIES, One(FIELD, One(CONST, Str(id))))
  }

  // ----- evaluating small nodes -----

  lemma {:induction false} EmptyAccepts(d: Dialect, home: Json, x: Json, seen: set<(Json, Json)>)
    ensures Eval(d, home, EMPTY, x, seen) == Some(true)
  {
  }

  lemma {:induction false} RequiresFieldAnswers(d: Dialect, home: Json, x: Json, seen: set<(Json, Json)>)
    requires x.Obj? && Plain(d)
    ensures Eval(d, home, RequiresFieldNode(), x, seen) == Some(FIELD in x.fields)
  {
    var n := RequiresFieldNode();
    assert Assertions(d, n, x) == Some(FIELD in x.fields) by {
      assert n.fields[REQUIRED].items[0] == Str(FIELD);
    }
  }

  lemma {:induction false} ConstAnswers(d: Dialect, home: Json, id: string, x: Json, seen: set<(Json, Json)>)
    requires x.Obj? && Plain(d)
    ensures Eval(d, home, ConstNode(id), x, seen) == Some(HasField(x) ==> Carries(x, id))
  {
    var n, e := ConstNode(id), One(CONST, Str(id));
    assert n.fields[PROPERTIES].fields[FIELD] == e && e.fields.Keys !! d.unread && n.fields.Keys !! d.unread;
    if HasField(x) {
      assert Shared(n, x) == {FIELD};
      LeafExactly(d, home, e, x.fields[FIELD]);
      assert Members(d, home, n, x, seen) == Some(Same(d.num, Str(id), x.fields[FIELD]));
    } else {
      assert Shared(n, x) == {};
      assert Members(d, home, n, x, seen) == Some(true);
    }
  }

  lemma {:induction false} PairCounts(d: Dialect, home: Json, n: Json, keyword: string, x: Json)
    requires |Children(n, keyword)| == 2
    requires Eval(d, home, Children(n, keyword)[0], x, {}).Some? && Eval(d, home, Children(n, keyword)[1], x, {}).Some?
    ensures var left, right := Eval(d, home, Children(n, keyword)[0], x, {}).value, Eval(d, home, Children(n, keyword)[1], x, {}).value;
            Accepting(d, home, n, keyword, x, {}, 0) == Some((if left then 1 else 0) + (if right then 1 else 0))
  {
    hide Eval;
    assert Accepting(d, home, n, keyword, x, {}, 2) == Some(0);
    assert Accepting(d, home, n, keyword, x, {}, 1).Some?;
  }

  /** A node that has this list keyword and none of the others says what the list says. */
  lemma {:induction false} OnlyList(d: Dialect, home: Json, n: Json, keyword: string, x: Json)
    requires keyword == ALL || keyword == ANY
    requires n.Obj? && keyword in n.fields && Home(home, n) == home && Accepting(d, home, n, keyword, x, {}, 0).Some?
    requires n.fields.Keys !! {REF, ALL, ANY, ONE, PROPERTIES, REQUIRED, CONST} - {keyword} && n.fields.Keys !! d.unread
    ensures Eval(d, home, n, x, {}) == Listed(n, keyword, Accepting(d, home, n, keyword, x, {}, 0))
  {
    hide Left, StdTarget, Same;
    assert Assertions(d, n, x) == Some(true);
    assert Members(d, home, n, x, {}) == Some(true);
  }

  /** A node with a list of two and nothing else. */
  lemma {:induction false} PairAnswers(d: Dialect, home: Json, keyword: string, a: Json, b: Json, x: Json)
    requires (keyword == ALL || keyword == ANY) && Plain(d)
    requires Eval(d, home, a, x, {}).Some? && Eval(d, home, b, x, {}).Some?
    ensures var left, right := Eval(d, home, a, x, {}).value, Eval(d, home, b, x, {}).value;
            Eval(d, home, One(keyword, Arr([a, b])), x, {}) == Some(if keyword == ALL then left && right else left || right)
  {
    hide Eval, Accepting;
    var n := One(keyword, Arr([a, b]));
    assert Children(n, keyword) == [a, b];
    PairCounts(d, home, n, keyword, x);
    OnlyList(d, home, n, keyword, x);
  }

  // ----- a const behind alternatives -----

  function ChoiceNode(id: string): Json {
    One(ANY, Arr([ConstNode(id), EMPTY]))
  }

  function HiddenConst(id: string): Json {
    One(ALL, Arr([RequiresFieldNode(), ChoiceNode(id)]))
  }

  function Versioned(id: string): Json {
    One(FIELD, Str(id))
  }

  lemma {:induction false} ConstIsFound(id: string, root: Json)
    ensures FirstConst(ChoiceNode(id), root, {}) == Some(id)
  {
    var n := ChoiceNode(id);
    assert Children(n, ANY) == [ConstNode(id), EMPTY] && Children(n, ALL) == Children(n, ONE) == [];
    assert FirstConst(ConstNode(id), root, {}) == Some(id);
    assert FirstConstFrom(n, ANY, root, {}, 0) == Some(id);
    assert FirstConstFrom(n, ALL, root, {}, 0) == FirstConstFrom(n, ONE, root, {}, 0) == None;
  }

  lemma {:induction false} HiddenConstReported(id: string)
    ensures RequiresVersion(HiddenConst(id), id, HiddenConst(id), {})
  {
    var root := HiddenConst(id);
    var children := Children(root, ALL);
    assert children == [RequiresFieldNode(), ChoiceNode(id)];
    assert RequiresField(children[0], root, {});
    ConstIsFound(id, root);
    assert FirstConst(children[1], root, {}) == Some(id);
    assert RuleTwo(root, id, root, {});
  }

  lemma {:induction false} FlatOne(key: string, v: Json)
    requires FlatNode(One(key, v)) && Flat(v)
    ensures Flat(One(key, v))
  {
    var o := One(key, v);
    assert o.fields[key] == v;
    forall n | n in Parts(o) ensures FlatNode(n) {
      if n != o {
        assert n in Parts(v);
      }
    }
  }

  lemma {:induction false} FlatPair(a: Json, b: Json)
    requires Flat(a) && Flat(b)
    ensures Flat(Arr([a, b]))
  {
    forall n | n in Parts(Arr([a, b])) ensures FlatNode(n) {
      assert n == Arr([a, b]) || n in Parts([a, b][0]) || n in Parts([a, b][1]);
    }
  }

  /** The schema is one of those whose analyses a finite set of instances decides. */
  lemma {:induction false} HiddenConstIsFlat(id: string)
    ensures Flat(HiddenConst(id))
  {
    assert Flat(Str(id)) && Flat(EMPTY);
    FlatOne(CONST, Str(id));
    FlatOne(FIELD, One(CONST, Str(id)));
    FlatOne(PROPERTIES, One(FIELD, One(CONST, Str(id))));
    FlatPair(ConstNode(id), EMPTY);
    FlatOne(ANY, Arr([ConstNode(id), EMPTY]));
    FieldNodeIsFlat();
    FlatPair(RequiresFieldNode(), ChoiceNode(id));
    FlatOne(ALL, Arr([RequiresFieldNode(), ChoiceNode(id)]));
  }

  lemma {:induction false} FieldNodeIsFlat()
    ensures Flat(RequiresFieldNode())
  {
    assert Flat(Str(FIELD));
    assert Flat(Arr([Str(FIELD)])) by {
      assert [Str(FIELD)][0] == Str(FIELD);
    }
    FlatOne(REQUIRED, Arr([Str(FIELD)]));
  }

  lemma {:induction false} HiddenConstAnswers(d: Dialect, home: Json, id: string, x: Json)
    requires x.Obj? && Plain(d)
    ensures Eval(d, home, HiddenConst(id), x, {}) == Some(HasField(x))
  {
    EmptyAccepts(d, home, x, {});
    ConstAnswers(d, home, id, x, {});
    PairAnswers(d, home, ANY, ConstNode(id), EMPTY, x);
    RequiresFieldAnswers(d, home, x, {});
    PairAnswers(d, home, ALL, RequiresFieldNode(), ChoiceNode(id), x);
  }

  /** Behind anyOf the const binds nobody: the analysis reports that the schema requires this version, and the
      standard accepts an instance with another one. */
  lemma {:induction false} RuleTwoUnsound(d: Dialect, id: string, other: string)
    requires other != id && Plain(d)
    ensures var root := HiddenConst(id);
            && Flat(root) && Answers(d, root, root) && RequiresVersion(root, id, root, {})
            && Accepts(d, root, root, Versioned(other)) && !Carries(Versioned(other), id)
            && !VersionRight(d, root, root, root, id)
  {
    var root := HiddenConst(id);
    HiddenConstIsFlat(id);
    HiddenConstReported(id);
    forall x: Json | x.Obj? ensures Eval(d, root, root, x, {}) == Some(HasField(x)) {
      HiddenConstAnswers(d, root, id, x);
    }
    hide Eval;
    assert HasField(Versioned(other));
  }

  // ----- a const behind another one -----

  /** A const behind alternatives, and then another one that binds. */
  function TwoConsts(other: string, id: string): Json {
    One(ALL, Arr([ChoiceNode(other), ConstNode(id)]))
  }

  function ShadowedConst(other: string, id: string): Json {
    One(ALL, Arr([RequiresFieldNode(), TwoConsts(other, id)]))
  }

  lemma {:induction false} OtherIsFound(other: string, id: string, root: Json)
    ensures FirstConst(TwoConsts(other, id), root, {}) == Some(other)
  {
    var n := TwoConsts(other, id);
    assert Children(n, ALL) == [ChoiceNode(other), ConstNode(id)];
    ConstIsFound(other, root);
    assert FirstConstFrom(n, ALL, root, {}, 0) == Some(other);
  }

  lemma {:induction false} ConstAlone(id: string, version: string, root: Json)
    ensures !RequiresField(ConstNode(id), root, {}) && !RequiresVersion(ConstNode(id), version, root, {})
  {
    var n := ConstNode(id);
    assert Children(n, ALL) == Children(n, ONE) == Children(n, ANY) == [];
  }

  lemma {:induction false} ChoiceAlone(other: string, version: string, root: Json)
    ensures !RequiresField(ChoiceNode(other), root, {}) && !RequiresVersion(ChoiceNode(other), version, root, {})
  {
    var n := ChoiceNode(other);
    assert Children(n, ANY) == [ConstNode(other), EMPTY] && Children(n, ALL) == Children(n, ONE) == [];
    ConstAlone(other, version, root);
    assert !AllRequireField(n, ANY, root, {}) by {
      assert !RequiresField(Children(n, ANY)[0], root, {});
    }
    assert !AllRequireVersion(n, ANY, version, root, {}) by {
      assert !RequiresVersion(Children(n, ANY)[0], version, root, {});
    }
  }

  /** At a node with allOf alone the answer is that of some child, of all of them, or of rule 2. */
  lemma {:induction false} AllOfDecides(n: Json, children: seq<Json>, version: string, root: Json)
    requires n == One(ALL, Arr(children)) && children != []
    ensures Children(n, ALL) == children
    ensures RequiresVersion(n, version, root, {}) <==>
            SomeRequiresVersion(n, version, root, {}) || RuleTwo(n, version, root, {}) || AllRequireVersion(n, ALL, version, root, {})
  {
    assert Children(n, ALL) == children && Children(n, ONE) == Children(n, ANY) == [];
    hide SomeRequiresVersion, RuleTwo, AllRequireVersion;
    assert LocalRef(n).None? && !DirectVersion(n, version);
  }

  lemma {:induction false} NeitherOfPair(n: Json, a: Json, b: Json, version: string, root: Json)
    requires Children(n, ALL) == [a, b] && !RequiresVersion(a, version, root, {}) && !RequiresVersion(b, version, root, {})
    ensures !SomeRequiresVersion(n, version, root, {}) && !AllRequireVersion(n, ALL, version, root, {})
  {
    hide RequiresVersion, Children;
    assert [a, b][0] == a && [a, b][1] == b;
  }

  lemma {:induction false} RuleTwoOfPair(n: Json, a: Json, b: Json, version: string, root: Json)
    requires Children(n, ALL) == [a, b]
    ensures RuleTwo(n, version, root, {}) <==>
            && (RequiresField(a, root, {}) || RequiresField(b, root, {}))
            && (FirstConst(a, root, {}) == Some(version) || FirstConst(b, root, {}) == Some(version))
  {
    var children := [a, b];
    hide RequiresField, FirstConst, Children;
    assert children[0] == a && children[1] == b;
    assert FieldAmong(children, root, {}) <==> RequiresField(a, root, {}) || RequiresField(b, root, {});
    assert ConstAmong(children, version, root, {}) <==>
           FirstConst(a, root, {}) == Some(version) || FirstConst(b, root, {}) == Some(version);
  }

  lemma {:induction false} PairDecides(n: Json, a: Json, b: Json, version: string, root: Json)
    requires n == One(ALL, Arr([a, b])) && !RequiresVersion(a, version, root, {}) && !RequiresVersion(b, version, root, {})
    ensures RequiresVersion(n, version, root, {}) <==>
            && (RequiresField(a, root, {}) || RequiresField(b, root, {}))
            && (FirstConst(a, root, {}) == Some(version) || FirstConst(b, root, {}) == Some(version))
  {
    hide *;
    AllOfDecides(n, [a, b], version, root);
    NeitherOfPair(n, a, b, version, root);
    RuleTwoOfPair(n, a, b, version, root);
  }

  lemma {:induction false} TwoConstsAlone(other: string, id: string, version: string, root: Json)
    ensures !RequiresVersion(TwoConsts(other, id), version, root, {})
  {
    ChoiceAlone(other, version, root);
    ConstAlone(id, version, root);
    hide RequiresField, RequiresVersion, FirstConst;
    PairDecides(TwoConsts(other, id), ChoiceNode(other), ConstNode(id), version, root);
  }

  lemma {:induction false} FieldAlone(version: string, root: Json)
    ensures RequiresField(RequiresFieldNode(), root, {}) && !RequiresVersion(RequiresFieldNode(), version, root, {})
    ensures FirstConst(RequiresFieldNode(), root, {}).None?
  {
    var n := RequiresFieldNode();
    assert Children(n, ALL) == Children(n, ONE) == Children(n, ANY) == [];
    assert Str(FIELD) in n.fields[REQUIRED].items;
  }

  lemma {:induction false} ShadowedConstReported(other: string, id: string, version: string)
    ensures var root := ShadowedConst(other, id); RequiresVersion(root, version, root, {}) <==> version == other
  {
    var root := ShadowedConst(other, id);
    FieldAlone(version, root);
    TwoConstsAlone(other, id, version, root);
    OtherIsFound(other, id, root);
    hide RequiresField, RequiresVersion, FirstConst;
    PairDecides(root, RequiresFieldNode(), TwoConsts(other, id), version, root);
  }

  lemma {:induction false} ShadowedConstAnswers(d: Dialect, home: Json, other: string, id: string, x: Json)
    requires x.Obj? && Plain(d)
    ensures Eval(d, home, ShadowedConst(other, id), x, {}) == Some(Carries(x, id))
  {
    EmptyAccepts(d, home, x, {});
    ConstAnswers(d, home, other, x, {});
    ConstAnswers(d, home, id, x, {});
    RequiresFieldAnswers(d, home, x, {});
    hide Eval;
    PairAnswers(d, home, ANY, ConstNode(other), EMPTY, x);
    PairAnswers(d, home, ALL, ChoiceNode(other), ConstNode(id), x);
    PairAnswers(d, home, ALL, RequiresFieldNode(), TwoConsts(other, id), x);
  }

  /** The first const found may not be the one that binds: the schema accepts exactly the objects that carry one
      version, and the analysis reports that it requires the other one instead. */
  lemma {:induction false} VersionMissed(d: Dialect, id: string, other: string)
    requires other != id && Plain(d)
    ensures var root := ShadowedConst(other, id);
            && Answers(d, root, root) && BindsVersion(d, root, root, id) && !BindsVersion(d, root, root, other)
            && !RequiresVersion(root, id, root, {}) && RequiresVersion(root, other, root, {})
  {
    var root := ShadowedConst(other, id);
    ShadowedConstReported(other, id, id);
    ShadowedConstReported(other, id, other);
    forall x: Json | x.Obj? ensures Eval(d, root, root, x, {}) == Some(Carries(x, id)) {
      ShadowedConstAnswers(d, root, other, id, x);
    }
    hide Eval, RequiresVersion;
    assert Carries(Versioned(id), id) && !Carries(Versioned(id), other);
  }

  // ----- schemas that ask nothing of anybody -----

  /** When the standard accepts everything, a report that the field is required is wrong. */
  lemma {:induction false} NothingIsAsked(d: Dialect, root: Json)
    requires RequiresField(root, root, {}) && forall x: Json :: Eval(d, root, root, x, {}) == Some(true)
    ensures Answers(d, root, root) && Accepts(d, root, root, EMPTY) && !HasField(EMPTY)
    ensures !FieldRight(d, root, root, root)
  {
    hide RequiresField, Eval;
    assert Accepts(d, root, root, EMPTY);
  }

  /** A reference that the resolver leads to the root's member of this name, which requires the field. */
  lemma {:induction false} MemberReported(root: Json, node: Json, ref: string, name: string)
    requires LocalRef(node) == Some(ref) && (ref[1..] == "/" + name || ref[1..] == name)
    requires name != "" && '/' !in name && '~' !in name
    requires root.Obj? && name in root.fields && root.fields[name] == RequiresFieldNode()
    ensures RequiresField(node, root, {})
  {
    if ref[1..] == "/" + name {
      assert ref[1..][1..] == name;
    } else {
      assert ref[1..][0] == name[0] != '/';
    }
    assert Drop(ref[1..], "/") == name;
    SplitOne(name, '/');
    NoTildeIsItself(name);
    assert UnescapeAll([name]) == [name];
    assert Follow(root, [name]) == Follow(RequiresFieldNode(), []) == Some(RequiresFieldNode());
    assert Target(root, ref) == Some(RequiresFieldNode());
    assert RequiresField(RequiresFieldNode(), root, {} + {ref});
  }

  /** None of the keywords that a reference could share its node with. */
  ghost predicate OnlyRefers(d: Dialect, n: Json) {
    n.Obj? && n.fields.Keys !! {ALL, ANY, ONE, PROPERTIES, REQUIRED, CONST} && n.fields.Keys !! d.unread
  }

  /** A node that has a reference and none of the other keywords says what the reference says. */
  lemma {:induction false} OnlyReference(d: Dialect, home: Json, n: Json, x: Json)
    requires OnlyRefers(d, n) && REF in n.fields && Home(home, n) == home && Reference(d, home, n, x, {}).Some?
    ensures Eval(d, home, n, x, {}) == Reference(d, home, n, x, {})
  {
    hide Left, StdTarget, Same, Reference;
    assert Assertions(d, n, x) == Some(true);
    assert Members(d, home, n, x, {}) == Some(true);
  }

  /** A resource whose reference leads to a node that accepts the instance. */
  lemma {:induction false} ReferenceAnswers(d: Dialect, n: Json, ref: string, target: Json, x: Json)
    requires LocalRef(n) == Some(ref) && StdTarget(n, ref) == Some(target) && Home(n, n) == n
    requires OnlyRefers(d, n)
    requires Eval(d, n, target, x, {(n, Str(ref))}) == Some(true)
    ensures Eval(d, n, n, x, {}) == Some(true)
  {
    hide StdTarget, Same, Left;
    assert {} + {(n, Str(ref))} == {(n, Str(ref))};
    assert Reference(d, n, n, x, {}) == Some(true);
    OnlyReference(d, n, n, x);
  }

  // ----- an anchor -----

  const TARGET := One(ANCHOR, Str("a"))

  /** The reference names an anchor; the root's member of that name requires the field. */
  function AnchorSchema(): Json {
    Obj(map[REF := Str("#a"), "a" := RequiresFieldNode(), "$defs" := One("x", TARGET)])
  }

  lemma {:induction false} OwnOfOne(key: string, v: Json)
    requires !IsResource(v)
    ensures Own(One(key, v)) == {One(key, v)} + Own(v)
  {
    var o := One(key, v);
    assert o.fields[key] == v;
  }

  lemma {:induction false} OwnOfList(v: Json)
    requires !IsResource(v)
    ensures Own(Arr([v])) == {Arr([v])} + Own(v)
  {
    assert [v][0] == v;
  }

  ghost predicate AnchorsOnly(v: Json, name: string, target: Json) {
    forall n :: n in Own(v) && HasAnchor(n, name) ==> n == target
  }

  lemma {:induction false} FieldNodeHasNoAnchor(name: string, target: Json)
    ensures AnchorsOnly(RequiresFieldNode(), name, target) && !IsResource(RequiresFieldNode())
  {
    OwnOfOne(REQUIRED, Arr([Str(FIELD)]));
    OwnOfList(Str(FIELD));
    hide Own;
    assert !HasAnchor(RequiresFieldNode(), name);
  }

  lemma {:induction false} DefinitionHasTheAnchor(key: string, name: string)
    requires key != ANCHOR && key != ID
    ensures var v, target := One(key, One(ANCHOR, Str(name))), One(ANCHOR, Str(name));
            AnchorsOnly(v, name, target) && target in Own(v) && !IsResource(v)
  {
    var target := One(ANCHOR, Str(name));
    OwnOfOne(key, target);
    OwnOfOne(ANCHOR, Str(name));
    hide Own;
    assert !HasAnchor(One(key, target), name);
  }

  lemma {:induction false} OnlyAnchorIsFound(a: string, b: string, c: string, u: Json, v: Json, w: Json, name: string, target: Json)
    requires a != b && a != c && b != c && ANCHOR !in {a, b, c}
    requires AnchorsOnly(u, name, target) && AnchorsOnly(v, name, target) && AnchorsOnly(w, name, target)
    requires target in Own(w) && HasAnchor(target, name) && !IsResource(w)
    ensures Anchored(Obj(map[a := u, b := v, c := w]), name) == Some(target)
  {
    var root := Obj(map[a := u, b := v, c := w]);
    assert root.fields[a] == u && root.fields[b] == v && root.fields[c] == w;
    assert target in Own(root);
    assert !HasAnchor(root, name);
    assert AnchorsOnly(root, name, target);
  }

  lemma {:induction false} AnchorIsTarget()
    ensures Anchored(AnchorSchema(), "a") == Some(TARGET)
  {
    FieldNodeHasNoAnchor("a", TARGET);
    assert "x" != ANCHOR && "x" != ID;
    DefinitionHasTheAnchor("x", "a");
    assert AnchorsOnly(Str("#a"), "a", TARGET);
    assert HasAnchor(TARGET, "a");
    hide RequiresFieldNode, One, IsResource, Own, AnchorsOnly, Anchored, HasAnchor;
    OnlyAnchorIsFound(REF, "a", "$defs", Str("#a"), RequiresFieldNode(), One("x", TARGET), "a", TARGET);
  }

  lemma {:induction false} TargetAccepts(d: Dialect, home: Json, x: Json, seen: set<(Json, Json)>)
    requires Plain(d)
    ensures Eval(d, home, TARGET, x, seen) == Some(true)
  {
    assert TARGET.fields.Keys == {ANCHOR};
  }

  lemma {:induction false} AnchorSchemaReported()
    ensures RequiresField(AnchorSchema(), AnchorSchema(), {})
  {
    assert "#a"[1..] == "a";
    MemberReported(AnchorSchema(), AnchorSchema(), "#a", "a");
  }

  lemma {:induction false} AnchorStep()
    ensures LocalRef(AnchorSchema()) == Some("#a") && StdTarget(AnchorSchema(), "#a") == Some(TARGET)
    ensures Home(AnchorSchema(), AnchorSchema()) == AnchorSchema()
  {
    AnchorIsTarget();
    assert "#a"[1..] == "a";
    PlainDecodesToItself("a");
    hide Anchored;
  }

  lemma {:induction false} AnchorOnlyRefers(d: Dialect)
    requires Plain(d)
    ensures OnlyRefers(d, AnchorSchema())
  {
    assert AnchorSchema().fields.Keys == {REF, "a", "$defs"};
  }

  lemma {:induction false} AnchorAnswers(d: Dialect, x: Json)
    requires Plain(d)
    ensures Eval(d, AnchorSchema(), AnchorSchema(), x, {}) == Some(true)
  {
    var root, target := AnchorSchema(), TARGET;
    AnchorStep();
    AnchorOnlyRefers(d);
    TargetAccepts(d, root, x, {(root, Str("#a"))});
    hide StdTarget, AnchorSchema, Eval, OnlyRefers, Plain, Home, LocalRef;
    ReferenceAnswers(d, root, "#a", target, x);
  }

  /** "#a" names an anchor, not the root's member "a": the analysis follows it there and reports that the field is
      required, and the standard accepts an instance without it. */
  lemma {:induction false} AnchorUnsound(d: Dialect)
    requires Plain(d)
    ensures var root := AnchorSchema();
            && Answers(d, root, root) && RequiresField(root, root, {})
            && Accepts(d, root, root, EMPTY) && !HasField(EMPTY)
            && !FieldRight(d, root, root, root)
  {
    AnchorSchemaReported();
    hide AnchorSchema, RequiresField, Eval;
    forall x: Json ensures Eval(d, AnchorSchema(), AnchorSchema(), x, {}) == Some(true) {
      AnchorAnswers(d, x);
    }
    NothingIsAsked(d, AnchorSchema());
  }

  // ----- an encoded pointer -----

  /** The reference is "/a" encoded; the root's member of the encoded name requires the field. */
  function EncodedSchema(): Json {
    Obj(map[REF := Str("#/%61"), "%61" := RequiresFieldNode(), "a" := Bool(true)])
  }

  lemma {:induction false} EncodedSchemaReported()
    ensures RequiresField(EncodedSchema(), EncodedSchema(), {})
  {
    assert "#/%61"[1..] == "/" + "%61";
    MemberReported(EncodedSchema(), EncodedSchema(), "#/%61", "%61");
  }

  lemma {:induction false} EncodedDecodes()
    ensures PercentDecode("/%61") == Some("/a")
  {
    assert Octet("%61") == Some(0x61) && "%61"[3..] == "";
    AsciiDecodes("%61", 0x61, "");
    assert [0x61 as char] + "" == "a" && ['/'] + "a" == "/a";
    assert "/%61"[1..] == "%61";
  }

  lemma {:induction false} EncodedStep()
    ensures LocalRef(EncodedSchema()) == Some("#/%61") && StdTarget(EncodedSchema(), "#/%61") == Some(Bool(true))
    ensures Home(EncodedSchema(), EncodedSchema()) == EncodedSchema()
  {
    var root := EncodedSchema();
    assert "#/%61"[1..] == "/%61" && "/a"[1..] == "a";
    EncodedDecodes();
    SplitOne("a", '/');
    NoTildeIsItself("a");
    assert UnescapeAll(["a"]) == ["a"];
    assert RfcFollow(root, ["a"]) == RfcFollow(Bool(true), []) == Some(Bool(true));
  }

  lemma {:induction false} EncodedAnswers(d: Dialect, x: Json)
    requires Plain(d)
    ensures Eval(d, EncodedSchema(), EncodedSchema(), x, {}) == Some(true)
  {
    var root := EncodedSchema();
    EncodedStep();
    assert root.fields.Keys == {REF, "%61", "a"};
    assert Eval(d, root, Bool(true), x, {(root, Str("#/%61"))}) == Some(true);
    hide RequiresFieldNode, StdTarget, EncodedSchema, Eval;
    ReferenceAnswers(d, root, "#/%61", Bool(true), x);
  }

  /** A pointer in a fragment is percent-encoded: the analysis takes "#/%61" for the member "%61" and reports that the
      field is required, and the standard, which reads "/a", accepts an instance without it. */
  lemma {:induction false} EncodedUnsound(d: Dialect)
    requires Plain(d)
    ensures var root := EncodedSchema();
            && Answers(d, root, root) && RequiresField(root, root, {})
            && Accepts(d, root, root, EMPTY) && !HasField(EMPTY)
            && !FieldRight(d, root, root, root)
  {
    EncodedSchemaReported();
    hide EncodedSchema, RequiresField, Eval;
    forall x: Json ensures Eval(d, EncodedSchema(), EncodedSchema(), x, {}) == Some(true) {
      EncodedAnswers(d, x);
    }
    NothingIsAsked(d, EncodedSchema());
  }

  // ----- a resource inside a resource -----

  /** A subschema with its own identifier, and a member of the name that its reference asks for. */
  function EmbeddedNode(): Json {
    Obj(map[ID := Str("b"), REF := Str("#/a"), "a" := Bool(true)])
  }

  function EmbeddingSchema(): Json {
    Obj(map[ALL := Arr([EmbeddedNode(), Bool(true)]), "a" := RequiresFieldNode()])
  }

  lemma {:induction false} EmbeddingReported()
    ensures RequiresField(EmbeddingSchema(), EmbeddingSchema(), {})
  {
    var root, child := EmbeddingSchema(), EmbeddedNode();
    assert Children(root, ALL)[0] == child;
    assert "#/a"[1..] == "/" + "a";
    MemberReported(root, child, "#/a", "a");
    assert LocalRef(root).None?;
  }

  lemma {:induction false} EmbeddedTarget()
    ensures LocalRef(EmbeddedNode()) == Some("#/a") && StdTarget(EmbeddedNode(), "#/a") == Some(Bool(true))
  {
    var n := EmbeddedNode();
    assert "#/a"[1..] == "/a" && "/a"[1..] == "a";
    PlainDecodesToItself("/a");
    SplitOne("a", '/');
    NoTildeIsItself("a");
    assert UnescapeAll(["a"]) == ["a"];
    assert RfcFollow(n, ["a"]) == RfcFollow(Bool(true), []) == Some(Bool(true));
  }

  lemma {:induction false} EmbeddedAccepts(d: Dialect, x: Json)
    requires Plain(d)
    ensures Eval(d, EmbeddedNode(), EmbeddedNode(), x, {}) == Some(true)
  {
    var n := EmbeddedNode();
    EmbeddedTarget();
    assert IsResource(n) && n.fields.Keys == {ID, REF, "a"};
    assert Eval(d, n, Bool(true), x, {(n, Str("#/a"))}) == Some(true);
    hide EmbeddedNode, StdTarget, Eval;
    ReferenceAnswers(d, n, "#/a", Bool(true), x);
  }

  /** Where a resource begins, the base given from outside does not matter. */
  lemma {:induction false} ResourceIsItsHome(d: Dialect, home: Json, n: Json, x: Json)
    requires IsResource(n)
    ensures Eval(d, home, n, x, {}) == Eval(d, n, n, x, {})
  {
    hide Left, StdTarget, Same, Reference, Members, Accepting, Assertions;
  }

  lemma {:induction false} EmbeddingAnswers(d: Dialect, x: Json)
    requires Plain(d)
    ensures Eval(d, EmbeddingSchema(), EmbeddingSchema(), x, {}) == Some(true)
  {
    var root := EmbeddingSchema();
    EmbeddedAccepts(d, x);
    assert IsResource(EmbeddedNode());
    ResourceIsItsHome(d, root, EmbeddedNode(), x);
    assert Children(root, ALL) == [EmbeddedNode(), Bool(true)];
    assert root.fields.Keys == {ALL, "a"};
    hide EmbeddedNode, RequiresFieldNode, EmbeddingSchema;
    PairCounts(d, root, root, ALL, x);
    OnlyList(d, root, root, ALL, x);
  }

  /** A reference below an identifier starts from there, not from the document: the analysis follows it to the root's
      member and reports that the field is required, and the standard accepts an instance without it. */
  lemma {:induction false} EmbeddedUnsound(d: Dialect)
    requires Plain(d)
    ensures var root := EmbeddingSchema();
            && Answers(d, root, root) && RequiresField(root, root, {})
            && Accepts(d, root, root, EMPTY) && !HasField(EMPTY)
            && !FieldRight(d, root, root, root)
  {
    EmbeddingReported();
    hide EmbeddingSchema, RequiresField, Eval;
    forall x: Json ensures Eval(d, EmbeddingSchema(), EmbeddingSchema(), x, {}) == Some(true) {
      EmbeddingAnswers(d, x);
    }
    NothingIsAsked(d, EmbeddingSchema());
  }
}
