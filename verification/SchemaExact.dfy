/** When the schema_version analyses are right: finitely many instances decide it. */
module SchemaExact {
  import opened Text
  import opened JsonValue
  import opened SchemaVersion
  import opened SchemaDerivation
  import opened SchemaEval
  import opened SchemaSound

  // ----- flat schemas -----

  predicate Scalar(v: Json) {
    !v.Arr? && !v.Obj?
  }

  /** A subschema that asks at most for one scalar. */
  predicate Leaf(e: Json) {
    e.Obj? ==>
      && REF !in e.fields && ALL !in e.fields && ANY !in e.fields && ONE !in e.fields
      && PROPERTIES !in e.fields && REQUIRED !in e.fields
      && (CONST in e.fields ==> Scalar(e.fields[CONST]))
  }

  predicate FlatNode(n: Json) {
    n.Obj? ==>
      && (CONST in n.fields ==> Scalar(n.fields[CONST]))
      && (PROPERTIES in n.fields && n.fields[PROPERTIES].Obj? ==>
            forall k :: k in n.fields[PROPERTIES].fields ==> Leaf(n.fields[PROPERTIES].fields[k]))
  }

  /** Properties ask for scalars only, whatever references, alternatives and resources stand around them. */
  ghost predicate Flat(root: Json) {
    forall n :: n in Parts(root) ==> FlatNode(n)
  }

  // ----- what a schema can tell apart -----

  /** Every name that the schema mentions, and the field. */
  ghost function Words(root: Json): set<string> {
    {FIELD}
    + (set n | n in Parts(root) && n.Str? :: n.text)
    + (set n, k | n in Parts(root) && n.Obj? && k in n.fields :: k)
  }

  /** Every scalar that the schema asks for, and the schema ID. */
  ghost function Scalars(root: Json, id: string): set<Json> {
    {Str(id)} + set n | n in Parts(root) && n.Obj? && CONST in n.fields && Scalar(n.fields[CONST]) :: n.fields[CONST]
  }

  /** A value that equals no scalar. */
  const OTHER := Arr([])

  ghost function CanonValue(num: Number, scalars: set<Json>, v: Json): Json {
    if exists c :: c in scalars && Same(num, c, v) then
      var c :| c in scalars && Same(num, c, v);
      c
    else OTHER
  }

  /** The instance with only the names and the values that the schema can tell apart. */
  ghost function Canon(num: Number, words: set<string>, scalars: set<Json>, x: Json): Json
    requires x.Obj?
  {
    Obj(map k | k in x.fields && k in words :: CanonValue(num, scalars, x.fields[k]))
  }

  lemma {:induction false} SameScalars(num: Number, a: Json, b: Json, v: Json)
    requires Scalar(a) && Scalar(b) && Same(num, b, v)
    ensures Same(num, a, v) <==> Same(num, a, b)
  {
  }

  lemma {:induction false} CanonKeepsScalar(num: Number, scalars: set<Json>, a: Json, v: Json)
    requires a in scalars && forall c :: c in scalars ==> Scalar(c)
    ensures Same(num, a, CanonValue(num, scalars, v)) <==> Same(num, a, v)
  {
    var c := CanonValue(num, scalars, v);
    if exists d :: d in scalars && Same(num, d, v) {
      assert c in scalars && Same(num, c, v);
      SameScalars(num, a, c, v);
    }
  }

  // ----- the schema cannot tell an instance from its canonical form -----

  ghost predicate Inside(root: Json, home: Json, n: Json) {
    home in Parts(root) && n in Parts(root)
  }

  /** A leaf looks at nothing but its scalar. */
  lemma {:induction false} LeafExactly(d: Dialect, home: Json, e: Json, v: Json)
    requires Leaf(e) && e.Obj?
    ensures Eval(d, home, e, v, {}) ==
            if e.fields.Keys !! d.unread then Some(CONST in e.fields ==> Same(d.num, e.fields[CONST], v)) else None
  {
    hide Same, StdTarget, Left, Scalar;
    var h := Home(home, e);
    assert Children(e, ALL) == Children(e, ANY) == Children(e, ONE) == [];
    assert Reference(d, h, e, v, {}) == Some(true);
    assert Members(d, h, e, v, {}) == Some(true);
  }

  lemma {:induction false} LeafSeesCanon(d: Dialect, root: Json, id: string, home: Json, e: Json, v: Json)
    requires e in Parts(root) && Leaf(e)
    ensures Eval(d, home, e, CanonValue(d.num, Scalars(root, id), v), {}) == Eval(d, home, e, v, {})
  {
    if e.Obj? {
      LeafExactly(d, home, e, v);
      LeafExactly(d, home, e, CanonValue(d.num, Scalars(root, id), v));
      hide CanonValue, Same, Eval;
      if CONST in e.fields {
        CanonKeepsScalar(d.num, Scalars(root, id), e.fields[CONST], v);
      }
    }
  }

  lemma {:induction false} PropertiesAreParts(root: Json, n: Json, k: string)
    requires n in Parts(root) && n.Obj? && PROPERTIES in n.fields && n.fields[PROPERTIES].Obj?
    requires k in n.fields[PROPERTIES].fields
    ensures k in Words(root) && n.fields[PROPERTIES].fields[k] in Parts(root)
  {
    var properties := n.fields[PROPERTIES];
    PartsOfPart(root, n);
    PartsOfMember(n, PROPERTIES);
    PartsOfMember(properties, k);
    assert properties in Parts(properties) && properties.fields[k] in Parts(properties.fields[k]);
  }

  /** A property's subschema answers alike for both instances. */
  ghost predicate AgreeAt(d: Dialect, home: Json, n: Json, x: Json, y: Json, k: string)
    requires k in Shared(n, x) && k in Shared(n, y)
  {
    var e := n.fields[PROPERTIES].fields[k];
    Eval(d, home, e, x.fields[k], {}) == Eval(d, home, e, y.fields[k], {})
  }

  lemma {:induction false} MembersAgree(d: Dialect, home: Json, n: Json, x: Json, y: Json, seen: set<(Json, Json)>)
    requires n.Obj? && Shared(n, x) == Shared(n, y)
    requires forall k :: k in Shared(n, x) ==> AgreeAt(d, home, n, x, y, k)
    ensures Members(d, home, n, x, seen) == Members(d, home, n, y, seen)
  {
    hide Eval;
    assert forall k :: k in Shared(n, x) ==> AgreeAt(d, home, n, x, y, k);
  }

  lemma {:induction false} MembersSeeCanon(
    d: Dialect, root: Json, id: string, home: Json, n: Json, x: Json, seen: set<(Json, Json)>)
    requires Flat(root) && n in Parts(root) && n.Obj? && x.Obj?
    ensures Members(d, home, n, Canon(d.num, Words(root), Scalars(root, id), x), seen) == Members(d, home, n, x, seen)
  {
    assert FlatNode(n);
    var y := Canon(d.num, Words(root), Scalars(root, id), x);
    hide Members, Flat, Eval, Parts, Words, Scalars, CanonValue, Leaf;
    assert Shared(n, y) == Shared(n, x) by {
      forall k | k in Shared(n, x) ensures k in Words(root) {
        PropertiesAreParts(root, n, k);
      }
    }
    forall k | k in Shared(n, x) ensures AgreeAt(d, home, n, x, y, k) {
      PropertiesAreParts(root, n, k);
      LeafSeesCanon(d, root, id, home, n.fields[PROPERTIES].fields[k], x.fields[k]);
    }
    MembersAgree(d, home, n, x, y, seen);
  }

  lemma {:induction false} RequiredAreWords(root: Json, n: Json, i: nat)
    requires n in Parts(root) && n.Obj? && REQUIRED in n.fields && n.fields[REQUIRED].Arr?
    requires i < |n.fields[REQUIRED].items| && n.fields[REQUIRED].items[i].Str?
    ensures n.fields[REQUIRED].items[i].text in Words(root)
  {
    var t := n.fields[REQUIRED].items[i];
    PartsOfPart(root, n);
    PartsOfMember(n, REQUIRED);
    PartsOfItem(n.fields[REQUIRED], i);
    assert t in Parts(t);
  }

  lemma {:induction false} AssertionsSeeCanon(d: Dialect, root: Json, id: string, n: Json, x: Json)
    requires Flat(root) && n in Parts(root) && n.Obj? && x.Obj?
    ensures Assertions(d, n, Canon(d.num, Words(root), Scalars(root, id), x)) == Assertions(d, n, x)
  {
    assert FlatNode(n);
    hide Flat, Parts, Words, Scalars, CanonValue, Leaf;
    var y := Canon(d.num, Words(root), Scalars(root, id), x);
    if REQUIRED in n.fields && n.fields[REQUIRED].Arr? {
      var items := n.fields[REQUIRED].items;
      forall i: nat | i < |items| && items[i].Str? ensures items[i].text in y.fields <==> items[i].text in x.fields {
        RequiredAreWords(root, n, i);
      }
    }
  }

  lemma {:induction false} EvalSeesCanon(
    d: Dialect, root: Json, id: string, home: Json, n: Json, x: Json, seen: set<(Json, Json)>)
    requires Flat(root) && Inside(root, home, n) && x.Obj?
    ensures Eval(d, home, n, Canon(d.num, Words(root), Scalars(root, id), x), seen) == Eval(d, home, n, x, seen)
    decreases Left(home, n, seen), n, 2, 0
  {
    if n.Obj? {
      var h := Home(home, n);
      HomeKeepsLeft(home, n, seen);
      ReferenceSeesCanon(d, root, id, h, n, x, seen);
      ListSeesCanon(d, root, id, h, n, ALL, x, seen, 0);
      ListSeesCanon(d, root, id, h, n, ANY, x, seen, 0);
      ListSeesCanon(d, root, id, h, n, ONE, x, seen, 0);
      MembersSeeCanon(d, root, id, h, n, x, seen);
      AssertionsSeeCanon(d, root, id, n, x);
    }
  }

  lemma {:induction false} ReferenceSeesCanon(
    d: Dialect, root: Json, id: string, home: Json, n: Json, x: Json, seen: set<(Json, Json)>)
    requires Flat(root) && Inside(root, home, n) && n.Obj? && x.Obj?
    ensures Reference(d, home, n, Canon(d.num, Words(root), Scalars(root, id), x), seen) == Reference(d, home, n, x, seen)
    decreases Left(home, n, seen), n, 1, 0
  {
    if LocalRef(n).Some? {
      var ref := LocalRef(n).value;
      if StdTarget(home, ref).Some? && (home, Str(ref)) !in seen {
        StepUsesUp(home, n, ref, seen);
        TargetIsPart(home, ref);
        PartsOfPart(root, home);
        EvalSeesCanon(d, root, id, home, StdTarget(home, ref).value, x, seen + {(home, Str(ref))});
      }
    }
  }

  lemma {:induction false} ListSeesCanon(
    d: Dialect, root: Json, id: string, home: Json, n: Json, keyword: string, x: Json, seen: set<(Json, Json)>, i: nat)
    requires Flat(root) && Inside(root, home, n) && x.Obj? && i <= |Children(n, keyword)|
    ensures Accepting(d, home, n, keyword, Canon(d.num, Words(root), Scalars(root, id), x), seen, i)
         == Accepting(d, home, n, keyword, x, seen, i)
    decreases Left(home, n, seen), n, 1, |Children(n, keyword)| - i
  {
    if i < |Children(n, keyword)| {
      ChildIsPart(n, keyword, i);
      PartKeepsLeft(home, n, Children(n, keyword)[i], seen);
      PartsOfPart(root, n);
      EvalSeesCanon(d, root, id, home, Children(n, keyword)[i], x, seen);
      ListSeesCanon(d, root, id, home, n, keyword, x, seen, i + 1);
    }
  }

  // ----- finitely many instances -----

  ghost function Pick(keys: set<string>): (k: string)
    requires keys != {}
    ensures k in keys
  {
    var k :| k in keys;
    k
  }

  /** All tables over some of these keys with these values. */
  ghost function Tables(keys: set<string>, values: set<Json>): set<map<string, Json>> {
    if keys == {} then {map[]}
    else
      var k := Pick(keys);
      var rest := Tables(keys - {k}, values);
      rest + set m, v | m in rest && v in values :: m[k := v]
  }

  lemma {:induction false} TablesComplete(keys: set<string>, values: set<Json>, m: map<string, Json>)
    requires m.Keys <= keys && forall k :: k in m ==> m[k] in values
    ensures m in Tables(keys, values)
    decreases keys
  {
    if keys == {} {
      assert m == map[];
    } else {
      var k := Pick(keys);
      TablesComplete(keys - {k}, values, m - {k});
      if k in m {
        assert m == (m - {k})[k := m[k]];
      } else {
        assert m == m - {k};
      }
    }
  }

  /** The instances that decide about a schema: objects over its words, with its scalars or one other value. */
  ghost function Probes(root: Json, id: string): set<Json> {
    set m | m in Tables(Words(root), Scalars(root, id) + {OTHER}) :: Obj(m)
  }

  lemma {:induction false} CanonIsProbe(num: Number, root: Json, id: string, x: Json)
    requires x.Obj?
    ensures Canon(num, Words(root), Scalars(root, id), x) in Probes(root, id)
  {
    var y := Canon(num, Words(root), Scalars(root, id), x);
    TablesComplete(Words(root), Scalars(root, id) + {OTHER}, y.fields);
  }

  predicate Carries(x: Json, id: string) {
    x.Obj? && FIELD in x.fields && x.fields[FIELD] == Str(id)
  }

  predicate HasField(x: Json) {
    x.Obj? && FIELD in x.fields
  }

  lemma {:induction false} CanonKeepsField(num: Number, root: Json, id: string, x: Json)
    requires x.Obj?
    ensures var y := Canon(num, Words(root), Scalars(root, id), x);
            (HasField(y) <==> HasField(x)) && (Carries(y, id) <==> Carries(x, id))
  {
    if FIELD in x.fields {
      var v, scalars := x.fields[FIELD], Scalars(root, id);
      assert Str(id) in scalars && (Same(num, Str(id), v) <==> v == Str(id));
      forall c | c in scalars && Same(num, c, Str(id)) ensures c == Str(id) {
        assert Scalar(c);
      }
      if CanonValue(num, scalars, v) == Str(id) {
        assert Same(num, Str(id), v);
      }
    }
  }

  /** Every object that a node accepts, its references read against this resource, carries the ID. */
  ghost predicate BindsVersion(d: Dialect, home: Json, n: Json, id: string) {
    forall x: Json :: x.Obj? && Accepts(d, home, n, x) ==> Carries(x, id)
  }

  ghost predicate BindsField(d: Dialect, home: Json, n: Json) {
    forall x: Json :: x.Obj? && Accepts(d, home, n, x) ==> HasField(x)
  }

  /** A probe that the node accepts although it does not carry the ID. */
  ghost predicate Refutes(d: Dialect, root: Json, home: Json, n: Json, id: string, p: Json) {
    p in Probes(root, id) && Accepts(d, home, n, p) && !Carries(p, id)
  }

  ghost predicate RefutesField(d: Dialect, root: Json, home: Json, n: Json, p: Json) {
    p in Probes(root, FIELD) && Accepts(d, home, n, p) && !HasField(p)
  }

  lemma {:induction false} AcceptsCanon(d: Dialect, root: Json, id: string, home: Json, n: Json, x: Json)
    requires Flat(root) && Inside(root, home, n) && x.Obj?
    ensures Accepts(d, home, n, Canon(d.num, Words(root), Scalars(root, id), x)) <==> Accepts(d, home, n, x)
  {
    EvalSeesCanon(d, root, id, home, n, x, {});
  }

  /** A node of a flat schema binds the schema ID exactly when it accepts none of the schema's probes without it. */
  lemma {:induction false} BindsVersionExactly(d: Dialect, root: Json, home: Json, n: Json, id: string)
    requires Flat(root) && Inside(root, home, n)
    ensures BindsVersion(d, home, n, id) <==> forall p :: !Refutes(d, root, home, n, id, p)
  {
    hide Accepts, Carries, Canon, Inside, Tables;
    if forall p :: !Refutes(d, root, home, n, id, p) {
      forall x: Json | x.Obj? && Accepts(d, home, n, x) ensures Carries(x, id) {
        AcceptsCanon(d, root, id, home, n, x);
        CanonIsProbe(d.num, root, id, x);
        CanonKeepsField(d.num, root, id, x);
        assert !Refutes(d, root, home, n, id, Canon(d.num, Words(root), Scalars(root, id), x));
      }
    }
  }

  lemma {:induction false} BindsFieldExactly(d: Dialect, root: Json, home: Json, n: Json)
    requires Flat(root) && Inside(root, home, n)
    ensures BindsField(d, home, n) <==> forall p :: !RefutesField(d, root, home, n, p)
  {
    hide Accepts, HasField, Canon, Inside, Tables;
    if forall p :: !RefutesField(d, root, home, n, p) {
      forall x: Json | x.Obj? && Accepts(d, home, n, x) ensures HasField(x) {
        AcceptsCanon(d, root, FIELD, home, n, x);
        CanonIsProbe(d.num, root, FIELD, x);
        CanonKeepsField(d.num, root, FIELD, x);
        assert !RefutesField(d, root, home, n, Canon(d.num, Words(root), Scalars(root, FIELD), x));
      }
    }
  }

  /** The evaluator has an answer for every object: every keyword is read and well formed, and every reference leads
      somewhere inside the document without coming back to itself. */
  ghost predicate Answers(d: Dialect, home: Json, n: Json) {
    forall x: Json :: x.Obj? ==> Eval(d, home, n, x, {}).Some?
  }

  /** The probes decide that, too. */
  lemma {:induction false} AnswersExactly(d: Dialect, root: Json, home: Json, n: Json, id: string)
    requires Flat(root) && Inside(root, home, n)
    ensures Answers(d, home, n) <==> forall p :: p in Probes(root, id) ==> Eval(d, home, n, p, {}).Some?
  {
    hide Eval, Canon, Inside, Tables;
    if forall p :: p in Probes(root, id) ==> Eval(d, home, n, p, {}).Some? {
      forall x: Json | x.Obj? ensures Eval(d, home, n, x, {}).Some? {
        EvalSeesCanon(d, root, id, home, n, x, {});
        CanonIsProbe(d.num, root, id, x);
      }
    }
    if Answers(d, home, n) {
      forall p | p in Probes(root, id) ensures Eval(d, home, n, p, {}).Some? {
        assert p.Obj?;
      }
    }
  }

  // ----- when the analyses are right -----

  /** A node that is reported to require the schema ID binds it. */
  ghost predicate VersionRight(d: Dialect, root: Json, home: Json, n: Json, id: string) {
    RequiresVersion(n, id, root, {}) ==> BindsVersion(d, home, n, id)
  }

  ghost predicate FieldRight(d: Dialect, root: Json, home: Json, n: Json) {
    RequiresField(n, root, {}) ==> BindsField(d, home, n)
  }

  /** At every node of an ordinary schema, flat or not, the version analysis errs only where a const hides behind
      alternatives, and the field analysis never. */
  lemma {:induction false} OrdinaryIsRight(d: Dialect, root: Json, n: Json, id: string)
    requires Ordinary(root) && n in Parts(root)
    ensures RuleTwoSafe(n, id, root, {}) ==> VersionRight(d, root, root, n, id)
    ensures FieldRight(d, root, root, n)
  {
    var valid := Standard(d, root);
    StandardHonours(d, root);
    forall x: Json | x.Obj? && Accepts(d, root, n, x)
      ensures RequiresVersion(n, id, root, {}) && RuleTwoSafe(n, id, root, {}) ==> Carries(x, id)
      ensures RequiresField(n, root, {}) ==> HasField(x)
    {
      assert valid(n, x);
      if RequiresVersion(n, id, root, {}) && RuleTwoSafe(n, id, root, {}) {
        VersionSound(valid, n, id, root, {}, x);
      }
      if RequiresField(n, root, {}) {
        FieldSound(valid, n, root, {}, x);
      }
    }
  }

  /** At every node of a flat schema for which the evaluator has an answer, with whatever references, anchors,
      resources and alternatives: each analysis is right exactly when it says no or none of finitely many instances
      refutes it. */
  lemma {:induction false} RightExactly(d: Dialect, root: Json, home: Json, n: Json, id: string)
    requires Flat(root) && Inside(root, home, n) && Answers(d, home, n)
    ensures VersionRight(d, root, home, n, id) <==>
            RequiresVersion(n, id, root, {}) ==> forall p :: !Refutes(d, root, home, n, id, p)
    ensures FieldRight(d, root, home, n) <==>
            RequiresField(n, root, {}) ==> forall p :: !RefutesField(d, root, home, n, p)
  {
    hide RequiresVersion, RequiresField, Refutes, RefutesField, BindsVersion, BindsField, Flat, Inside;
    BindsVersionExactly(d, root, home, n, id);
    BindsFieldExactly(d, root, home, n);
  }

  /** The analysis finds too little exactly where no instance refutes the node and no derivation reaches it either. */
  lemma {:induction false} MissedExactly(d: Dialect, root: Json, home: Json, n: Json, id: string)
    requires Flat(root) && Inside(root, home, n) && Answers(d, home, n)
    ensures BindsVersion(d, home, n, id) && !RequiresVersion(n, id, root, {}) <==>
            (forall p :: !Refutes(d, root, home, n, id, p)) && forall q :: !ProvesVersion(q, n, id, root, {})
    ensures BindsField(d, home, n) && !RequiresField(n, root, {}) <==>
            (forall p :: !RefutesField(d, root, home, n, p)) && !FieldDerivable(n, root)
  {
    hide *;
    BindsVersionExactly(d, root, home, n, id);
    BindsFieldExactly(d, root, home, n);
    VersionExactly(n, id, root, {});
    FieldExactly(n, root);
  }
}
