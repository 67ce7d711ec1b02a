/** What the schema_version analyses promise about validated instances. */
module SchemaSound {
  import opened Text
  import opened JsonValue
  import opened JsonPointer
  import opened SchemaVersion
  import opened SchemaEval

  /** A validity relation between the nodes of one schema and instances. */
  type Validity = (Json, Json) -> bool

  /** Some child of a non-empty list accepts the instance. */
  ghost predicate SomeChildValid(valid: Validity, children: seq<Json>, x: Json) {
    children == [] || exists i :: 0 <= i < |children| && valid(children[i], x)
  }

  ghost predicate AllChildrenValid(valid: Validity, children: seq<Json>, x: Json) {
    forall i :: 0 <= i < |children| ==> valid(children[i], x)
  }

  /** What JSON Schema 2020-12 demands, at least, of an instance that a node accepts: its local reference (Core,
      section 8.2.3.1), allOf, anyOf and oneOf (section 10.2.1), properties (section 10.3.2.1), and required and a
      const that is a string (Validation, sections 6.5.3 and 6.1.3). */
  ghost predicate Demands(valid: Validity, root: Json, n: Json, x: Json) {
    && (LocalRef(n).Some? && StdTarget(root, LocalRef(n).value).Some? ==> valid(StdTarget(root, LocalRef(n).value).value, x))
    && AllChildrenValid(valid, Children(n, ALL), x)
    && SomeChildValid(valid, Children(n, ANY), x)
    && SomeChildValid(valid, Children(n, ONE), x)
    && (x.Obj? && ListsField(n) ==> FIELD in x.fields)
    && (x.Obj? && FIELD in x.fields && DirectConst(n).Some? ==> x.fields[FIELD] == Str(DirectConst(n).value))
  }

  /** The relation keeps the standard on the root's own nodes; resources embedded in it may refer elsewhere. */
  ghost predicate Honours(valid: Validity, root: Json) {
    forall n, x :: n in Own(root) && valid(n, x) ==> Demands(valid, root, n, x)
  }

  /** Every local reference is a pointer on which the resolver agrees with the standard. */
  ghost predicate OrdinaryRefs(root: Json) {
    forall n :: n in Parts(root) && LocalRef(n).Some? ==> IsOrdinary(LocalRef(n).value[1..]) && '%' !in LocalRef(n).value
  }

  /** Nothing below this value is a resource of its own. */
  ghost predicate NoneBelow(v: Json) {
    forall n :: n in Parts(v) && n != v ==> !IsResource(n)
  }

  lemma {:induction false} NoneBelowChild(v: Json, child: Json)
    requires NoneBelow(v) && child < v && Parts(child) <= Parts(v)
    ensures NoneBelow(child) && !IsResource(child)
  {
    assert child in Parts(child);
    forall n | n in Parts(child) ensures n != v {
      PartIsSmaller(child, n);
    }
  }

  lemma {:induction false} NoneBelowOwnsAll(v: Json, n: Json)
    requires NoneBelow(v) && n in Parts(v)
    ensures n in Own(v)
    decreases v
  {
    if n != v {
      match v
      case Arr(items) =>
        var i :| 0 <= i < |items| && n in Parts(items[i]);
        PartsOfItem(v, i);
        NoneBelowChild(v, items[i]);
        NoneBelowOwnsAll(items[i], n);
      case Obj(fields) =>
        var k :| k in fields && n in Parts(fields[k]);
        PartsOfMember(v, k);
        NoneBelowChild(v, fields[k]);
        NoneBelowOwnsAll(fields[k], n);
    }
  }

  /** A schema without embedded resources whose references are ordinary. */
  ghost predicate Ordinary(root: Json) {
    NoneBelow(root) && OrdinaryRefs(root)
  }

  /** Where nothing is embedded no pointer crosses into another resource. */
  lemma {:induction false} NothingToCross(v: Json, tokens: seq<string>)
    requires NoneBelow(v)
    ensures StaysInside(v, tokens)
    decreases |tokens|
  {
    if |tokens| > 1 && RfcStep(v, tokens[0]).Some? {
      var next := RfcStep(v, tokens[0]).value;
      StepIsPart(v, tokens[0]);
      PartsOfPart(v, next);
      StepIsSmaller(v, tokens[0]);
      NoneBelowChild(v, next);
      NothingToCross(next, tokens[1..]);
    }
  }

  lemma {:induction false} StepIsSmaller(v: Json, token: string)
    requires RfcStep(v, token).Some?
    ensures RfcStep(v, token).value < v
  {
    if v.Arr? {
      IndexIsItem(v.items, token, |v.items|);
    }
  }

  /** A followed reference leads where the standard leads, so a valid instance is valid there too. */
  lemma {:induction false} RefIsHonoured(valid: Validity, root: Json, node: Json, x: Json, ref: string)
    requires Honours(valid, root) && Ordinary(root) && node in Parts(root)
    requires valid(node, x) && LocalRef(node) == Some(ref) && Target(root, ref).Some?
    ensures valid(Target(root, ref).value, x) && Target(root, ref).value in Parts(root)
  {
    NoneBelowOwnsAll(root, node);
    assert Demands(valid, root, node, x);
    PlainDecodesToItself(ref[1..]);
    ConformsExactly(ref[1..]);
    if ref[1..] != "" {
      NothingToCross(root, UnescapeAll(Split(ref[1..][1..], '/')));
    }
    assert Resolve(root, ref[1..]) == RfcResolve(root, ref[1..]);
    assert StdTarget(root, ref) == Target(root, ref);
    TargetIsPart(root, ref);
  }

  lemma {:induction false} ChildInside(root: Json, node: Json, keyword: string, i: nat)
    requires node in Parts(root) && i < |Children(node, keyword)|
    ensures Children(node, keyword)[i] in Parts(root)
  {
    ChildIsPart(node, keyword, i);
    PartsOfPart(root, node);
  }

  /** "Requires the field" is sound: every valid object instance has schema_version. */
  lemma {:induction false} FieldSound(valid: Validity, node: Json, root: Json, seen: set<string>, x: Json)
    requires Honours(valid, root) && Ordinary(root) && node in Parts(root)
    requires valid(node, x) && x.Obj? && RequiresField(node, root, seen)
    ensures FIELD in x.fields
    decreases Unseen(root, node, seen), node
  {
    NoneBelowOwnsAll(root, node);
    assert Demands(valid, root, node, x);
    if LocalRef(node).Some? {
      var ref := LocalRef(node).value;
      RefUsesUp(root, node, seen, ref);
      RefIsHonoured(valid, root, node, x, ref);
      FieldSound(valid, Target(root, ref).value, root, seen + {ref}, x);
    } else if ListsField(node) {
    } else if Children(node, ONE) != [] && AllRequireField(node, ONE, root, seen) {
      FieldSoundUnder(valid, node, root, seen, x, ONE);
    } else if Children(node, ANY) != [] && AllRequireField(node, ANY, root, seen) {
      FieldSoundUnder(valid, node, root, seen, x, ANY);
    } else {
      var i :| 0 <= i < |Children(node, ALL)| && RequiresField(Children(node, ALL)[i], root, seen);
      ChildKeepsUnseen(root, node, seen, ALL, i);
      ChildInside(root, node, ALL, i);
      FieldSound(valid, Children(node, ALL)[i], root, seen, x);
    }
  }

  lemma {:induction false} FieldSoundUnder(
    valid: Validity, node: Json, root: Json, seen: set<string>, x: Json, keyword: string)
    requires Honours(valid, root) && Ordinary(root) && node in Parts(root) && x.Obj?
    requires Children(node, keyword) != [] && SomeChildValid(valid, Children(node, keyword), x)
    requires AllRequireField(node, keyword, root, seen)
    ensures FIELD in x.fields
    decreases Unseen(root, node, seen), node, 0
  {
    var i :| 0 <= i < |Children(node, keyword)| && valid(Children(node, keyword)[i], x);
    ChildKeepsUnseen(root, node, seen, keyword, i);
    ChildInside(root, node, keyword, i);
    FieldSound(valid, Children(node, keyword)[i], root, seen, x);
  }

  // ----- the const -----

  /** The const holds under this node whichever alternatives an instance takes: it stands in the node itself, or
      under some allOf child, or under every alternative of a oneOf or anyOf. */
  predicate Forced(node: Json, id: string, root: Json, seen: set<string>)
    decreases Unseen(root, node, seen), node, 1
  {
    match LocalRef(node)
    case Some(ref) =>
      ref !in seen && Target(root, ref).Some? &&
      (RefUsesUp(root, node, seen, ref); Forced(Target(root, ref).value, id, root, seen + {ref}))
    case None =>
      || DirectConst(node) == Some(id)
      || SomeForced(node, id, root, seen)
      || (Children(node, ONE) != [] && AllForced(node, ONE, id, root, seen))
      || (Children(node, ANY) != [] && AllForced(node, ANY, id, root, seen))
  }

  predicate AllForced(node: Json, keyword: string, id: string, root: Json, seen: set<string>)
    decreases Unseen(root, node, seen), node, 0
  {
    forall i :: 0 <= i < |Children(node, keyword)| ==>
      (ChildKeepsUnseen(root, node, seen, keyword, i); Forced(Children(node, keyword)[i], id, root, seen))
  }

  predicate SomeForced(node: Json, id: string, root: Json, seen: set<string>)
    decreases Unseen(root, node, seen), node, 0
  {
    exists i :: 0 <= i < |Children(node, ALL)| &&
      (ChildKeepsUnseen(root, node, seen, ALL, i); Forced(Children(node, ALL)[i], id, root, seen))
  }

  lemma {:induction false} ForcedSound(valid: Validity, node: Json, id: string, root: Json, seen: set<string>, x: Json)
    requires Honours(valid, root) && Ordinary(root) && node in Parts(root)
    requires valid(node, x) && x.Obj? && FIELD in x.fields && Forced(node, id, root, seen)
    ensures x.fields[FIELD] == Str(id)
    decreases Unseen(root, node, seen), node
  {
    NoneBelowOwnsAll(root, node);
    assert Demands(valid, root, node, x);
    if LocalRef(node).Some? {
      var ref := LocalRef(node).value;
      RefUsesUp(root, node, seen, ref);
      RefIsHonoured(valid, root, node, x, ref);
      ForcedSound(valid, Target(root, ref).value, id, root, seen + {ref}, x);
    } else if DirectConst(node) == Some(id) {
    } else if SomeForced(node, id, root, seen) {
      var i :| 0 <= i < |Children(node, ALL)| && Forced(Children(node, ALL)[i], id, root, seen);
      ForcedSoundAt(valid, node, id, root, seen, x, ALL, i);
    } else {
      var keyword := if Children(node, ONE) != [] && AllForced(node, ONE, id, root, seen) then ONE else ANY;
      var i :| 0 <= i < |Children(node, keyword)| && valid(Children(node, keyword)[i], x);
      ForcedSoundAt(valid, node, id, root, seen, x, keyword, i);
    }
  }

  lemma {:induction false} ForcedSoundAt(
    valid: Validity, node: Json, id: string, root: Json, seen: set<string>, x: Json, keyword: string, i: nat)
    requires Honours(valid, root) && Ordinary(root) && node in Parts(root)
    requires i < |Children(node, keyword)| && valid(Children(node, keyword)[i], x)
    requires x.Obj? && FIELD in x.fields && Forced(Children(node, keyword)[i], id, root, seen)
    ensures x.fields[FIELD] == Str(id)
    decreases Unseen(root, node, seen), node, 0
  {
    ChildKeepsUnseen(root, node, seen, keyword, i);
    ChildInside(root, node, keyword, i);
    ForcedSound(valid, Children(node, keyword)[i], id, root, seen, x);
  }

  /** No oneOf or anyOf where the search for a const goes down. */
  predicate NoAlternatives(node: Json, root: Json, seen: set<string>)
    decreases Unseen(root, node, seen), node, 1
  {
    match LocalRef(node)
    case Some(ref) =>
      ref in seen || Target(root, ref).None? ||
      (RefUsesUp(root, node, seen, ref); NoAlternatives(Target(root, ref).value, root, seen + {ref}))
    case None => Children(node, ONE) == [] && Children(node, ANY) == [] && NoneHasAlternatives(node, root, seen)
  }

  predicate NoneHasAlternatives(node: Json, root: Json, seen: set<string>)
    decreases Unseen(root, node, seen), node, 0
  {
    forall i :: 0 <= i < |Children(node, ALL)| ==>
      (ChildKeepsUnseen(root, node, seen, ALL, i); NoAlternatives(Children(node, ALL)[i], root, seen))
  }

  /** Without alternatives the const that the search finds is forced. */
  lemma {:induction false} FoundIsForced(node: Json, id: string, root: Json, seen: set<string>)
    requires NoAlternatives(node, root, seen) && FirstConst(node, root, seen) == Some(id)
    ensures Forced(node, id, root, seen)
    decreases Unseen(root, node, seen), node, |Children(node, ALL)| + 1
  {
    if LocalRef(node).Some? {
      var ref := LocalRef(node).value;
      RefUsesUp(root, node, seen, ref);
      FoundIsForced(Target(root, ref).value, id, root, seen + {ref});
    } else if DirectConst(node).None? {
      FoundUnderIsForced(node, id, root, seen, 0);
    }
  }

  lemma {:induction false} FoundUnderIsForced(node: Json, id: string, root: Json, seen: set<string>, i: nat)
    requires NoneHasAlternatives(node, root, seen) && i <= |Children(node, ALL)|
    requires FirstConstFrom(node, ALL, root, seen, i) == Some(id)
    ensures SomeForced(node, id, root, seen)
    decreases Unseen(root, node, seen), node, |Children(node, ALL)| - i
  {
    ChildKeepsUnseen(root, node, seen, ALL, i);
    if FirstConst(Children(node, ALL)[i], root, seen).Some? {
      FoundIsForced(Children(node, ALL)[i], id, root, seen);
    } else {
      FoundUnderIsForced(node, id, root, seen, i + 1);
    }
  }

  /** Wherever the analysis may combine two allOf children, a matching const that it finds is forced. */
  predicate RuleTwoSafe(node: Json, id: string, root: Json, seen: set<string>)
    decreases Unseen(root, node, seen), node, 1
  {
    match LocalRef(node)
    case Some(ref) =>
      ref in seen || Target(root, ref).None? ||
      (RefUsesUp(root, node, seen, ref); RuleTwoSafe(Target(root, ref).value, id, root, seen + {ref}))
    case None =>
      && (forall i :: 0 <= i < |Children(node, ALL)| && FirstConst(Children(node, ALL)[i], root, seen) == Some(id) ==>
            Forced(Children(node, ALL)[i], id, root, seen))
      && AllRuleTwoSafe(node, ALL, id, root, seen)
      && AllRuleTwoSafe(node, ONE, id, root, seen)
      && AllRuleTwoSafe(node, ANY, id, root, seen)
  }

  predicate AllRuleTwoSafe(node: Json, keyword: string, id: string, root: Json, seen: set<string>)
    decreases Unseen(root, node, seen), node, 0
  {
    forall i :: 0 <= i < |Children(node, keyword)| ==>
      (ChildKeepsUnseen(root, node, seen, keyword, i); RuleTwoSafe(Children(node, keyword)[i], id, root, seen))
  }

  /** "Requires schema version" is sound when no matching const hides behind alternatives: every valid object
      instance carries exactly this schema ID. */
  lemma {:induction false} VersionSound(valid: Validity, node: Json, id: string, root: Json, seen: set<string>, x: Json)
    requires Honours(valid, root) && Ordinary(root) && node in Parts(root)
    requires valid(node, x) && x.Obj? && RequiresVersion(node, id, root, seen) && RuleTwoSafe(node, id, root, seen)
    ensures FIELD in x.fields && x.fields[FIELD] == Str(id)
    decreases Unseen(root, node, seen), node
  {
    NoneBelowOwnsAll(root, node);
    assert Demands(valid, root, node, x);
    AllGivesSome(node, id, root, seen);
    if LocalRef(node).Some? {
      var ref := LocalRef(node).value;
      RefUsesUp(root, node, seen, ref);
      RefIsHonoured(valid, root, node, x, ref);
      VersionSound(valid, Target(root, ref).value, id, root, seen + {ref}, x);
    } else if DirectVersion(node, id) {
    } else if SomeRequiresVersion(node, id, root, seen) {
      var i :| 0 <= i < |Children(node, ALL)| && RequiresVersion(Children(node, ALL)[i], id, root, seen);
      VersionSoundAt(valid, node, id, root, seen, x, ALL, i);
    } else if RuleTwo(node, id, root, seen) {
      RuleTwoSound(valid, node, id, root, seen, x);
    } else if Children(node, ONE) != [] && AllRequireVersion(node, ONE, id, root, seen) {
      var i :| 0 <= i < |Children(node, ONE)| && valid(Children(node, ONE)[i], x);
      VersionSoundAt(valid, node, id, root, seen, x, ONE, i);
    } else if Children(node, ANY) != [] && AllRequireVersion(node, ANY, id, root, seen) {
      var i :| 0 <= i < |Children(node, ANY)| && valid(Children(node, ANY)[i], x);
      VersionSoundAt(valid, node, id, root, seen, x, ANY, i);
    }
  }

  lemma {:induction false} AllGivesSome(node: Json, id: string, root: Json, seen: set<string>)
    ensures Children(node, ALL) != [] && AllRequireVersion(node, ALL, id, root, seen) ==>
              SomeRequiresVersion(node, id, root, seen)
  {
    if Children(node, ALL) != [] && AllRequireVersion(node, ALL, id, root, seen) {
      assert RequiresVersion(Children(node, ALL)[0], id, root, seen);
    }
  }

  lemma {:induction false} VersionSoundAt(
    valid: Validity, node: Json, id: string, root: Json, seen: set<string>, x: Json, keyword: string, i: nat)
    requires Honours(valid, root) && Ordinary(root) && node in Parts(root) && x.Obj?
    requires i < |Children(node, keyword)| && valid(Children(node, keyword)[i], x)
    requires RequiresVersion(Children(node, keyword)[i], id, root, seen)
    requires AllRuleTwoSafe(node, keyword, id, root, seen)
    ensures FIELD in x.fields && x.fields[FIELD] == Str(id)
    decreases Unseen(root, node, seen), node, 0
  {
    ChildKeepsUnseen(root, node, seen, keyword, i);
    ChildInside(root, node, keyword, i);
    VersionSound(valid, Children(node, keyword)[i], id, root, seen, x);
  }

  lemma {:induction false} RuleTwoSound(valid: Validity, node: Json, id: string, root: Json, seen: set<string>, x: Json)
    requires Honours(valid, root) && Ordinary(root) && node in Parts(root) && x.Obj?
    requires AllChildrenValid(valid, Children(node, ALL), x) && RuleTwo(node, id, root, seen)
    requires forall i :: 0 <= i < |Children(node, ALL)| && FirstConst(Children(node, ALL)[i], root, seen) == Some(id) ==>
               Forced(Children(node, ALL)[i], id, root, seen)
    ensures FIELD in x.fields && x.fields[FIELD] == Str(id)
  {
    var i :| 0 <= i < |Children(node, ALL)| && RequiresField(Children(node, ALL)[i], root, seen);
    ChildInside(root, node, ALL, i);
    FieldSound(valid, Children(node, ALL)[i], root, seen, x);
    var k :| 0 <= k < |Children(node, ALL)| && FirstConst(Children(node, ALL)[k], root, seen) == Some(id);
    ChildInside(root, node, ALL, k);
    ForcedSound(valid, Children(node, ALL)[k], id, root, seen, x);
  }

  // ----- the standard keeps itself -----

  ghost function Standard(d: Dialect, root: Json): Validity {
    (n: Json, x: Json) => Accepts(d, root, n, x)
  }

  lemma {:induction false} OwnIsNoResource(v: Json, n: Json)
    requires n in Own(v) && n != v
    ensures !IsResource(n)
    decreases v
  {
    match v
    case Arr(items) =>
      var i :| 0 <= i < |items| && !IsResource(items[i]) && n in Own(items[i]);
      if n != items[i] {
        OwnIsNoResource(items[i], n);
      }
    case Obj(fields) =>
      var k :| k in fields && !IsResource(fields[k]) && n in Own(fields[k]);
      if n != fields[k] {
        OwnIsNoResource(fields[k], n);
      }
  }

  lemma {:induction false} ManyAccept(d: Dialect, home: Json, n: Json, keyword: string, x: Json, i: nat)
    requires i <= |Children(n, keyword)| && Accepting(d, home, n, keyword, x, {}, i).Some?
    ensures var many := Accepting(d, home, n, keyword, x, {}, i).value;
            && many <= |Children(n, keyword)| - i
            && (many == |Children(n, keyword)| - i ==>
                  forall j :: i <= j < |Children(n, keyword)| ==> Accepts(d, home, Children(n, keyword)[j], x))
            && (many > 0 ==> exists j :: i <= j < |Children(n, keyword)| && Accepts(d, home, Children(n, keyword)[j], x))
    decreases |Children(n, keyword)| - i
  {
    if i < |Children(n, keyword)| {
      ManyAccept(d, home, n, keyword, x, i + 1);
      assert Eval(d, home, Children(n, keyword)[i], x, {}) == Some(true) <==> Accepts(d, home, Children(n, keyword)[i], x);
    }
  }

  lemma {:induction false} ListsHonoured(d: Dialect, root: Json, n: Json, x: Json)
    requires Accepts(d, root, n, x) && Home(root, n) == root
    ensures var valid := Standard(d, root);
            && AllChildrenValid(valid, Children(n, ALL), x)
            && SomeChildValid(valid, Children(n, ANY), x) && SomeChildValid(valid, Children(n, ONE), x)
  {
    if n.Obj? {
      ManyAccept(d, root, n, ALL, x, 0);
      ManyAccept(d, root, n, ANY, x, 0);
      ManyAccept(d, root, n, ONE, x, 0);
    }
  }

  lemma {:induction false} ReferenceHonoured(d: Dialect, root: Json, n: Json, x: Json)
    requires Accepts(d, root, n, x) && Home(root, n) == root && LocalRef(n).Some?
    ensures StdTarget(root, LocalRef(n).value).Some? && Accepts(d, root, StdTarget(root, LocalRef(n).value).value, x)
  {
    var ref := LocalRef(n).value;
    var taken := {(root, Str(ref))};
    assert Reference(d, root, n, x, {}) == Some(true);
    assert {} + taken == taken;
    FewerTaken(d, root, StdTarget(root, ref).value, x, taken, {});
  }

  lemma {:induction false} FieldHonoured(d: Dialect, root: Json, n: Json, x: Json)
    requires Accepts(d, root, n, x) && Home(root, n) == root && x.Obj?
    ensures ListsField(n) ==> FIELD in x.fields
    ensures FIELD in x.fields && DirectConst(n).Some? ==> x.fields[FIELD] == Str(DirectConst(n).value)
  {
    if n.Obj? {
      assert Assertions(d, n, x) == Some(true);
      assert Members(d, root, n, x, {}) == Some(true);
      if ListsField(n) {
        var i :| 0 <= i < |n.fields[REQUIRED].items| && n.fields[REQUIRED].items[i] == Str(FIELD);
      }
      if FIELD in x.fields && DirectConst(n).Some? {
        var property := n.fields[PROPERTIES].fields[FIELD];
        assert FIELD in Shared(n, x);
        assert Eval(d, root, property, x.fields[FIELD], {}) == Some(true);
        assert Assertions(d, property, x.fields[FIELD]) == Some(true);
      }
    }
  }

  /** The evaluator honours its own schema, embedded resources and anchors included: the soundness theorems apply
      to it. */
  lemma {:induction false} StandardHonours(d: Dialect, root: Json)
    ensures Honours(Standard(d, root), root)
  {
    var valid := Standard(d, root);
    forall n, x | n in Own(root) && valid(n, x) ensures Demands(valid, root, n, x) {
      if n != root {
        OwnIsNoResource(root, n);
      }
      ListsHonoured(d, root, n, x);
      if LocalRef(n).Some? {
        ReferenceHonoured(d, root, n, x);
      }
      if x.Obj? {
        FieldHonoured(d, root, n, x);
      }
    }
  }
}
