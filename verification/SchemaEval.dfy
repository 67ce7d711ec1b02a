/** JSON Schema 2020-12 validity for the keywords that the schema_version analyses read: local references with
    anchors and embedded resources, allOf, anyOf, oneOf, properties, required and const. */
module SchemaEval {
  import opened Text
  import opened JsonValue
  import opened JsonPointer
  import opened SchemaVersion

  const ID := "$id"
  const ANCHOR := "$anchor"
  const PROPERTIES := "properties"
  const REQUIRED := "required"
  const CONST := "const"

  /** The number that a token stands for. */
  type Number = string -> real

  /** How numbers are read, and the keywords with a meaning that the evaluator does not read. */
  datatype Dialect = Dialect(num: Number, unread: set<string>)

  /** The other keywords of the draft that can make an instance invalid (Core, sections 8.2.3.2 and 10 and 11;
      Validation, sections 6 and 7). */
  const UNREAD: set<string> := {
    "$dynamicRef", "$dynamicAnchor", "type", "enum", "multipleOf", "maximum", "exclusiveMaximum", "minimum",
    "exclusiveMinimum", "maxLength", "minLength", "pattern", "maxItems", "minItems", "uniqueItems", "maxContains",
    "minContains", "maxProperties", "minProperties", "dependentRequired", "format", "not", "if", "then", "else",
    "dependentSchemas", "prefixItems", "items", "contains", "patternProperties", "additionalProperties",
    "propertyNames", "unevaluatedItems", "unevaluatedProperties"}

  /** Equality of instances (JSON Schema Core, section 4.2.2): numbers by value, objects as maps. */
  predicate Same(num: Number, a: Json, b: Json)
    decreases a
  {
    match a
    case Num(t) => b.Num? && num(t) == num(b.token)
    case Arr(items) => b.Arr? && |items| == |b.items| && forall i :: 0 <= i < |items| ==> Same(num, items[i], b.items[i])
    case Obj(fields) => b.Obj? && fields.Keys == b.fields.Keys && forall k :: k in fields ==> Same(num, fields[k], b.fields[k])
    case _ => a == b
  }

  // ----- the values inside a document -----

  ghost function Parts(v: Json): set<Json>
    decreases v
  {
    {v} + match v
          case Arr(items) => set i, n | 0 <= i < |items| && n in Parts(items[i]) :: n
          case Obj(fields) => set k, n | k in fields && n in Parts(fields[k]) :: n
          case _ => {}
  }

  lemma {:induction false} PartsOfMember(v: Json, k: string)
    requires v.Obj? && k in v.fields
    ensures Parts(v.fields[k]) <= Parts(v)
  {
  }

  lemma {:induction false} PartsOfItem(v: Json, i: nat)
    requires v.Arr? && i < |v.items|
    ensures Parts(v.items[i]) <= Parts(v)
  {
  }

  lemma {:induction false} PartsOfPart(v: Json, n: Json)
    requires n in Parts(v)
    ensures Parts(n) <= Parts(v)
    decreases v
  {
    if n != v {
      match v
      case Arr(items) =>
        var i :| 0 <= i < |items| && n in Parts(items[i]);
        PartsOfPart(items[i], n);
        PartsOfItem(v, i);
      case Obj(fields) =>
        var k :| k in fields && n in Parts(fields[k]);
        PartsOfPart(fields[k], n);
        PartsOfMember(v, k);
    }
  }

  lemma {:induction false} PartIsSmaller(v: Json, n: Json)
    requires n in Parts(v)
    ensures n == v || n < v
    decreases v
  {
    if n != v {
      match v
      case Arr(items) =>
        var i :| 0 <= i < |items| && n in Parts(items[i]);
        PartIsSmaller(items[i], n);
      case Obj(fields) =>
        var k :| k in fields && n in Parts(fields[k]);
        PartIsSmaller(fields[k], n);
    }
  }

  // ----- resources and references -----

  /** A subschema with its own identifier is a resource of its own (Core, section 8.2.1). */
  predicate IsResource(v: Json) {
    v.Obj? && ID in v.fields && v.fields[ID].Str?
  }

  /** The resource against which a node's references are resolved. */
  function Home(home: Json, n: Json): Json {
    if IsResource(n) then n else home
  }

  /** The values of a resource, without the resources embedded in it. */
  ghost function Own(v: Json): set<Json>
    decreases v
  {
    {v} + match v
          case Arr(items) => set i, n | 0 <= i < |items| && !IsResource(items[i]) && n in Own(items[i]) :: n
          case Obj(fields) => set k, n | k in fields && !IsResource(fields[k]) && n in Own(fields[k]) :: n
          case _ => {}
  }

  lemma {:induction false} OwnIsPart(v: Json, n: Json)
    requires n in Own(v)
    ensures n in Parts(v)
    decreases v
  {
    if n != v {
      match v
      case Arr(items) =>
        var i :| 0 <= i < |items| && !IsResource(items[i]) && n in Own(items[i]);
        OwnIsPart(items[i], n);
      case Obj(fields) =>
        var k :| k in fields && !IsResource(fields[k]) && n in Own(fields[k]);
        OwnIsPart(fields[k], n);
    }
  }

  predicate HasAnchor(v: Json, name: string) {
    v.Obj? && ANCHOR in v.fields && v.fields[ANCHOR] == Str(name)
  }

  /** The node that declares the anchor (Core, section 8.2.2), if there is exactly one. */
  ghost function Anchored(home: Json, name: string): Option<Json> {
    if exists n :: n in Own(home) && HasAnchor(n, name) && forall m :: m in Own(home) && HasAnchor(m, name) ==> m == n then
      var n :| n in Own(home) && HasAnchor(n, name);
      Some(n)
    else None
  }

  /** No token leads out of a resource that was entered on the way. */
  predicate StaysInside(v: Json, tokens: seq<string>)
    decreases |tokens|
  {
    |tokens| <= 1
    || match RfcStep(v, tokens[0])
       case None => true
       case Some(next) => !IsResource(next) && StaysInside(next, tokens[1..])
  }

  /** Where a local reference leads (Core, section 8.2.3.1): its fragment is decoded; a pointer is then read by RFC
      6901 unless it crosses into another resource (Core, section 9.2.1), and any other fragment names an anchor. */
  ghost function StdTarget(home: Json, ref: string): Option<Json>
    requires HasPrefix(ref, "#")
  {
    match PercentDecode(ref[1..])
    case None => None
    case Some(fragment) =>
      if fragment == "" then Some(home)
      else if fragment[0] != '/' then Anchored(home, fragment)
      else if StaysInside(home, UnescapeAll(Split(fragment[1..], '/'))) then RfcResolve(home, fragment)
      else None
  }

  lemma {:induction false} RfcFollowedIsPart(v: Json, tokens: seq<string>)
    requires RfcFollow(v, tokens).Some?
    ensures RfcFollow(v, tokens).value in Parts(v)
    decreases |tokens|
  {
    if tokens != [] {
      var next := RfcStep(v, tokens[0]).value;
      StepIsPart(v, tokens[0]);
      RfcFollowedIsPart(next, tokens[1..]);
      PartsOfPart(v, next);
    }
  }

  lemma {:induction false} StepIsPart(v: Json, token: string)
    requires RfcStep(v, token).Some?
    ensures RfcStep(v, token).value in Parts(v)
  {
    if v.Obj? {
      PartsOfMember(v, token);
    } else {
      IndexIsItem(v.items, token, |v.items|);
      var i :| 0 <= i < |v.items| && RfcStep(v, token).value == v.items[i];
      PartsOfItem(v, i);
    }
  }

  lemma {:induction false} IndexIsItem(items: seq<Json>, token: string, n: nat)
    requires n <= |items| && IndexStep(items, token, n).Some?
    ensures exists i :: 0 <= i < |items| && IndexStep(items, token, n).value == items[i]
  {
    if Digits(n - 1) == token {
      assert IndexStep(items, token, n).value == items[n - 1];
    } else {
      IndexIsItem(items, token, n - 1);
    }
  }

  lemma {:induction false} TargetIsPart(home: Json, ref: string)
    requires HasPrefix(ref, "#") && StdTarget(home, ref).Some?
    ensures StdTarget(home, ref).value in Parts(home)
  {
    var fragment := PercentDecode(ref[1..]).value;
    if fragment == "" {
    } else if fragment[0] == '/' {
      RfcFollowedIsPart(home, UnescapeAll(Split(fragment[1..], '/')));
    } else {
      OwnIsPart(home, Anchored(home, fragment).value);
    }
  }

  // ----- the termination measure -----

  /** The steps from a resource along a reference that an evaluation has not taken yet. */
  ghost function Left(home: Json, n: Json, seen: set<(Json, Json)>): set<(Json, Json)> {
    var parts := Parts(home) + Parts(n);
    (set a, b | a in parts && b in parts :: (a, b)) - seen
  }

  lemma {:induction false} StepUsesUp(home: Json, n: Json, ref: string, seen: set<(Json, Json)>)
    requires LocalRef(n) == Some(ref) && StdTarget(home, ref).Some? && (home, Str(ref)) !in seen
    ensures Left(home, StdTarget(home, ref).value, seen + {(home, Str(ref))}) < Left(home, n, seen)
  {
    var target := StdTarget(home, ref).value;
    TargetIsPart(home, ref);
    PartsOfPart(home, target);
    PartsOfMember(n, REF);
    assert Str(ref) in Parts(n) && home in Parts(home);
    assert (home, Str(ref)) in Left(home, n, seen);
    assert (home, Str(ref)) !in Left(home, target, seen + {(home, Str(ref))});
  }

  lemma {:induction false} PartKeepsLeft(home: Json, n: Json, m: Json, seen: set<(Json, Json)>)
    requires m in Parts(n)
    ensures Left(home, m, seen) <= Left(home, n, seen)
  {
    PartsOfPart(n, m);
  }

  lemma {:induction false} HomeKeepsLeft(home: Json, n: Json, seen: set<(Json, Json)>)
    ensures Left(Home(home, n), n, seen) <= Left(home, n, seen)
  {
  }

  lemma {:induction false} ChildIsPart(n: Json, keyword: string, i: nat)
    requires i < |Children(n, keyword)|
    ensures Children(n, keyword)[i] in Parts(n)
  {
    PartsOfMember(n, keyword);
    PartsOfItem(n.fields[keyword], i);
    assert Children(n, keyword)[i] in Parts(Children(n, keyword)[i]);
  }

  // ----- evaluation -----

  /** Whether a node accepts an instance; none where the standard gives no answer or the fragment ends: a keyword
      that is malformed or not read, a reference that leads nowhere or out of the document, or one that comes back to itself. */
  ghost function Eval(d: Dialect, home: Json, n: Json, x: Json, seen: set<(Json, Json)>): Option<bool>
    decreases x, Left(home, n, seen), n, 2, 0
  {
    match n
    case Bool(b) => Some(b)
    case Obj(fields) =>
      var h := Home(home, n);
      HomeKeepsLeft(home, n, seen);
      if !(fields.Keys !! d.unread) then None
      else
        Both(Reference(d, h, n, x, seen),
             Both(Listed(n, ALL, Accepting(d, h, n, ALL, x, seen, 0)),
                  Both(Listed(n, ANY, Accepting(d, h, n, ANY, x, seen, 0)),
                       Both(Listed(n, ONE, Accepting(d, h, n, ONE, x, seen, 0)),
                            Both(Members(d, h, n, x, seen), Assertions(d, n, x))))))
    case _ => None
  }

  function Both(a: Option<bool>, b: Option<bool>): Option<bool> {
    if a.None? || b.None? then None else Some(a.value && b.value)
  }

  ghost function Reference(d: Dialect, home: Json, n: Json, x: Json, seen: set<(Json, Json)>): Option<bool>
    requires n.Obj?
    decreases x, Left(home, n, seen), n, 1, 0
  {
    if REF !in n.fields then Some(true)
    else match LocalRef(n)
      case None => None
      case Some(ref) =>
        if StdTarget(home, ref).None? || (home, Str(ref)) in seen then None
        else
          StepUsesUp(home, n, ref, seen);
          Eval(d, home, StdTarget(home, ref).value, x, seen + {(home, Str(ref))})
  }

  /** How many children from position i on accept the instance; none if one of them gives no answer. */
  ghost function Accepting(
    d: Dialect, home: Json, n: Json, keyword: string, x: Json, seen: set<(Json, Json)>, i: nat): Option<nat>
    requires i <= |Children(n, keyword)|
    decreases x, Left(home, n, seen), n, 1, |Children(n, keyword)| - i
  {
    if i == |Children(n, keyword)| then Some(0)
    else
      ChildIsPart(n, keyword, i);
      PartKeepsLeft(home, n, Children(n, keyword)[i], seen);
      var first := Eval(d, home, Children(n, keyword)[i], x, seen);
      var rest := Accepting(d, home, n, keyword, x, seen, i + 1);
      if first.None? || rest.None? then None else Some((if first.value then 1 else 0) + rest.value)
  }

  /** What the number of accepting children says under a keyword. */
  function Listed(n: Json, keyword: string, accepting: Option<nat>): Option<bool>
    requires n.Obj?
  {
    if keyword !in n.fields then Some(true)
    else if Children(n, keyword) == [] || accepting.None? then None
    else Some(if keyword == ALL then accepting.value == |Children(n, keyword)|
              else if keyword == ANY then accepting.value > 0 else accepting.value == 1)
  }

  /** The names under properties that the instance has. */
  function Shared(n: Json, x: Json): set<string> {
    if n.Obj? && PROPERTIES in n.fields && n.fields[PROPERTIES].Obj? && x.Obj?
    then n.fields[PROPERTIES].fields.Keys * x.fields.Keys else {}
  }

  /** Every shared property is valid; references start afresh below a smaller instance. */
  ghost function Members(d: Dialect, home: Json, n: Json, x: Json, seen: set<(Json, Json)>): Option<bool>
    requires n.Obj?
    decreases x, Left(home, n, seen), n, 1, 0
  {
    if PROPERTIES !in n.fields then Some(true)
    else if !n.fields[PROPERTIES].Obj? then None
    else if exists k :: k in Shared(n, x) && Eval(d, home, n.fields[PROPERTIES].fields[k], x.fields[k], {}).None? then None
    else Some(forall k :: k in Shared(n, x) ==> Eval(d, home, n.fields[PROPERTIES].fields[k], x.fields[k], {}) == Some(true))
  }

  function Assertions(d: Dialect, n: Json, x: Json): Option<bool>
    requires n.Obj?
  {
    var wellFormed := REQUIRED in n.fields ==>
                        n.fields[REQUIRED].Arr? && forall i :: 0 <= i < |n.fields[REQUIRED].items| ==> n.fields[REQUIRED].items[i].Str?;
    if !wellFormed then None
    else Some((CONST in n.fields ==> Same(d.num, n.fields[CONST], x)) && (REQUIRED in n.fields ==> HasAll(n.fields[REQUIRED].items, x)))
  }

  /** An object has every name listed; other instances are not asked. */
  predicate HasAll(names: seq<Json>, x: Json)
    requires forall i :: 0 <= i < |names| ==> names[i].Str?
  {
    x.Obj? ==> forall i :: 0 <= i < |names| ==> names[i].text in x.fields
  }

  ghost predicate Accepts(d: Dialect, root: Json, n: Json, x: Json) {
    Eval(d, root, n, x, {}) == Some(true)
  }

  // ----- references already taken only take answers away -----

  lemma {:induction false} FewerTaken(
    d: Dialect, home: Json, n: Json, x: Json, seen: set<(Json, Json)>, fewer: set<(Json, Json)>)
    requires fewer <= seen && Eval(d, home, n, x, seen).Some?
    ensures Eval(d, home, n, x, fewer) == Eval(d, home, n, x, seen)
    decreases Left(home, n, seen), n, 2, 0
  {
    if n.Obj? {
      var h := Home(home, n);
      HomeKeepsLeft(home, n, seen);
      FewerTakenAtReference(d, h, n, x, seen, fewer);
      FewerTakenInList(d, h, n, ALL, x, seen, fewer, 0);
      FewerTakenInList(d, h, n, ANY, x, seen, fewer, 0);
      FewerTakenInList(d, h, n, ONE, x, seen, fewer, 0);
    }
  }

  lemma {:induction false} FewerTakenAtReference(
    d: Dialect, home: Json, n: Json, x: Json, seen: set<(Json, Json)>, fewer: set<(Json, Json)>)
    requires fewer <= seen && n.Obj? && Reference(d, home, n, x, seen).Some?
    ensures Reference(d, home, n, x, fewer) == Reference(d, home, n, x, seen)
    decreases Left(home, n, seen), n, 1, 0
  {
    if REF in n.fields {
      var ref := LocalRef(n).value;
      StepUsesUp(home, n, ref, seen);
      FewerTaken(d, home, StdTarget(home, ref).value, x, seen + {(home, Str(ref))}, fewer + {(home, Str(ref))});
    }
  }

  lemma {:induction false} FewerTakenInList(
    d: Dialect, home: Json, n: Json, keyword: string, x: Json, seen: set<(Json, Json)>, fewer: set<(Json, Json)>, i: nat)
    requires fewer <= seen && i <= |Children(n, keyword)|
    ensures Accepting(d, home, n, keyword, x, seen, i).Some? ==>
              Accepting(d, home, n, keyword, x, fewer, i) == Accepting(d, home, n, keyword, x, seen, i)
    decreases Left(home, n, seen), n, 1, |Children(n, keyword)| - i
  {
    hide Left, Eval, Parts;
    if i < |Children(n, keyword)| && Accepting(d, home, n, keyword, x, seen, i).Some? {
      ChildIsPart(n, keyword, i);
      PartKeepsLeft(home, n, Children(n, keyword)[i], seen);
      FewerTaken(d, home, Children(n, keyword)[i], x, seen, fewer);
      FewerTakenInList(d, home, n, keyword, x, seen, fewer, i + 1);
    }
  }
}
