/** The schema_version analyses over schemas with possibly cyclic local references: they end on every schema. */
module SchemaVersion {
  import opened Text
  import opened JsonValue
  import opened JsonPointer

  const FIELD := "schema_version"
  const REF := "$ref"
  const ALL := "allOf"
  const ANY := "anyOf"
  const ONE := "oneOf"

  // ----- the termination measure -----

  /** Every text inside a value: no reference that a walk meets lies outside this set. */
  function Texts(v: Json): set<string>
    decreases v
  {
    match v
    case Str(s) => {s}
    case Arr(items) => set i, s | 0 <= i < |items| && s in Texts(items[i]) :: s
    case Obj(fields) => set k, s | k in fields && s in Texts(fields[k]) :: s
    case _ => {}
  }

  /** The references a walk may still follow. */
  function Unseen(root: Json, node: Json, seen: set<string>): set<string> {
    (Texts(root) + Texts(node)) - seen
  }

  lemma {:induction false} TextsOfMember(v: Json, k: string)
    requires v.Obj? && k in v.fields
    ensures Texts(v.fields[k]) <= Texts(v)
  {
  }

  lemma {:induction false} TextsOfItem(v: Json, i: nat)
    requires v.Arr? && i < |v.items|
    ensures Texts(v.items[i]) <= Texts(v)
  {
  }

  lemma {:induction false} TextsOfFollowed(v: Json, segments: seq<string>)
    requires Follow(v, segments).Some?
    ensures Texts(Follow(v, segments).value) <= Texts(v)
    decreases |segments|
  {
    if segments != [] {
      TextsOfMember(v, segments[0]);
      TextsOfFollowed(v.fields[segments[0]], segments[1..]);
    }
  }

  /** Following a reference that was not seen uses it up. */
  lemma {:induction false} RefUsesUp(root: Json, node: Json, seen: set<string>, ref: string)
    requires LocalRef(node) == Some(ref) && ref !in seen && Target(root, ref).Some?
    ensures Unseen(root, Target(root, ref).value, seen + {ref}) < Unseen(root, node, seen)
  {
    TextsOfMember(node, REF);
    assert ref in Texts(node.fields[REF]);
    var p := Drop(ref[1..], "/");
    if p != "" {
      TextsOfFollowed(root, UnescapeAll(Split(p, '/')));
    }
    assert ref in Unseen(root, node, seen);
    assert ref !in Unseen(root, Target(root, ref).value, seen + {ref});
  }

  /** Going down adds no references. */
  lemma {:induction false} ChildKeepsUnseen(root: Json, node: Json, seen: set<string>, keyword: string, i: nat)
    requires i < |Children(node, keyword)|
    ensures Unseen(root, Children(node, keyword)[i], seen) <= Unseen(root, node, seen)
  {
    TextsOfMember(node, keyword);
    TextsOfItem(node.fields[keyword], i);
  }

  // ----- reading a schema node -----

  /** The list under a keyword, empty when it is missing or no list. */
  function Children(node: Json, keyword: string): (children: seq<Json>)
    ensures forall i :: 0 <= i < |children| ==> children[i] < node
  {
    if node.Obj? && keyword in node.fields && node.fields[keyword].Arr? then node.fields[keyword].items else []
  }

  function LocalRef(node: Json): Option<string> {
    if node.Obj? && REF in node.fields && node.fields[REF].Str? && HasPrefix(node.fields[REF].text, "#")
    then Some(node.fields[REF].text) else None
  }

  function Target(root: Json, ref: string): Option<Json>
    requires HasPrefix(ref, "#")
  {
    Resolve(root, ref[1..])
  }

  predicate ListsField(node: Json) {
    node.Obj? && "required" in node.fields && node.fields["required"].Arr? && Str(FIELD) in node.fields["required"].items
  }

  /** The const under properties.schema_version. */
  function FieldConst(node: Json): Option<Json> {
    if node.Obj? && "properties" in node.fields && node.fields["properties"].Obj?
       && FIELD in node.fields["properties"].fields && node.fields["properties"].fields[FIELD].Obj?
       && "const" in node.fields["properties"].fields[FIELD].fields
    then Some(node.fields["properties"].fields[FIELD].fields["const"]) else None
  }

  function DirectConst(node: Json): Option<string> {
    match FieldConst(node)
    case Some(Str(s)) => Some(s)
    case _ => None
  }

  predicate DirectVersion(node: Json, id: string) {
    ListsField(node) && FieldConst(node) == Some(Str(id))
  }

  // ----- specification -----

  predicate RequiresField(node: Json, root: Json, seen: set<string>)
    decreases Unseen(root, node, seen), node, 1
  {
    if !node.Obj? then false
    else match LocalRef(node)
      case Some(ref) =>
        ref !in seen && Target(root, ref).Some? &&
        (RefUsesUp(root, node, seen, ref); RequiresField(Target(root, ref).value, root, seen + {ref}))
      case None =>
        || ListsField(node)
        || (Children(node, ONE) != [] && AllRequireField(node, ONE, root, seen))
        || (Children(node, ANY) != [] && AllRequireField(node, ANY, root, seen))
        || SomeRequiresField(node, root, seen)
  }

  predicate AllRequireField(node: Json, keyword: string, root: Json, seen: set<string>)
    decreases Unseen(root, node, seen), node, 0
  {
    forall i :: 0 <= i < |Children(node, keyword)| ==>
      (ChildKeepsUnseen(root, node, seen, keyword, i); RequiresField(Children(node, keyword)[i], root, seen))
  }

  predicate SomeRequiresField(node: Json, root: Json, seen: set<string>)
    decreases Unseen(root, node, seen), node, 0
  {
    exists i :: 0 <= i < |Children(node, ALL)| &&
      (ChildKeepsUnseen(root, node, seen, ALL, i); RequiresField(Children(node, ALL)[i], root, seen))
  }

  function FirstConst(node: Json, root: Json, seen: set<string>): Option<string>
    decreases Unseen(root, node, seen), node, |Children(node, ALL)| + |Children(node, ONE)| + |Children(node, ANY)| + 3
  {
    if !node.Obj? then None
    else match LocalRef(node)
      case Some(ref) =>
        if ref in seen || Target(root, ref).None? then None
        else (RefUsesUp(root, node, seen, ref); FirstConst(Target(root, ref).value, root, seen + {ref}))
      case None =>
        if DirectConst(node).Some? then DirectConst(node)
        else if FirstConstFrom(node, ALL, root, seen, 0).Some? then FirstConstFrom(node, ALL, root, seen, 0)
        else if FirstConstFrom(node, ONE, root, seen, 0).Some? then FirstConstFrom(node, ONE, root, seen, 0)
        else FirstConstFrom(node, ANY, root, seen, 0)
  }

  /** The first child from position i on that has a const. */
  function FirstConstFrom(node: Json, keyword: string, root: Json, seen: set<string>, i: nat): Option<string>
    requires i <= |Children(node, keyword)|
    requires keyword == ALL || keyword == ONE || keyword == ANY
    decreases Unseen(root, node, seen), node, |Children(node, keyword)| - i
  {
    if i == |Children(node, keyword)| then None
    else
      var found := (ChildKeepsUnseen(root, node, seen, keyword, i); FirstConst(Children(node, keyword)[i], root, seen));
      if found.Some? then found else FirstConstFrom(node, keyword, root, seen, i + 1)
  }

  predicate RequiresVersion(node: Json, id: string, root: Json, seen: set<string>)
    decreases Unseen(root, node, seen), node, 1
  {
    if !node.Obj? then false
    else match LocalRef(node)
      case Some(ref) =>
        ref !in seen && Target(root, ref).Some? &&
        (RefUsesUp(root, node, seen, ref); RequiresVersion(Target(root, ref).value, id, root, seen + {ref}))
      case None =>
        || DirectVersion(node, id)
        || SomeRequiresVersion(node, id, root, seen)
        || RuleTwo(node, id, root, seen)
        || (Children(node, ONE) != [] && AllRequireVersion(node, ONE, id, root, seen))
        || (Children(node, ANY) != [] && AllRequireVersion(node, ANY, id, root, seen))
        || (Children(node, ALL) != [] && AllRequireVersion(node, ALL, id, root, seen))
  }

  predicate SomeRequiresVersion(node: Json, id: string, root: Json, seen: set<string>)
    decreases Unseen(root, node, seen), node, 0
  {
    exists i :: 0 <= i < |Children(node, ALL)| &&
      (ChildKeepsUnseen(root, node, seen, ALL, i); RequiresVersion(Children(node, ALL)[i], id, root, seen))
  }

  predicate AllRequireVersion(node: Json, keyword: string, id: string, root: Json, seen: set<string>)
    decreases Unseen(root, node, seen), node, 0
  {
    forall i :: 0 <= i < |Children(node, keyword)| ==>
      (ChildKeepsUnseen(root, node, seen, keyword, i); RequiresVersion(Children(node, keyword)[i], id, root, seen))
  }

  predicate FieldAmong(children: seq<Json>, root: Json, seen: set<string>) {
    exists i :: 0 <= i < |children| && RequiresField(children[i], root, seen)
  }

  predicate ConstAmong(children: seq<Json>, id: string, root: Json, seen: set<string>) {
    exists i :: 0 <= i < |children| && FirstConst(children[i], root, seen) == Some(id)
  }

  /** One allOf child requires the field and one, perhaps another, is found to hold the const. */
  predicate RuleTwo(node: Json, id: string, root: Json, seen: set<string>) {
    FieldAmong(Children(node, ALL), root, seen) && ConstAmong(Children(node, ALL), id, root, seen)
  }

  lemma {:induction false} AmongSnoc(children: seq<Json>, id: string, root: Json, seen: set<string>, i: nat)
    requires i < |children|
    ensures FieldAmong(children[..i + 1], root, seen) <==>
            FieldAmong(children[..i], root, seen) || RequiresField(children[i], root, seen)
    ensures ConstAmong(children[..i + 1], id, root, seen) <==>
            ConstAmong(children[..i], id, root, seen) || FirstConst(children[i], root, seen) == Some(id)
  {
    var before, after := children[..i], children[..i + 1];
    assert forall k :: 0 <= k < i ==> after[k] == before[k];
    assert after[i] == children[i];
  }

  // ----- the analyses -----

  method AllChildrenRequireField(node: Json, keyword: string, root: Json, seen: set<string>) returns (all: bool)
    ensures all == AllRequireField(node, keyword, root, seen)
    decreases Unseen(root, node, seen), node, 0
  {
    var children := Children(node, keyword);
    all := true;
    for i := 0 to |children|
      invariant all
      invariant forall k :: 0 <= k < i ==> RequiresField(children[k], root, seen)
    {
      ChildKeepsUnseen(root, node, seen, keyword, i);
      var requires_ := SchemaNodeRequiresSchemaVersionField(children[i], root, seen);
      if !requires_ {
        all := false;
        break;
      }
    }
  }

  method SchemaNodeRequiresSchemaVersionField(node: Json, root: Json, seen: set<string>) returns (yes: bool)
    ensures yes == RequiresField(node, root, seen)
    decreases Unseen(root, node, seen), node, 1
  {
    if !node.Obj? {
      return false;
    }
    if LocalRef(node).Some? {
      var ref := LocalRef(node).value;
      if ref in seen {
        return false;
      }
      var resolved := ResolveJSONPointer(root, ref[1..]);
      if resolved.None? {
        return false;
      }
      RefUsesUp(root, node, seen, ref);
      yes := SchemaNodeRequiresSchemaVersionField(resolved.value, root, seen + {ref});
      return;
    }
    if ListsField(node) {
      return true;
    }
    if Children(node, ONE) != [] {
      yes := AllChildrenRequireField(node, ONE, root, seen);
      if yes {
        return;
      }
    }
    if Children(node, ANY) != [] {
      yes := AllChildrenRequireField(node, ANY, root, seen);
      if yes {
        return;
      }
    }
    var children := Children(node, ALL);
    for i := 0 to |children|
      invariant forall k :: 0 <= k < i ==> !RequiresField(children[k], root, seen)
    {
      ChildKeepsUnseen(root, node, seen, ALL, i);
      yes := SchemaNodeRequiresSchemaVersionField(children[i], root, seen);
      if yes {
        return;
      }
    }
    yes := false;
  }

  method FirstSchemaVersionConstUnder(node: Json, keyword: string, root: Json, seen: set<string>)
    returns (found: Option<string>)
    requires keyword == ALL || keyword == ONE || keyword == ANY
    ensures found == FirstConstFrom(node, keyword, root, seen, 0)
    decreases Unseen(root, node, seen), node, 0
  {
    var children := Children(node, keyword);
    for i := 0 to |children|
      invariant FirstConstFrom(node, keyword, root, seen, 0) == FirstConstFrom(node, keyword, root, seen, i)
    {
      ChildKeepsUnseen(root, node, seen, keyword, i);
      found := FirstSchemaVersionConst(children[i], root, seen);
      if found.Some? {
        return;
      }
    }
    found := None;
  }

  method FirstSchemaVersionConst(node: Json, root: Json, seen: set<string>) returns (found: Option<string>)
    ensures found == FirstConst(node, root, seen)
    decreases Unseen(root, node, seen), node, 1
  {
    if !node.Obj? {
      return None;
    }
    if LocalRef(node).Some? {
      var ref := LocalRef(node).value;
      if ref in seen {
        return None;
      }
      var resolved := ResolveJSONPointer(root, ref[1..]);
      if resolved.None? {
        return None;
      }
      RefUsesUp(root, node, seen, ref);
      found := FirstSchemaVersionConst(resolved.value, root, seen + {ref});
      return;
    }
    if DirectConst(node).Some? {
      return DirectConst(node);
    }
    found := FirstSchemaVersionConstUnder(node, ALL, root, seen);
    if found.Some? {
      return;
    }
    found := FirstSchemaVersionConstUnder(node, ONE, root, seen);
    if found.Some? {
      return;
    }
    found := FirstSchemaVersionConstUnder(node, ANY, root, seen);
  }

  method AllChildrenRequireVersion(node: Json, keyword: string, id: string, root: Json, seen: set<string>)
    returns (all: bool)
    ensures all == AllRequireVersion(node, keyword, id, root, seen)
    decreases Unseen(root, node, seen), node, 0
  {
    var children := Children(node, keyword);
    all := true;
    for i := 0 to |children|
      invariant all
      invariant forall k :: 0 <= k < i ==> RequiresVersion(children[k], id, root, seen)
    {
      ChildKeepsUnseen(root, node, seen, keyword, i);
      var requires_ := SchemaNodeRequiresSchemaVersion(children[i], id, root, seen);
      if !requires_ {
        all := false;
        break;
      }
    }
  }

  /** The allOf part: one child settles it alone, or two findings together. */
  method AllOfRequiresVersion(node: Json, id: string, root: Json, seen: set<string>) returns (yes: bool)
    ensures yes == (SomeRequiresVersion(node, id, root, seen) || RuleTwo(node, id, root, seen))
    decreases Unseen(root, node, seen), node, 0
  {
    var children := Children(node, ALL);
    var requiresField, hasMatchingConst := false, false;
    for i := 0 to |children|
      invariant forall k :: 0 <= k < i ==> !RequiresVersion(children[k], id, root, seen)
      invariant requiresField <==> FieldAmong(children[..i], root, seen)
      invariant hasMatchingConst <==> ConstAmong(children[..i], id, root, seen)
    {
      AmongSnoc(children, id, root, seen, i);
      ChildKeepsUnseen(root, node, seen, ALL, i);
      yes := SchemaNodeRequiresSchemaVersion(children[i], id, root, seen);
      if yes {
        return;
      }
      var lists := SchemaNodeRequiresSchemaVersionField(children[i], root, seen);
      if lists {
        requiresField := true;
      }
      var found := FirstSchemaVersionConst(children[i], root, seen);
      if found == Some(id) {
        hasMatchingConst := true;
      }
    }
    assert children[..|children|] == children;
    yes := requiresField && hasMatchingConst;
  }

  method SchemaNodeRequiresSchemaVersion(node: Json, id: string, root: Json, seen: set<string>) returns (yes: bool)
    ensures yes == RequiresVersion(node, id, root, seen)
    decreases Unseen(root, node, seen), node, 1
  {
    if !node.Obj? {
      return false;
    }
    if LocalRef(node).Some? {
      var ref := LocalRef(node).value;
      if ref in seen {
        return false;
      }
      var resolved := ResolveJSONPointer(root, ref[1..]);
      if resolved.None? {
        return false;
      }
      RefUsesUp(root, node, seen, ref);
      yes := SchemaNodeRequiresSchemaVersion(resolved.value, id, root, seen + {ref});
      return;
    }
    if DirectVersion(node, id) {
      return true;
    }
    yes := AllOfRequiresVersion(node, id, root, seen);
    if yes {
      return;
    }
    if Children(node, ONE) != [] {
      yes := AllChildrenRequireVersion(node, ONE, id, root, seen);
      if yes {
        return;
      }
    }
    if Children(node, ANY) != [] {
      yes := AllChildrenRequireVersion(node, ANY, id, root, seen);
      if yes {
        return;
      }
    }
    if Children(node, ALL) != [] {
      yes := AllChildrenRequireVersion(node, ALL, id, root, seen);
      return;
    }
    yes := false;
  }
}
