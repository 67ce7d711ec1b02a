/** What the schema_version analyses find, by derivations: trees and paths that anyone can check, apart from the search. */
module SchemaDerivation {
  import opened Text
  import opened JsonValue
  import opened JsonPointer
  import opened SchemaVersion

  // ----- why a field is required -----

  /** Why a node requires the field: it lists it; or the node that its local reference leads to does; or one of its
      allOf children does; or every child of its oneOf or anyOf does. */
  datatype FieldProof =
    | Listed
    | ByRef(sub: FieldProof)
    | ByOne(i: nat, sub: FieldProof)
    | ByEvery(keyword: string, subs: seq<FieldProof>)

  ghost predicate ProvesField(p: FieldProof, node: Json, root: Json)
    decreases p
  {
    && node.Obj?
    && match p
       case Listed => LocalRef(node).None? && ListsField(node)
       case ByRef(sub) =>
         && LocalRef(node).Some? && Target(root, LocalRef(node).value).Some?
         && ProvesField(sub, Target(root, LocalRef(node).value).value, root)
       case ByOne(i, sub) =>
         LocalRef(node).None? && i < |Children(node, ALL)| && ProvesField(sub, Children(node, ALL)[i], root)
       case ByEvery(keyword, subs) =>
         && LocalRef(node).None? && (keyword == ONE || keyword == ANY)
         && |subs| == |Children(node, keyword)| > 0
         && forall i :: 0 <= i < |subs| ==> ProvesField(subs[i], Children(node, keyword)[i], root)
  }

  /** The references that a proof follows. */
  ghost function Followed(p: FieldProof, node: Json, root: Json): set<string>
    requires ProvesField(p, node, root)
    decreases p
  {
    match p
    case Listed => {}
    case ByRef(sub) => {LocalRef(node).value} + Followed(sub, Target(root, LocalRef(node).value).value, root)
    case ByOne(i, sub) => Followed(sub, Children(node, ALL)[i], root)
    case ByEvery(keyword, subs) =>
      set i, ref | 0 <= i < |subs| && ref in Followed(subs[i], Children(node, keyword)[i], root) :: ref
  }

  /** Inside a proof that follows a reference stands a smaller proof for the node that it leads to. */
  lemma {:induction false} InnerProof(p: FieldProof, node: Json, root: Json, ref: string) returns (q: FieldProof)
    requires ProvesField(p, node, root) && ref in Followed(p, node, root) && HasPrefix(ref, "#")
    ensures q < p && Target(root, ref).Some? && ProvesField(q, Target(root, ref).value, root)
    ensures Followed(q, Target(root, ref).value, root) <= Followed(p, node, root)
    decreases p
  {
    match p {
      case ByRef(sub) =>
        if ref == LocalRef(node).value {
          q := sub;
        } else {
          q := InnerProof(sub, Target(root, LocalRef(node).value).value, root, ref);
        }
      case ByOne(i, sub) =>
        q := InnerProof(sub, Children(node, ALL)[i], root, ref);
      case ByEvery(keyword, subs) =>
        var i :| 0 <= i < |subs| && ref in Followed(subs[i], Children(node, keyword)[i], root);
        q := InnerProof(subs[i], Children(node, keyword)[i], root, ref);
    }
  }

  /** What a reference leads to can be proved without following that reference again. */
  lemma {:induction false} WithoutReturn(p: FieldProof, root: Json, ref: string) returns (q: FieldProof)
    requires HasPrefix(ref, "#") && Target(root, ref).Some? && ProvesField(p, Target(root, ref).value, root)
    ensures ProvesField(q, Target(root, ref).value, root)
    ensures Followed(q, Target(root, ref).value, root) <= Followed(p, Target(root, ref).value, root) - {ref}
    decreases p
  {
    q := p;
    if ref in Followed(p, Target(root, ref).value, root) {
      var inner := InnerProof(p, Target(root, ref).value, root, ref);
      q := WithoutReturn(inner, root, ref);
    }
  }

  /** A proof that avoids the references already seen is found. */
  lemma {:induction false} FieldFound(p: FieldProof, node: Json, root: Json, seen: set<string>)
    requires ProvesField(p, node, root) && Followed(p, node, root) !! seen
    ensures RequiresField(node, root, seen)
    decreases Unseen(root, node, seen), node
  {
    match p {
      case Listed =>
      case ByRef(sub) =>
        var ref := LocalRef(node).value;
        assert ref in Followed(p, node, root);
        var q := WithoutReturn(sub, root, ref);
        RefUsesUp(root, node, seen, ref);
        FieldFound(q, Target(root, ref).value, root, seen + {ref});
      case ByOne(i, sub) =>
        ChildKeepsUnseen(root, node, seen, ALL, i);
        FieldFound(sub, Children(node, ALL)[i], root, seen);
        assert SomeRequiresField(node, root, seen);
      case ByEvery(keyword, subs) =>
        forall i | 0 <= i < |Children(node, keyword)| ensures RequiresField(Children(node, keyword)[i], root, seen) {
          ChildKeepsUnseen(root, node, seen, keyword, i);
          assert Followed(subs[i], Children(node, keyword)[i], root) <= Followed(p, node, root);
          FieldFound(subs[i], Children(node, keyword)[i], root, seen);
        }
        assert AllRequireField(node, keyword, root, seen);
    }
  }

  ghost predicate Avoids(p: FieldProof, node: Json, root: Json, seen: set<string>) {
    ProvesField(p, node, root) && Followed(p, node, root) !! seen
  }

  /** Whatever is found has such a proof. */
  lemma {:induction false} FieldProved(node: Json, root: Json, seen: set<string>) returns (p: FieldProof)
    requires RequiresField(node, root, seen)
    ensures Avoids(p, node, root, seen)
    decreases Unseen(root, node, seen), node, 1
  {
    hide Avoids;
    if LocalRef(node).Some? {
      var ref := LocalRef(node).value;
      RefUsesUp(root, node, seen, ref);
      var sub := FieldProved(Target(root, ref).value, root, seen + {ref});
      p := RefProved(sub, node, ref, root, seen);
    } else if ListsField(node) {
      p := ListedProved(node, root, seen);
    } else if Children(node, ONE) != [] && AllRequireField(node, ONE, root, seen) {
      p := EveryProved(node, ONE, root, seen);
    } else if Children(node, ANY) != [] && AllRequireField(node, ANY, root, seen) {
      p := EveryProved(node, ANY, root, seen);
    } else {
      var i :| 0 <= i < |Children(node, ALL)| && RequiresField(Children(node, ALL)[i], root, seen);
      ChildKeepsUnseen(root, node, seen, ALL, i);
      var sub := FieldProved(Children(node, ALL)[i], root, seen);
      p := OneProved(sub, node, i, root, seen);
    }
  }

  lemma {:induction false} RefProved(sub: FieldProof, node: Json, ref: string, root: Json, seen: set<string>) returns (p: FieldProof)
    requires LocalRef(node) == Some(ref) && ref !in seen && Target(root, ref).Some?
    requires Avoids(sub, Target(root, ref).value, root, seen + {ref})
    ensures p == ByRef(sub) && Avoids(p, node, root, seen)
  {
    p := ByRef(sub);
  }

  lemma {:induction false} OneProved(sub: FieldProof, node: Json, i: nat, root: Json, seen: set<string>) returns (p: FieldProof)
    requires node.Obj? && LocalRef(node).None? && i < |Children(node, ALL)| && Avoids(sub, Children(node, ALL)[i], root, seen)
    ensures p == ByOne(i, sub) && Avoids(p, node, root, seen)
  {
    p := ByOne(i, sub);
  }

  lemma {:induction false} ListedProved(node: Json, root: Json, seen: set<string>) returns (p: FieldProof)
    requires LocalRef(node).None? && ListsField(node)
    ensures Avoids(p, node, root, seen)
  {
    p := Listed;
  }

  lemma {:induction false} EveryProved(node: Json, keyword: string, root: Json, seen: set<string>) returns (p: FieldProof)
    requires node.Obj? && LocalRef(node).None? && (keyword == ONE || keyword == ANY) && Children(node, keyword) != []
    requires AllRequireField(node, keyword, root, seen)
    ensures Avoids(p, node, root, seen)
    decreases Unseen(root, node, seen), node, 0
  {
    var children, subs := Children(node, keyword), [];
    while |subs| < |children|
      invariant |subs| <= |children|
      invariant forall i :: 0 <= i < |subs| ==> Avoids(subs[i], children[i], root, seen)
    {
      ChildKeepsUnseen(root, node, seen, keyword, |subs|);
      var sub := FieldProved(children[|subs|], root, seen);
      subs := subs + [sub];
    }
    p := ByEvery(keyword, subs);
  }

  ghost predicate FieldDerivable(node: Json, root: Json) {
    exists p :: ProvesField(p, node, root)
  }

  /** The analysis says yes exactly when there is a proof that follows no reference already seen. */
  lemma {:induction false} FieldExactlyAfter(node: Json, root: Json, seen: set<string>)
    ensures RequiresField(node, root, seen) <==> exists p :: Avoids(p, node, root, seen)
  {
    if RequiresField(node, root, seen) {
      var p := FieldProved(node, root, seen);
    }
    if p :| Avoids(p, node, root, seen) {
      FieldFound(p, node, root, seen);
    }
  }

  /** At the start, with nothing seen, it says yes exactly when there is a proof at all: the guard against cyclic
      references costs no answer. */
  lemma {:induction false} FieldExactly(node: Json, root: Json)
    ensures RequiresField(node, root, {}) <==> FieldDerivable(node, root)
  {
    FieldExactlyAfter(node, root, {});
    hide RequiresField, ProvesField;
    if FieldDerivable(node, root) {
      var p :| ProvesField(p, node, root);
      assert Avoids(p, node, root, {});
    }
  }

  // ----- where the const is found -----

  /** One step of the search: through a local reference, or into a child. */
  datatype Step = Through | Into(keyword: string, i: nat)

  predicate Searched(keyword: string) {
    keyword == ALL || keyword == ONE || keyword == ANY
  }

  /** The path leads from the node to a const, follows no reference twice and none that was seen, and passes no const. */
  ghost predicate Leads(path: seq<Step>, node: Json, root: Json, seen: set<string>, c: string)
    decreases |path|
  {
    && node.Obj?
    && match LocalRef(node)
       case Some(ref) =>
         && path != [] && path[0].Through? && ref !in seen && Target(root, ref).Some?
         && Leads(path[1..], Target(root, ref).value, root, seen + {ref}, c)
       case None =>
         if path == [] then FieldConst(node) == Some(Str(c))
         else
           && DirectConst(node).None? && path[0].Into? && Searched(path[0].keyword)
           && path[0].i < |Children(node, path[0].keyword)|
           && Leads(path[1..], Children(node, path[0].keyword)[path[0].i], root, seen, c)
  }

  function Rank(keyword: string): nat {
    if keyword == ALL then 0 else if keyword == ONE then 1 else 2
  }

  /** allOf before oneOf before anyOf, and children in order. */
  predicate StepBefore(a: Step, b: Step) {
    a.Into? && b.Into? && (Rank(a.keyword) < Rank(b.keyword) || (a.keyword == b.keyword && a.i < b.i))
  }

  /** Where the paths part, p takes the earlier step. */
  ghost predicate Earlier(p: seq<Step>, q: seq<Step>) {
    exists n :: 0 <= n < |p| && n < |q| && p[..n] == q[..n] && StepBefore(p[n], q[n])
  }

  ghost predicate NoPath(node: Json, root: Json, seen: set<string>) {
    forall q, d :: !Leads(q, node, root, seen, d)
  }

  /** The path leads to this const, and every other path to a const is later. */
  ghost predicate FirstPath(path: seq<Step>, node: Json, root: Json, seen: set<string>, c: string) {
    && Leads(path, node, root, seen, c)
    && forall q, d :: Leads(q, node, root, seen, d) && q != path ==> Earlier(path, q)
  }

  lemma {:induction false} EarlierCons(a: Step, p: seq<Step>, q: seq<Step>)
    requires Earlier(p, q)
    ensures Earlier([a] + p, [a] + q)
  {
    var n :| 0 <= n < |p| && n < |q| && p[..n] == q[..n] && StepBefore(p[n], q[n]);
    assert ([a] + p)[..n + 1] == [a] + p[..n] && ([a] + q)[..n + 1] == [a] + q[..n];
    assert ([a] + p)[n + 1] == p[n] && ([a] + q)[n + 1] == q[n];
  }

  lemma {:induction false} SameUntil(p: seq<Step>, q: seq<Step>, n: nat)
    requires n <= |p| && n <= |q| && p[..n] == q[..n]
    ensures forall k :: 0 <= k < n ==> p[k] == q[k]
  {
    forall k | 0 <= k < n ensures p[k] == q[k] {
      assert p[k] == p[..n][k] == q[..n][k] == q[k];
    }
  }

  lemma {:induction false} EarlierStrict(p: seq<Step>, q: seq<Step>)
    requires Earlier(p, q)
    ensures !Earlier(q, p) && p != q
  {
    var n :| 0 <= n < |p| && n < |q| && p[..n] == q[..n] && StepBefore(p[n], q[n]);
    SameUntil(p, q, n);
    if Earlier(q, p) {
      var m :| 0 <= m < |q| && m < |p| && q[..m] == p[..m] && StepBefore(q[m], p[m]);
      SameUntil(q, p, m);
    }
  }

  lemma {:induction false} PathFixesConst(path: seq<Step>, node: Json, root: Json, seen: set<string>, c: string, d: string)
    requires Leads(path, node, root, seen, c) && Leads(path, node, root, seen, d)
    ensures c == d
    decreases |path|
  {
    match LocalRef(node)
    case Some(ref) => PathFixesConst(path[1..], Target(root, ref).value, root, seen + {ref}, c, d);
    case None =>
      if path != [] {
        PathFixesConst(path[1..], Children(node, path[0].keyword)[path[0].i], root, seen, c, d);
      }
  }

  /** What the search below a node found, as paths. */
  ghost predicate Finds(found: Option<string>, path: seq<Step>, node: Json, root: Json, seen: set<string>) {
    match found
    case None => NoPath(node, root, seen)
    case Some(c) => FirstPath(path, node, root, seen, c)
  }

  /** The node leaves the search to its children. */
  ghost predicate Inner(node: Json) {
    node.Obj? && LocalRef(node).None? && DirectConst(node).None?
  }

  ghost predicate NoPathVia(node: Json, keyword: string, i: nat, root: Json, seen: set<string>) {
    i < |Children(node, keyword)| ==> NoPath(Children(node, keyword)[i], root, seen)
  }

  /** Below the keyword, from position i on, the child at position j is the first with a path. */
  ghost predicate FindsFrom(
    found: Option<string>, path: seq<Step>, j: nat, node: Json, keyword: string, root: Json, seen: set<string>, i: nat)
  {
    match found
    case None => forall m :: i <= m < |Children(node, keyword)| ==> NoPathVia(node, keyword, m, root, seen)
    case Some(c) =>
      && i <= j < |Children(node, keyword)| && FirstPath(path, Children(node, keyword)[j], root, seen, c)
      && forall m :: i <= m < j ==> NoPathVia(node, keyword, m, root, seen)
  }

  lemma {:induction false} SearchFrom(node: Json, keyword: string, root: Json, seen: set<string>, i: nat)
    returns (path: seq<Step>, j: nat)
    requires i <= |Children(node, keyword)| && Searched(keyword)
    ensures FindsFrom(FirstConstFrom(node, keyword, root, seen, i), path, j, node, keyword, root, seen, i)
    decreases Unseen(root, node, seen), node, |Children(node, keyword)| - i
  {
    path, j := [], i;
    if i < |Children(node, keyword)| {
      ChildKeepsUnseen(root, node, seen, keyword, i);
      path := SearchFinds(Children(node, keyword)[i], root, seen);
      if FirstConst(Children(node, keyword)[i], root, seen).None? {
        path, j := SearchFrom(node, keyword, root, seen, i + 1);
      }
    }
  }

  lemma {:induction false} ThroughFirst(path: seq<Step>, node: Json, root: Json, seen: set<string>, c: string, ref: string)
    requires node.Obj? && LocalRef(node) == Some(ref) && ref !in seen && Target(root, ref).Some?
    requires FirstPath(path, Target(root, ref).value, root, seen + {ref}, c)
    ensures FirstPath([Through] + path, node, root, seen, c)
  {
    var full := [Through] + path;
    assert full[1..] == path;
    forall q: seq<Step>, d | Leads(q, node, root, seen, d) && q != full ensures Earlier(full, q) {
      assert q == [Through] + q[1..];
      assert Leads(q[1..], Target(root, ref).value, root, seen + {ref}, d);
      EarlierCons(Through, path, q[1..]);
    }
  }

  /** No child before the one at (keyword, j), in the order of the search, has a path. */
  ghost predicate NothingBefore(node: Json, keyword: string, j: nat, root: Json, seen: set<string>) {
    forall k, m: nat :: Searched(k) && StepBefore(Into(k, m), Into(keyword, j)) ==> NoPathVia(node, k, m, root, seen)
  }

  lemma {:induction false} IntoFirst(path: seq<Step>, node: Json, keyword: string, j: nat, root: Json, seen: set<string>, c: string)
    requires Inner(node) && Searched(keyword) && j < |Children(node, keyword)|
    requires FirstPath(path, Children(node, keyword)[j], root, seen, c) && NothingBefore(node, keyword, j, root, seen)
    ensures FirstPath([Into(keyword, j)] + path, node, root, seen, c)
  {
    var full := [Into(keyword, j)] + path;
    assert full[1..] == path;
    forall q: seq<Step>, d | Leads(q, node, root, seen, d) && q != full ensures Earlier(full, q) {
      assert q == [q[0]] + q[1..];
      if q[0] == full[0] {
        assert Leads(q[1..], Children(node, keyword)[j], root, seen, d);
        EarlierCons(full[0], path, q[1..]);
      } else {
        assert Leads(q[1..], Children(node, q[0].keyword)[q[0].i], root, seen, d);
        assert !NoPathVia(node, q[0].keyword, q[0].i, root, seen);
        assert !StepBefore(q[0], full[0]);
        assert full[..0] == q[..0];
      }
    }
  }

  lemma {:induction false} NoPathBelow(node: Json, root: Json, seen: set<string>)
    requires Inner(node)
    requires forall k, m: nat :: Searched(k) ==> NoPathVia(node, k, m, root, seen)
    ensures NoPath(node, root, seen)
  {
    forall q: seq<Step>, d ensures !Leads(q, node, root, seen, d) {
      if Leads(q, node, root, seen, d) && q != [] {
        assert NoPathVia(node, q[0].keyword, q[0].i, root, seen);
      }
    }
  }

  lemma {:induction false} SearchBelow(node: Json, root: Json, seen: set<string>) returns (path: seq<Step>)
    requires Inner(node)
    ensures Finds(FirstConst(node, root, seen), path, node, root, seen)
    decreases Unseen(root, node, seen), node, |Children(node, ALL)| + |Children(node, ONE)| + |Children(node, ANY)| + 2
  {
    hide FirstConst, FirstConstFrom, FirstPath, NoPath, Leads;
    var inAll, i := SearchFrom(node, ALL, root, seen, 0);
    var inOne, j := SearchFrom(node, ONE, root, seen, 0);
    var inAny, k := SearchFrom(node, ANY, root, seen, 0);
    var all, one := FirstConstFrom(node, ALL, root, seen, 0), FirstConstFrom(node, ONE, root, seen, 0);
    var any := FirstConstFrom(node, ANY, root, seen, 0);
    Unfolded(node, root, seen);
    path := [];
    if all.Some? {
      path := [Into(ALL, i)] + inAll;
      IntoFirst(inAll, node, ALL, i, root, seen, all.value);
    } else if one.Some? {
      path := [Into(ONE, j)] + inOne;
      IntoFirst(inOne, node, ONE, j, root, seen, one.value);
    } else if any.Some? {
      path := [Into(ANY, k)] + inAny;
      IntoFirst(inAny, node, ANY, k, root, seen, any.value);
    } else {
      NoPathBelow(node, root, seen);
    }
  }

  lemma {:induction false} Unfolded(node: Json, root: Json, seen: set<string>)
    requires Inner(node)
    ensures FirstConst(node, root, seen) ==
            if FirstConstFrom(node, ALL, root, seen, 0).Some? then FirstConstFrom(node, ALL, root, seen, 0)
            else if FirstConstFrom(node, ONE, root, seen, 0).Some? then FirstConstFrom(node, ONE, root, seen, 0)
            else FirstConstFrom(node, ANY, root, seen, 0)
  {
  }

  /** The search finds the const at the end of the first path, and nothing exactly when no path leads to a const. */
  lemma {:induction false} SearchFinds(node: Json, root: Json, seen: set<string>) returns (path: seq<Step>)
    ensures Finds(FirstConst(node, root, seen), path, node, root, seen)
    decreases Unseen(root, node, seen), node, |Children(node, ALL)| + |Children(node, ONE)| + |Children(node, ANY)| + 3
  {
    path := [];
    if !node.Obj? {
    } else if LocalRef(node).Some? {
      var ref := LocalRef(node).value;
      if ref !in seen && Target(root, ref).Some? {
        RefUsesUp(root, node, seen, ref);
        var sub := SearchFinds(Target(root, ref).value, root, seen + {ref});
        if FirstConst(node, root, seen).Some? {
          path := [Through] + sub;
          ThroughFirst(sub, node, root, seen, FirstConst(node, root, seen).value, ref);
        }
      }
    } else if DirectConst(node).Some? {
    } else {
      path := SearchBelow(node, root, seen);
    }
  }

  /** This const stands at the end of the first path. */
  ghost predicate ConstFound(node: Json, root: Json, seen: set<string>, c: string) {
    exists path :: FirstPath(path, node, root, seen, c)
  }

  lemma {:induction false} ConstExactly(node: Json, root: Json, seen: set<string>, c: string)
    ensures FirstConst(node, root, seen) == Some(c) <==> ConstFound(node, root, seen, c)
    ensures FirstConst(node, root, seen).None? <==> NoPath(node, root, seen)
  {
    var found := SearchFinds(node, root, seen);
    hide FirstConst, Earlier;
    if path :| FirstPath(path, node, root, seen, c) {
      assert Leads(path, node, root, seen, c);
      var d := FirstConst(node, root, seen).value;
      if path != found {
        EarlierStrict(path, found);
      } else {
        PathFixesConst(path, node, root, seen, c, d);
      }
    }
  }

  // ----- why a version is required -----

  /** Why a node requires the version: it lists the field and holds the const; or the node that its local reference,
      not yet seen, leads to requires it; or one of its allOf children does; or every child of its oneOf or anyOf does;
      or one allOf child requires the field and the first const found below another one is the version. */
  datatype VersionProof =
    | Direct
    | ByReference(sub: VersionProof)
    | ByChild(i: nat, sub: VersionProof)
    | ByAlternatives(keyword: string, subs: seq<VersionProof>)
    | BySplit(i: nat, field: FieldProof, j: nat, path: seq<Step>)

  ghost predicate ProvesVersion(p: VersionProof, node: Json, id: string, root: Json, seen: set<string>)
    decreases p
  {
    && node.Obj?
    && match p
       case Direct => LocalRef(node).None? && ListsField(node) && FieldConst(node) == Some(Str(id))
       case ByReference(sub) =>
         && LocalRef(node).Some? && LocalRef(node).value !in seen && Target(root, LocalRef(node).value).Some?
         && ProvesVersion(sub, Target(root, LocalRef(node).value).value, id, root, seen + {LocalRef(node).value})
       case ByChild(i, sub) =>
         LocalRef(node).None? && i < |Children(node, ALL)| && ProvesVersion(sub, Children(node, ALL)[i], id, root, seen)
       case ByAlternatives(keyword, subs) =>
         && LocalRef(node).None? && (keyword == ONE || keyword == ANY)
         && |subs| == |Children(node, keyword)| > 0
         && forall i :: 0 <= i < |subs| ==> ProvesVersion(subs[i], Children(node, keyword)[i], id, root, seen)
       case BySplit(i, field, j, path) =>
         && LocalRef(node).None? && i < |Children(node, ALL)| && j < |Children(node, ALL)|
         && Avoids(field, Children(node, ALL)[i], root, seen)
         && FirstPath(path, Children(node, ALL)[j], root, seen, id)
  }

  lemma {:induction false} VersionFound(p: VersionProof, node: Json, id: string, root: Json, seen: set<string>)
    requires ProvesVersion(p, node, id, root, seen)
    ensures RequiresVersion(node, id, root, seen)
    decreases Unseen(root, node, seen), node
  {
    match p {
      case Direct =>
      case ByReference(sub) =>
        var ref := LocalRef(node).value;
        RefUsesUp(root, node, seen, ref);
        VersionFound(sub, Target(root, ref).value, id, root, seen + {ref});
      case ByChild(i, sub) =>
        ChildKeepsUnseen(root, node, seen, ALL, i);
        VersionFound(sub, Children(node, ALL)[i], id, root, seen);
        assert SomeRequiresVersion(node, id, root, seen);
      case ByAlternatives(keyword, subs) =>
        forall i | 0 <= i < |Children(node, keyword)| ensures RequiresVersion(Children(node, keyword)[i], id, root, seen) {
          ChildKeepsUnseen(root, node, seen, keyword, i);
          VersionFound(subs[i], Children(node, keyword)[i], id, root, seen);
        }
        assert AllRequireVersion(node, keyword, id, root, seen);
      case BySplit(i, field, j, path) =>
        SplitFound(i, field, j, path, node, id, root, seen);
    }
  }

  lemma {:induction false} SplitFound(
    i: nat, field: FieldProof, j: nat, path: seq<Step>, node: Json, id: string, root: Json, seen: set<string>)
    requires i < |Children(node, ALL)| && j < |Children(node, ALL)|
    requires Avoids(field, Children(node, ALL)[i], root, seen) && FirstPath(path, Children(node, ALL)[j], root, seen, id)
    ensures RuleTwo(node, id, root, seen)
  {
    FieldFound(field, Children(node, ALL)[i], root, seen);
    ConstExactly(Children(node, ALL)[j], root, seen, id);
    hide RequiresField, FirstConst, FirstPath, Avoids;
  }

  lemma {:induction false} SplitProved(node: Json, id: string, root: Json, seen: set<string>) returns (p: VersionProof)
    requires node.Obj? && LocalRef(node).None? && RuleTwo(node, id, root, seen)
    ensures ProvesVersion(p, node, id, root, seen)
  {
    hide RequiresField, FirstConst, FirstPath, Avoids;
    var children := Children(node, ALL);
    var i: nat :| i < |children| && RequiresField(children[i], root, seen);
    var j: nat :| j < |children| && FirstConst(children[j], root, seen) == Some(id);
    var field := FieldProved(children[i], root, seen);
    ConstExactly(children[j], root, seen, id);
    var path :| FirstPath(path, children[j], root, seen, id);
    p := BySplit(i, field, j, path);
  }

  lemma {:induction false} VersionProved(node: Json, id: string, root: Json, seen: set<string>) returns (p: VersionProof)
    requires RequiresVersion(node, id, root, seen)
    ensures ProvesVersion(p, node, id, root, seen)
    decreases Unseen(root, node, seen), node, 1
  {
    hide RuleTwo;
    if LocalRef(node).Some? {
      var ref := LocalRef(node).value;
      RefUsesUp(root, node, seen, ref);
      var sub := VersionProved(Target(root, ref).value, id, root, seen + {ref});
      p := ByReference(sub);
    } else if DirectVersion(node, id) {
      p := Direct;
    } else if SomeRequiresVersion(node, id, root, seen) {
      var i: nat :| i < |Children(node, ALL)| && RequiresVersion(Children(node, ALL)[i], id, root, seen);
      p := ChildProved(node, i, id, root, seen);
    } else if RuleTwo(node, id, root, seen) {
      p := SplitProved(node, id, root, seen);
    } else if Children(node, ONE) != [] && AllRequireVersion(node, ONE, id, root, seen) {
      p := AlternativesProved(node, ONE, id, root, seen);
    } else {
      AllIsSome(node, id, root, seen);
      p := AlternativesProved(node, ANY, id, root, seen);
    }
  }

  lemma {:induction false} AllIsSome(node: Json, id: string, root: Json, seen: set<string>)
    ensures Children(node, ALL) != [] && AllRequireVersion(node, ALL, id, root, seen) ==> SomeRequiresVersion(node, id, root, seen)
  {
    hide RequiresVersion;
    if Children(node, ALL) != [] && AllRequireVersion(node, ALL, id, root, seen) {
      assert RequiresVersion(Children(node, ALL)[0], id, root, seen);
    }
  }

  lemma {:induction false} ChildProved(node: Json, i: nat, id: string, root: Json, seen: set<string>) returns (p: VersionProof)
    requires node.Obj? && LocalRef(node).None? && i < |Children(node, ALL)|
    requires RequiresVersion(Children(node, ALL)[i], id, root, seen)
    ensures ProvesVersion(p, node, id, root, seen)
    decreases Unseen(root, node, seen), node, 0
  {
    ChildKeepsUnseen(root, node, seen, ALL, i);
    var sub := VersionProved(Children(node, ALL)[i], id, root, seen);
    p := ByChild(i, sub);
  }

  lemma {:induction false} AlternativesProved(node: Json, keyword: string, id: string, root: Json, seen: set<string>)
    returns (p: VersionProof)
    requires node.Obj? && LocalRef(node).None? && (keyword == ONE || keyword == ANY) && Children(node, keyword) != []
    requires AllRequireVersion(node, keyword, id, root, seen)
    ensures ProvesVersion(p, node, id, root, seen)
    decreases Unseen(root, node, seen), node, 0
  {
    var children, subs := Children(node, keyword), [];
    while |subs| < |children|
      invariant |subs| <= |children|
      invariant forall i :: 0 <= i < |subs| ==> ProvesVersion(subs[i], children[i], id, root, seen)
    {
      ChildKeepsUnseen(root, node, seen, keyword, |subs|);
      var sub := VersionProved(children[|subs|], id, root, seen);
      subs := subs + [sub];
    }
    p := ByAlternatives(keyword, subs);
  }

  /** The version analysis says yes exactly when there is a derivation; its last round, over all children of allOf,
      decides nothing that the first has not. */
  lemma {:induction false} VersionExactly(node: Json, id: string, root: Json, seen: set<string>)
    ensures RequiresVersion(node, id, root, seen) <==> exists p :: ProvesVersion(p, node, id, root, seen)
  {
    hide RequiresVersion, ProvesVersion;
    if RequiresVersion(node, id, root, seen) {
      var p := VersionProved(node, id, root, seen);
    }
    if p :| ProvesVersion(p, node, id, root, seen) {
      VersionFound(p, node, id, root, seen);
    }
  }

  // ----- the declaration check -----

  datatype DeclarationProblem = WrongConst(got: string) | MissingConst

  /** Some const is found below the schema, or the field is required. */
  ghost predicate MentionsVersion(schema: Json) {
    FieldDerivable(schema, schema) || exists c :: ConstFound(schema, schema, {}, c)
  }

  /** The check of one schema: silent exactly when the schema does not speak of the version or is derived to require it;
      otherwise it names the first const found, if that is another version, or says that the const is missing. */
  method ValidateSchemaVersionDeclaration(schema: Json, id: string) returns (problem: Option<DeclarationProblem>)
    ensures problem.None? <==>
              !MentionsVersion(schema) || exists p :: ProvesVersion(p, schema, id, schema, {})
    ensures forall c :: problem == Some(WrongConst(c)) ==>
              c != id && ConstFound(schema, schema, {}, c)
    ensures problem == Some(MissingConst) ==>
              NoPath(schema, schema, {}) || ConstFound(schema, schema, {}, id)
  {
    var found := FirstSchemaVersionConst(schema, schema, {});
    var lists := SchemaNodeRequiresSchemaVersionField(schema, schema, {});
    FieldExactly(schema, schema);
    ConstsExactly(schema, schema, {});
    VersionExactly(schema, id, schema, {});
    hide RequiresField, RequiresVersion, FirstConst, ConstFound, NoPath, FieldDerivable;
    if found.None? && !lists {
      return None;
    }
    var requires_ := SchemaNodeRequiresSchemaVersion(schema, id, schema, {});
    if requires_ {
      return None;
    }
    if found.Some? && found.value != id {
      return Some(WrongConst(found.value));
    }
    problem := Some(MissingConst);
  }

  lemma {:induction false} ConstsExactly(node: Json, root: Json, seen: set<string>)
    ensures forall c :: FirstConst(node, root, seen) == Some(c) <==> ConstFound(node, root, seen, c)
    ensures FirstConst(node, root, seen).None? <==> NoPath(node, root, seen)
  {
    hide FirstConst, ConstFound, NoPath;
    forall c ensures FirstConst(node, root, seen) == Some(c) <==> ConstFound(node, root, seen, c) {
      ConstExactly(node, root, seen, c);
    }
    ConstExactly(node, root, seen, "");
  }
}
