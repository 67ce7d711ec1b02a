/** The contract data model and the three-colour search for dependency cycles. */
module Contracts {
  datatype ActionRef = ActionRef(effectType: string, resource: string)

  datatype Obligation = Obligation(id: string, text: string, required: bool)

  datatype Task = Task(
    id: string,
    kind: string,
    adapter: string,
    dependsOn: seq<string>,
    obligations: seq<string>,
    timeoutSecs: int,
    effects: seq<ActionRef>)

  datatype ApprovalTicket = ApprovalTicket(
    schemaVersion: string,
    ticketID: string,
    taskID: string,
    effectType: string,
    resource: string,
    approved: bool,
    reason: string,
    expiresAt: string)

  datatype Contract = Contract(
    schemaVersion: string,
    objective: string,
    root: string,
    readPaths: seq<string>,
    writePaths: seq<string>,
    obligations: seq<Obligation>,
    tasks: seq<Task>,
    mode: string,
    approvals: seq<ApprovalTicket>,
    evaluatorObligations: seq<string>)

  function TaskIDs(tasks: seq<Task>): set<string> {
    set t | t in tasks :: t.id
  }
}

module Cycles {
  import opened Contracts

  /** The dependency lists by task ID; a later task with the same ID replaces an earlier one. */
  function DependencyMap(tasks: seq<Task>): map<string, seq<string>> {
    if tasks == [] then map[]
    else DependencyMap(tasks[..|tasks| - 1])[tasks[|tasks| - 1].id := tasks[|tasks| - 1].dependsOn]
  }

  predicate Edge(deps: map<string, seq<string>>, a: string, b: string) {
    a in deps && b in deps[a]
  }

  ghost predicate IsWalk(deps: map<string, seq<string>>, walk: seq<string>) {
    forall i :: 0 <= i < |walk| - 1 ==> Edge(deps, walk[i], walk[i + 1])
  }

  ghost predicate HasClosedWalk(deps: map<string, seq<string>>) {
    exists walk: seq<string> :: |walk| >= 2 && walk[0] == walk[|walk| - 1] && IsWalk(deps, walk)
  }

  /** Every dependency ranks strictly below the task that names it. */
  ghost predicate Ranks(deps: map<string, seq<string>>, rank: map<string, nat>) {
    && deps.Keys <= rank.Keys
    && forall a, b :: Edge(deps, a, b) ==> b in rank && rank[b] < rank[a]
  }

  function Nodes(deps: map<string, seq<string>>): set<string> {
    deps.Keys + set a, b | a in deps && b in deps[a] :: b
  }

  lemma {:induction false} WalkDescends(deps: map<string, seq<string>>, rank: map<string, nat>, walk: seq<string>)
    requires Ranks(deps, rank) && IsWalk(deps, walk) && |walk| >= 2
    ensures walk[0] in rank && walk[|walk| - 1] in rank
    ensures rank[walk[|walk| - 1]] < rank[walk[0]]
  {
    assert Edge(deps, walk[0], walk[1]);
    if |walk| > 2 {
      assert IsWalk(deps, walk[1..]) by {
        forall i | 0 <= i < |walk[1..]| - 1 ensures Edge(deps, walk[1..][i], walk[1..][i + 1]) {
          assert Edge(deps, walk[i + 1], walk[i + 2]);
        }
      }
      WalkDescends(deps, rank, walk[1..]);
    }
  }

  lemma {:induction false} RankExcludesClosedWalk(deps: map<string, seq<string>>, rank: map<string, nat>)
    requires Ranks(deps, rank)
    ensures !HasClosedWalk(deps)
  {
    forall walk: seq<string> | |walk| >= 2 && walk[0] == walk[|walk| - 1] && IsWalk(deps, walk)
      ensures false
    {
      WalkDescends(deps, rank, walk);
    }
  }

  /** `order` lists finished nodes so that every dependency comes before its dependant. */
  ghost predicate FinishedInOrder(deps: map<string, seq<string>>, order: seq<string>) {
    forall i, b :: 0 <= i < |order| && Edge(deps, order[i], b) ==> b in order[..i]
  }

  ghost function FirstIndex(order: seq<string>, x: string): (i: nat)
    requires x in order
    ensures i < |order| && order[i] == x
    ensures forall j :: 0 <= j < i ==> order[j] != x
  {
    if order[0] == x then 0 else FirstIndex(order[1..], x) + 1
  }

  lemma {:induction false} OrderGivesRank(deps: map<string, seq<string>>, order: seq<string>)
    requires FinishedInOrder(deps, order) && deps.Keys <= set x | x in order
    ensures exists rank: map<string, nat> :: Ranks(deps, rank)
  {
    var rank: map<string, nat> := map x | x in order :: FirstIndex(order, x);
    forall a, b | Edge(deps, a, b) ensures b in rank && rank[b] < rank[a] {
      var i := FirstIndex(order, a);
      assert b in order[..i];
      var j :| 0 <= j < i && order[j] == b;
      assert FirstIndex(order, b) <= j;
    }
    assert Ranks(deps, rank);
  }

  /** The recursive closure of hasCycle with the two maps it updates. */
  class CycleSearch {
    const deps: map<string, seq<string>>
    var visiting: set<string>
    var visited: set<string>
    ghost var stack: seq<string>
    ghost var order: seq<string>

    ghost predicate Valid()
      reads this
    {
      && visiting == (set x | x in stack)
      && visited == (set x | x in order)
      && IsWalk(deps, stack)
      && FinishedInOrder(deps, order)
      && visiting <= Nodes(deps)
    }

    constructor (deps: map<string, seq<string>>)
      ensures Valid() && this.deps == deps && stack == [] && visited == {}
    {
      this.deps := deps;
      visiting, visited := {}, {};
      stack, order := [], [];
    }

    method Visit(id: string, ghost universe: set<string>) returns (found: bool)
      requires Valid()
      requires Nodes(deps) <= universe && id in universe
      requires stack != [] ==> Edge(deps, stack[|stack| - 1], id)
      requires id in Nodes(deps)
      modifies this
      ensures found ==> HasClosedWalk(deps)
      ensures !found ==> Valid() && stack == old(stack) && visiting == old(visiting)
      ensures !found ==> id in visited && old(visited) <= visited
      decreases universe - visiting - visited
    {
      if id in visiting {
        ghost var i :| 0 <= i < |stack| && stack[i] == id;
        ghost var walk := stack[i..] + [id];
        assert IsWalk(deps, walk) by {
          forall k | 0 <= k < |walk| - 1 ensures Edge(deps, walk[k], walk[k + 1]) {
            if k < |stack| - i - 1 {
              assert Edge(deps, stack[i + k], stack[i + k + 1]);
            }
          }
        }
        assert walk[0] == walk[|walk| - 1] && |walk| >= 2;
        return true;
      }
      if id in visited {
        return false;
      }
      visiting := visiting + {id};
      ghost var before := stack;
      stack := stack + [id];
      var next := if id in deps then deps[id] else [];
      var i := 0;
      while i < |next|
        invariant 0 <= i <= |next|
        invariant Valid() && stack == before + [id] && visiting == old(visiting) + {id}
        invariant old(visited) <= visited
        invariant forall k :: 0 <= k < i ==> next[k] in visited
      {
        assert Edge(deps, id, next[i]);
        assert universe - visiting - visited < universe - old(visiting) - old(visited) by {
          assert id in universe - old(visiting) - old(visited);
        }
        var cyclic := Visit(next[i], universe);
        if cyclic {
          return true;
        }
        i := i + 1;
      }
      visiting := visiting - {id};
      visited := visited + {id};
      stack := before;
      order := order + [id];
      assert FinishedInOrder(deps, order) by {
        forall k, b | 0 <= k < |order| && Edge(deps, order[k], b) ensures b in order[..k] {
          if k < |order| - 1 {
            assert order[..k] == order[..|order| - 1][..k];
          } else {
            assert b in next;
          }
        }
      }
      return false;
    }
  }

  /** hasCycle answers yes exactly when some dependency chain returns to its start. */
  method HasCycle(tasks: seq<Task>) returns (cyclic: bool)
    ensures cyclic <==> HasClosedWalk(DependencyMap(tasks))
    ensures !cyclic ==> exists rank: map<string, nat> :: Ranks(DependencyMap(tasks), rank)
  {
    var byID: map<string, seq<string>> := map[];
    for i := 0 to |tasks|
      invariant byID == DependencyMap(tasks[..i])
    {
      byID := byID[tasks[i].id := tasks[i].dependsOn];
      assert tasks[..i + 1][..i] == tasks[..i];
    }
    assert tasks[..|tasks|] == tasks;
    DependencyKeys(tasks);
    var search := new CycleSearch(byID);
    for i := 0 to |tasks|
      invariant search.Valid() && search.stack == [] && search.deps == byID
      invariant forall k :: 0 <= k < i ==> tasks[k].id in search.visited
      invariant fresh(search)
    {
      assert tasks[i].id in TaskIDs(tasks);
      cyclic := search.Visit(tasks[i].id, Nodes(byID));
      if cyclic {
        return;
      }
    }
    cyclic := false;
    OrderGivesRank(byID, search.order);
    ghost var rank: map<string, nat> :| Ranks(byID, rank);
    RankExcludesClosedWalk(byID, rank);
  }

  lemma {:induction false} DependencyKeys(tasks: seq<Task>)
    ensures DependencyMap(tasks).Keys == TaskIDs(tasks)
  {
    if tasks != [] {
      var n := |tasks| - 1;
      DependencyKeys(tasks[..n]);
      assert tasks == tasks[..n] + [tasks[n]];
    }
  }
}
