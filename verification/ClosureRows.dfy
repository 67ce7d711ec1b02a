/** What a closure row says: its lists in order and with repetitions, and why it is open or closed. */
module ClosureRows {
  import opened Contracts
  import opened Closure
  import Policy

  // ----- lists of positions -----

  ghost predicate Ascending(positions: seq<nat>) {
    forall j, k :: 0 <= j < k < |positions| ==> positions[j] < positions[k]
  }

  /** Exactly the positions of the tasks that claim the obligation. */
  ghost predicate Claimants(tasks: seq<Task>, obligationID: string, positions: seq<nat>) {
    && Ascending(positions)
    && (forall k :: 0 <= k < |positions| ==> positions[k] < |tasks| && obligationID in tasks[positions[k]].obligations)
    && (forall i :: 0 <= i < |tasks| && obligationID in tasks[i].obligations ==> i in positions)
  }

  /** Exactly the positions of the decisions on these tasks. */
  ghost predicate RulingsOn(decisions: seq<Policy.Decision>, taskIDs: seq<string>, positions: seq<nat>) {
    && Ascending(positions)
    && (forall k :: 0 <= k < |positions| ==> positions[k] < |decisions| && decisions[positions[k]].taskID in taskIDs)
    && (forall i :: 0 <= i < |decisions| && decisions[i].taskID in taskIDs ==> i in positions)
  }

  lemma {:induction false} ClaimantsInOrder(tasks: seq<Task>, obligationID: string) returns (positions: seq<nat>)
    ensures Claimants(tasks, obligationID, positions) && |ClaimingTaskIDs(tasks, obligationID)| == |positions|
    ensures forall k :: 0 <= k < |positions| ==> ClaimingTaskIDs(tasks, obligationID)[k] == tasks[positions[k]].id
  {
    positions := [];
    if tasks != [] {
      var n := |tasks| - 1;
      positions := ClaimantsInOrder(tasks[..n], obligationID);
      assert forall i :: 0 <= i < n ==> tasks[..n][i] == tasks[i];
      if obligationID in tasks[n].obligations {
        positions := positions + [n];
      }
    }
  }

  lemma {:induction false} RulingsInOrder(decisions: seq<Policy.Decision>, taskIDs: seq<string>) returns (positions: seq<nat>)
    ensures RulingsOn(decisions, taskIDs, positions)
    ensures |DecisionIDs(decisions, set x | x in taskIDs)| == |positions|
    ensures forall k :: 0 <= k < |positions| ==>
              DecisionIDs(decisions, set x | x in taskIDs)[k] == decisions[positions[k]].decisionID
  {
    positions := [];
    if decisions != [] {
      var n := |decisions| - 1;
      positions := RulingsInOrder(decisions[..n], taskIDs);
      assert forall i :: 0 <= i < n ==> decisions[..n][i] == decisions[i];
      if decisions[n].taskID in taskIDs {
        positions := positions + [n];
      }
    }
  }

  // ----- artifacts -----

  /** The part of the list between the k-th offset and the next is what this task has made. */
  ghost predicate PartOf(list: seq<string>, offsets: seq<nat>, k: nat, made: map<string, seq<string>>, taskID: string) {
    && k + 1 < |offsets| && offsets[k] <= offsets[k + 1] <= |list|
    && list[offsets[k]..offsets[k + 1]] == if taskID in made then made[taskID] else []
  }

  /** The list is cut at these offsets into what each task in turn has made. */
  ghost predicate LaidOut(list: seq<string>, offsets: seq<nat>, made: map<string, seq<string>>, taskIDs: seq<string>) {
    && |offsets| == |taskIDs| + 1 && offsets[0] == 0 && offsets[|taskIDs|] == |list|
    && forall k :: 0 <= k < |taskIDs| ==> PartOf(list, offsets, k, made, taskIDs[k])
  }

  lemma {:induction false} PartStays(
    list: seq<string>, offsets: seq<nat>, k: nat, made: map<string, seq<string>>, taskID: string, more: seq<string>, cut: nat)
    requires PartOf(list, offsets, k, made, taskID)
    ensures PartOf(list + more, offsets + [cut], k, made, taskID)
  {
    var cuts := offsets + [cut];
    assert (list + more)[cuts[k]..cuts[k + 1]] == list[offsets[k]..offsets[k + 1]];
  }

  lemma {:induction false} LaidOutMore(
    list: seq<string>, offsets: seq<nat>, made: map<string, seq<string>>, taskIDs: seq<string>, id: string)
    requires LaidOut(list, offsets, made, taskIDs)
    ensures var last := if id in made then made[id] else [];
            LaidOut(list + last, offsets + [|list| + |last|], made, taskIDs + [id])
  {
    var last := if id in made then made[id] else [];
    var longer, cuts, ids := list + last, offsets + [|list| + |last|], taskIDs + [id];
    assert longer[cuts[|taskIDs|]..cuts[|taskIDs| + 1]] == last;
    assert PartOf(longer, cuts, |taskIDs|, made, id);
    hide PartOf;
    forall k | 0 <= k < |ids| ensures PartOf(longer, cuts, k, made, ids[k]) {
      if k < |taskIDs| {
        PartStays(list, offsets, k, made, taskIDs[k], last, |list| + |last|);
      }
    }
  }

  lemma {:induction false} ArtifactsInOrder(made: map<string, seq<string>>, taskIDs: seq<string>) returns (offsets: seq<nat>)
    ensures LaidOut(ArtifactIDs(made, taskIDs), offsets, made, taskIDs)
  {
    offsets := [0];
    if taskIDs != [] {
      var n := |taskIDs| - 1;
      var list := ArtifactIDs(made, taskIDs[..n]);
      offsets := ArtifactsInOrder(made, taskIDs[..n]);
      LaidOutMore(list, offsets, made, taskIDs[..n], taskIDs[n]);
      assert taskIDs == taskIDs[..n] + [taskIDs[n]];
      offsets := offsets + [|list| + |ArtifactsOf(made, taskIDs[n])|];
    }
  }

  // ----- rows -----

  /** Some claiming task has succeeded. */
  ghost predicate ClaimedBySuccess(input: Input, obligationID: string) {
    exists i :: 0 <= i < |input.tasks| && obligationID in input.tasks[i].obligations
      && input.tasks[i].id in input.taskStatuses && input.taskStatuses[input.tasks[i].id] == "success"
  }

  /** The row is the obligation's: closed or open for the reason that it gives, with its claiming tasks, what they made
      and what was decided on them, each list in the order of its source. */
  ghost predicate TellsObligation(
    input: Input, o: Obligation, row: Row, claimants: seq<nat>, offsets: seq<nat>, rulings: seq<nat>)
  {
    && row.obligationID == o.id && row.required == o.required
    && (if input.runStatus != "success" then row.status == "open" && row.reason == "run did not finish successfully"
        else if ClaimedBySuccess(input, o.id) then row.status == "closed" && row.reason == "closed by successful task evidence"
        else row.status == "open" && row.reason == "no successful task claimed obligation")
    && Claimants(input.tasks, o.id, claimants) && |row.taskIDs| == |claimants|
    && (forall k :: 0 <= k < |claimants| ==> row.taskIDs[k] == input.tasks[claimants[k]].id)
    && LaidOut(row.artifactIDs, offsets, input.taskArtifacts, row.taskIDs)
    && RulingsOn(input.decisions, row.taskIDs, rulings) && |row.decisionIDs| == |rulings|
    && (forall k :: 0 <= k < |rulings| ==> row.decisionIDs[k] == input.decisions[rulings[k]].decisionID)
  }

  lemma {:induction false} RowTells(input: Input, o: Obligation)
    returns (claimants: seq<nat>, offsets: seq<nat>, rulings: seq<nat>)
    ensures TellsObligation(input, o, RowFor(input, o), claimants, offsets, rulings)
  {
    var taskIDs := ClaimingTaskIDs(input.tasks, o.id);
    claimants := ClaimantsInOrder(input.tasks, o.id);
    offsets := ArtifactsInOrder(input.taskArtifacts, taskIDs);
    rulings := RulingsInOrder(input.decisions, taskIDs);
    ClosedExactly(input, o);
    hide Claimants, LaidOut, RulingsOn, ClaimingTaskIDs, ArtifactIDs, DecisionIDs, HasSuccessfulTask;
    assert RowFor(input, o).status == "closed" <==> input.runStatus == "success" && ClaimedBySuccess(input, o.id);
  }

  /** The matrix has one row per obligation, in order, and each tells its obligation. */
  lemma {:induction false} MatrixTells(input: Input, i: nat)
    returns (claimants: seq<nat>, offsets: seq<nat>, rulings: seq<nat>)
    requires i < |input.obligations|
    ensures MatrixOf(input).runID == input.runID && MatrixOf(input).contractDigest == input.contractDigest
    ensures |MatrixOf(input).rows| == |input.obligations|
    ensures TellsObligation(input, input.obligations[i], MatrixOf(input).rows[i], claimants, offsets, rulings)
  {
    claimants, offsets, rulings := RowTells(input, input.obligations[i]);
    hide TellsObligation, RowFor;
  }
}
