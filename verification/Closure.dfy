/** The closure matrix: which obligations a run closes, and with what evidence. */
module Closure {
  import opened Contracts
  import Policy

  const ACCEPTED := "accepted"
  const REJECTED := "rejected"
  const CLOSED := "closed"
  const OPEN := "open"

  datatype Row = Row(
    obligationID: string,
    required: bool,
    status: string,
    taskIDs: seq<string>,
    artifactIDs: seq<string>,
    decisionIDs: seq<string>,
    reason: string)

  datatype Matrix = Matrix(runID: string, contractDigest: string, status: string, rows: seq<Row>)

  datatype Input = Input(
    runID: string,
    contractDigest: string,
    runStatus: string,
    obligations: seq<Obligation>,
    tasks: seq<Task>,
    taskStatuses: map<string, string>,
    taskArtifacts: map<string, seq<string>>,
    decisions: seq<Policy.Decision>)

  // ----- specification -----

  function ClaimingTaskIDs(tasks: seq<Task>, obligationID: string): seq<string> {
    if tasks == [] then []
    else
      var n := |tasks| - 1;
      ClaimingTaskIDs(tasks[..n], obligationID) + if obligationID in tasks[n].obligations then [tasks[n].id] else []
  }

  function ArtifactIDs(taskArtifacts: map<string, seq<string>>, taskIDs: seq<string>): seq<string> {
    if taskIDs == [] then []
    else
      var n := |taskIDs| - 1;
      ArtifactIDs(taskArtifacts, taskIDs[..n]) + ArtifactsOf(taskArtifacts, taskIDs[n])
  }

  function ArtifactsOf(taskArtifacts: map<string, seq<string>>, taskID: string): seq<string> {
    if taskID in taskArtifacts then taskArtifacts[taskID] else []
  }

  function DecisionIDs(decisions: seq<Policy.Decision>, taskIDs: set<string>): seq<string> {
    if decisions == [] then []
    else
      var n := |decisions| - 1;
      DecisionIDs(decisions[..n], taskIDs) + if decisions[n].taskID in taskIDs then [decisions[n].decisionID] else []
  }

  predicate HasSuccessfulTask(taskStatuses: map<string, string>, taskIDs: seq<string>) {
    exists i :: 0 <= i < |taskIDs| && taskIDs[i] in taskStatuses && taskStatuses[taskIDs[i]] == "success"
  }

  function RowFor(input: Input, obligation: Obligation): Row {
    var taskIDs := ClaimingTaskIDs(input.tasks, obligation.id);
    var success := input.runStatus == "success";
    var closed := success && HasSuccessfulTask(input.taskStatuses, taskIDs);
    Row(obligation.id, obligation.required, if closed then CLOSED else OPEN, taskIDs,
        ArtifactIDs(input.taskArtifacts, taskIDs),
        DecisionIDs(input.decisions, set x | x in taskIDs),
        if !success then "run did not finish successfully"
        else if closed then "closed by successful task evidence"
        else "no successful task claimed obligation")
  }

  function Rows(input: Input): seq<Row> {
    seq(|input.obligations|, i requires 0 <= i < |input.obligations| => RowFor(input, input.obligations[i]))
  }

  predicate Satisfied(rows: seq<Row>) {
    forall i :: 0 <= i < |rows| && rows[i].required ==> rows[i].status == CLOSED
  }

  function MatrixOf(input: Input): Matrix {
    Matrix(input.runID, input.contractDigest,
           if input.runStatus == "success" && Satisfied(Rows(input)) then ACCEPTED else REJECTED, Rows(input))
  }

  // ----- the evaluator -----

  method FindClaimingTasks(input: Input, obligationID: string) returns (taskIDs: seq<string>)
    ensures taskIDs == ClaimingTaskIDs(input.tasks, obligationID)
  {
    taskIDs := [];
    for i := 0 to |input.tasks|
      invariant taskIDs == ClaimingTaskIDs(input.tasks[..i], obligationID)
    {
      var task := input.tasks[i];
      assert input.tasks[..i + 1][..i] == input.tasks[..i];
      for j := 0 to |task.obligations|
        invariant obligationID !in task.obligations[..j]
        invariant taskIDs == ClaimingTaskIDs(input.tasks[..i], obligationID)
      {
        if task.obligations[j] == obligationID {
          taskIDs := taskIDs + [task.id];
          break;
        }
      }
    }
    assert input.tasks[..|input.tasks|] == input.tasks;
  }

  method FindArtifactIDs(input: Input, taskIDs: seq<string>) returns (artifactIDs: seq<string>)
    ensures artifactIDs == ArtifactIDs(input.taskArtifacts, taskIDs)
  {
    artifactIDs := [];
    for i := 0 to |taskIDs|
      invariant artifactIDs == ArtifactIDs(input.taskArtifacts, taskIDs[..i])
    {
      assert taskIDs[..i + 1][..i] == taskIDs[..i];
      artifactIDs := artifactIDs + ArtifactsOf(input.taskArtifacts, taskIDs[i]);
    }
    assert taskIDs[..|taskIDs|] == taskIDs;
  }

  method FindDecisionIDs(input: Input, taskIDs: seq<string>) returns (decisionIDs: seq<string>)
    ensures decisionIDs == DecisionIDs(input.decisions, set x | x in taskIDs)
  {
    var taskSet := {};
    for i := 0 to |taskIDs|
      invariant taskSet == set x | x in taskIDs[..i]
    {
      taskSet := taskSet + {taskIDs[i]};
      assert taskIDs[..i + 1] == taskIDs[..i] + [taskIDs[i]];
    }
    assert taskIDs[..|taskIDs|] == taskIDs;
    decisionIDs := [];
    for i := 0 to |input.decisions|
      invariant decisionIDs == DecisionIDs(input.decisions[..i], taskSet)
    {
      assert input.decisions[..i + 1][..i] == input.decisions[..i];
      if input.decisions[i].taskID in taskSet {
        decisionIDs := decisionIDs + [input.decisions[i].decisionID];
      }
    }
    assert input.decisions[..|input.decisions|] == input.decisions;
  }

  method AnySuccessful(input: Input, taskIDs: seq<string>) returns (found: bool)
    ensures found <==> HasSuccessfulTask(input.taskStatuses, taskIDs)
  {
    for i := 0 to |taskIDs|
      invariant !HasSuccessfulTask(input.taskStatuses, taskIDs[..i])
    {
      if taskIDs[i] in input.taskStatuses && input.taskStatuses[taskIDs[i]] == "success" {
        return true;
      }
    }
    assert taskIDs[..|taskIDs|] == taskIDs;
    found := false;
  }

  method EvaluateObligation(input: Input, obligation: Obligation) returns (row: Row)
    ensures row == RowFor(input, obligation)
  {
    var taskIDs := FindClaimingTasks(input, obligation.id);
    var artifactIDs := FindArtifactIDs(input, taskIDs);
    var decisionIDs := FindDecisionIDs(input, taskIDs);
    var successful := AnySuccessful(input, taskIDs);
    var closed := input.runStatus == "success" && successful;
    var status := OPEN;
    var reason := "no successful task claimed obligation";
    if input.runStatus != "success" {
      reason := "run did not finish successfully";
    } else if closed {
      status := CLOSED;
      reason := "closed by successful task evidence";
    }
    row := Row(obligation.id, obligation.required, status, taskIDs, artifactIDs, decisionIDs, reason);
  }

  method Evaluate(input: Input) returns (matrix: Matrix)
    ensures matrix == MatrixOf(input)
  {
    var rows: seq<Row> := [];
    var status := ACCEPTED;
    for i := 0 to |input.obligations|
      invariant |rows| == i
      invariant forall k :: 0 <= k < i ==> rows[k] == RowFor(input, input.obligations[k])
      invariant status == if Satisfied(rows) then ACCEPTED else REJECTED
    {
      var obligation := input.obligations[i];
      var row := EvaluateObligation(input, obligation);
      if obligation.required && row.status != CLOSED {
        status := REJECTED;
      }
      rows := rows + [row];
    }
    assert rows == Rows(input);
    if input.runStatus != "success" {
      status := REJECTED;
    }
    matrix := Matrix(input.runID, input.contractDigest, status, rows);
  }

  // ----- what the matrix means -----

  lemma {:induction false} ClaimingTaskIDsExact(tasks: seq<Task>, obligationID: string)
    ensures forall x :: x in ClaimingTaskIDs(tasks, obligationID) <==>
              exists i :: 0 <= i < |tasks| && tasks[i].id == x && obligationID in tasks[i].obligations
  {
    if tasks != [] {
      ClaimingTaskIDsExact(tasks[..|tasks| - 1], obligationID);
      forall x ensures x in ClaimingTaskIDs(tasks, obligationID) <==>
                exists i :: 0 <= i < |tasks| && tasks[i].id == x && obligationID in tasks[i].obligations
      {
        var n := |tasks| - 1;
        if i :| 0 <= i < |tasks| && tasks[i].id == x && obligationID in tasks[i].obligations {
          if i < n {
            assert tasks[..n][i] == tasks[i];
          }
        }
      }
    }
  }

  lemma {:induction false} ArtifactIDsExact(taskArtifacts: map<string, seq<string>>, taskIDs: seq<string>)
    ensures forall a :: a in ArtifactIDs(taskArtifacts, taskIDs) <==>
              exists x :: x in taskIDs && a in ArtifactsOf(taskArtifacts, x)
  {
    if taskIDs != [] {
      ArtifactIDsExact(taskArtifacts, taskIDs[..|taskIDs| - 1]);
      assert taskIDs == taskIDs[..|taskIDs| - 1] + [taskIDs[|taskIDs| - 1]];
    }
  }

  lemma {:induction false} DecisionIDsExact(decisions: seq<Policy.Decision>, taskIDs: set<string>)
    ensures forall d :: d in DecisionIDs(decisions, taskIDs) <==>
              exists i :: 0 <= i < |decisions| && decisions[i].taskID in taskIDs && decisions[i].decisionID == d
  {
    if decisions != [] {
      var n := |decisions| - 1;
      DecisionIDsExact(decisions[..n], taskIDs);
      forall d ensures d in DecisionIDs(decisions, taskIDs) <==>
                exists i :: 0 <= i < |decisions| && decisions[i].taskID in taskIDs && decisions[i].decisionID == d
      {
        if i :| 0 <= i < |decisions| && decisions[i].taskID in taskIDs && decisions[i].decisionID == d {
          if i < n {
            assert decisions[..n][i] == decisions[i];
          }
        }
      }
    }
  }

  /** The matrix is accepted exactly when the run succeeded and each required obligation has a
      claiming task that succeeded. */
  lemma {:induction false} AcceptedExactly(input: Input)
    ensures MatrixOf(input).status == ACCEPTED <==>
              && input.runStatus == "success"
              && forall o :: o in input.obligations && o.required ==>
                   exists i :: 0 <= i < |input.tasks| && o.id in input.tasks[i].obligations
                     && input.tasks[i].id in input.taskStatuses && input.taskStatuses[input.tasks[i].id] == "success"
  {
    forall k | 0 <= k < |input.obligations|
      ensures var o := input.obligations[k];
              input.runStatus == "success" ==>
                (RowFor(input, o).status == CLOSED <==>
                 exists i :: 0 <= i < |input.tasks| && o.id in input.tasks[i].obligations
                   && input.tasks[i].id in input.taskStatuses && input.taskStatuses[input.tasks[i].id] == "success")
    {
      ClosedExactly(input, input.obligations[k]);
    }
    var rows := Rows(input);
    assert forall k :: 0 <= k < |rows| ==> rows[k] == RowFor(input, input.obligations[k]);
  }

  lemma {:induction false} ClosedExactly(input: Input, o: Obligation)
    ensures RowFor(input, o).status == CLOSED <==>
              && input.runStatus == "success"
              && exists i :: 0 <= i < |input.tasks| && o.id in input.tasks[i].obligations
                   && input.tasks[i].id in input.taskStatuses && input.taskStatuses[input.tasks[i].id] == "success"
  {
    var ids := ClaimingTaskIDs(input.tasks, o.id);
    ClaimingTaskIDsExact(input.tasks, o.id);
    if HasSuccessfulTask(input.taskStatuses, ids) {
      var j :| 0 <= j < |ids| && ids[j] in input.taskStatuses && input.taskStatuses[ids[j]] == "success";
      assert ids[j] in ids;
    }
    if i :| 0 <= i < |input.tasks| && o.id in input.tasks[i].obligations
            && input.tasks[i].id in input.taskStatuses && input.taskStatuses[input.tasks[i].id] == "success" {
      assert input.tasks[i].id in ids;
      var j :| 0 <= j < |ids| && ids[j] == input.tasks[i].id;
    }
  }

  lemma {:induction false} FailedRunStaysOpen(input: Input)
    requires input.runStatus != "success"
    ensures MatrixOf(input).status == REJECTED
    ensures forall i :: 0 <= i < |MatrixOf(input).rows| ==> MatrixOf(input).rows[i].status == OPEN
  {
    forall i | 0 <= i < |input.obligations| ensures Rows(input)[i].status == OPEN {
      ClosedExactly(input, input.obligations[i]);
    }
  }
}
