/** What is wrong with a ledger line that its schema rejects, property by property. */
module LineFaults {
  import opened Text
  import opened Ledger
  import opened EventSchema
  import Checksums
  import ValidContract
  import Validation

  /** A run of these characters, with at least one of them. */
  predicate RunOf(s: string, chars: set<char>) {
    s != "" && forall i :: 0 <= i < |s| ==> s[i] in chars
  }

  const DIGITS: set<char> := {'0', '1', '2', '3', '4', '5', '6', '7', '8', '9'}
  const HEX: set<char> := DIGITS + {'a', 'b', 'c', 'd', 'e', 'f'}

  /** "event-" and six digits. */
  ghost predicate NamesEvent(s: string) {
    exists digits :: |digits| == 6 && RunOf(digits, DIGITS) && s == "event-" + digits
  }

  /** "policy-", characters of an ID, a dash and digits. */
  ghost predicate NamesDecision(s: string) {
    exists task, digits :: JoinsDecision(s, task, digits)
  }

  predicate JoinsDecision(s: string, task: string, digits: string) {
    && s == "policy-" + task + "-" + digits && RunOf(digits, DIGITS)
    && task != "" && forall i :: 0 <= i < |task| ==> Validation.IDChar(task[i])
  }

  predicate IsHash(s: string) {
    |s| == 64 && RunOf(s, HEX)
  }

  /** The property is one of the schema's and the line breaks what the schema asks of it: an ID that is not portable, a
      word that is not one of the listed ones, or a property that this type of event must or must not have. An omitted
      property is decoded as an empty text. */
  ghost predicate Breaks(property: string, e: Event) {
    var b, ruled := e.body, e.body.kind.PolicyDecided?;
    match property
    case "schema_version" => b.schemaVersion != "covenant.event.v1"
    case "event_id" => !NamesEvent(b.eventID)
    case "sequence" => b.sequence < 1
    case "run_id" => !ValidContract.GoodID(b.runID)
    case "previous_event_hash" => !IsHash(b.previousHash)
    case "event_hash" => !IsHash(e.hash)
    case "status" => b.status != "success" && b.status != "failed"
    case "task_id" => (ruled || b.taskID != "") && !ValidContract.GoodID(b.taskID)
    case "artifact_ids" => exists i :: 0 <= i < |b.artifactIDs| && !ValidContract.GoodID(b.artifactIDs[i])
    case "decision_id" => if ruled then !NamesDecision(b.decisionID) else b.decisionID != ""
    case "decision" => if ruled then b.decision != "allow" && b.decision != "deny" else b.decision != ""
    case "effect_type" =>
      if ruled then b.effectType !in {"file.write", "file.read", "process.spawn", "network.request", "claim.publish"}
      else b.effectType != ""
    case "resource" => ruled == (b.resource == "")
    case "approval_ticket_id" => b.ticketID != "" && (!ruled || !ValidContract.GoodID(b.ticketID))
    case _ => false
  }

  lemma {:induction false} EventNameExactly(s: string)
    ensures EventIDShape(s) <==> NamesEvent(s)
  {
    if EventIDShape(s) {
      var digits := s[6..];
      assert s == "event-" + digits && RunOf(digits, DIGITS);
    }
    if digits :| |digits| == 6 && RunOf(digits, DIGITS) && s == "event-" + digits {
      assert s[6..] == digits && s[..6] == "event-";
    }
  }

  lemma {:induction false} DecisionNameExactly(s: string)
    ensures DecisionIDShape(s) <==> NamesDecision(s)
  {
    hide Validation.IDChar;
    if DecisionIDShape(s) {
      DecisionParts(s);
    }
    if task, digits :| JoinsDecision(s, task, digits) {
      DecisionJoined(s, task, digits);
    }
  }

  lemma {:induction false} SplitAt(s: string, n: nat)
    requires 7 < n < |s|
    ensures s == s[..7] + s[7..n] + [s[n]] + s[n + 1..]
  {
  }

  lemma {:induction false} DigitsRun(s: string)
    requires AllDigits(s) && s != ""
    ensures RunOf(s, DIGITS)
  {
  }

  lemma {:induction false} DecisionParts(s: string)
    requires DecisionIDShape(s)
    ensures NamesDecision(s)
  {
    hide Validation.IDChar, AllDigits, RunOf;
    var n :| 7 < n < |s| - 1 && HasPrefix(s, "policy-") && s[n] == '-' && AllDigits(s[n + 1..])
             && forall i :: 7 <= i < n ==> Validation.IDChar(s[i]);
    var task, digits := s[7..n], s[n + 1..];
    SplitAt(s, n);
    DigitsRun(digits);
    assert s[..7] == "policy-" && [s[n]] == "-";
    assert JoinsDecision(s, task, digits);
  }

  lemma {:induction false} DecisionJoined(s: string, task: string, digits: string)
    requires JoinsDecision(s, task, digits)
    ensures DecisionIDShape(s)
  {
    hide Validation.IDChar;
    var n := 7 + |task|;
    assert s[..7] == "policy-" && s[n] == '-' && s[n + 1..] == digits;
    assert forall i :: 7 <= i < n ==> s[i] == task[i - 7];
  }

  lemma {:induction false} HashExactly(s: string)
    ensures Checksums.IsHexDigest(s) <==> IsHash(s)
  {
  }

  /** The properties that the schema speaks of, apart from type and message, which every decoded event has. */
  const PROPERTIES: set<string> := {
    "schema_version", "event_id", "sequence", "run_id", "previous_event_hash", "event_hash", "status", "task_id",
    "artifact_ids", "decision_id", "decision", "effect_type", "resource", "approval_ticket_id"}

  lemma {:induction false} PolicyFieldsExactly(e: Event)
    ensures PolicyFields(e.body) <==>
              && !Breaks("task_id", e) && !Breaks("decision_id", e) && !Breaks("decision", e) && !Breaks("effect_type", e)
              && !Breaks("resource", e) && !Breaks("approval_ticket_id", e)
  {
    DecisionNameExactly(e.body.decisionID);
    hide ValidContract.GoodID, DecisionIDShape, NamesDecision;
  }

  lemma {:induction false} ArtifactIDsExactly(e: Event)
    ensures (forall id :: id in e.body.artifactIDs ==> PortableID(id)) <==> !Breaks("artifact_ids", e)
  {
    hide ValidContract.GoodID;
    var ids := e.body.artifactIDs;
    assert forall i :: 0 <= i < |ids| ==> ids[i] in ids;
    forall id | id in ids && !PortableID(id) ensures Breaks("artifact_ids", e) {
      var i :| 0 <= i < |ids| && ids[i] == id;
    }
  }

  lemma {:induction false} PlainFieldsExactly(e: Event)
    ensures var b := e.body;
            b.schemaVersion == EVENT_SCHEMA && EventIDShape(b.eventID) && b.sequence >= 1 && PortableID(b.runID)
            && Checksums.IsHexDigest(b.previousHash) && Checksums.IsHexDigest(e.hash)
            && (b.status == "success" || b.status == "failed") <==>
              && !Breaks("schema_version", e) && !Breaks("event_id", e) && !Breaks("sequence", e) && !Breaks("run_id", e)
              && !Breaks("previous_event_hash", e) && !Breaks("event_hash", e) && !Breaks("status", e)
  {
    EventNameExactly(e.body.eventID);
    HashExactly(e.body.previousHash);
    HashExactly(e.hash);
    hide ValidContract.GoodID, EventIDShape, NamesEvent, Checksums.IsHexDigest, IsHash;
  }

  /** A line passes the schema exactly when it breaks none of its properties. */
  lemma {:induction false} LineExactly(e: Event)
    ensures ValidLine(e) <==> forall property :: property in PROPERTIES ==> !Breaks(property, e)
  {
    PlainFieldsExactly(e);
    ArtifactIDsExactly(e);
    PolicyFieldsExactly(e);
    hide ValidContract.GoodID, EventIDShape, Checksums.IsHexDigest, PolicyFields, PortableID, Breaks;
    assert (forall property :: property in PROPERTIES ==> !Breaks(property, e)) <==>
             && !Breaks("schema_version", e) && !Breaks("event_id", e) && !Breaks("sequence", e) && !Breaks("run_id", e)
             && !Breaks("previous_event_hash", e) && !Breaks("event_hash", e) && !Breaks("status", e)
             && !Breaks("artifact_ids", e) && !Breaks("task_id", e) && !Breaks("decision_id", e) && !Breaks("decision", e)
             && !Breaks("effect_type", e) && !Breaks("resource", e) && !Breaks("approval_ticket_id", e);
  }
}
