/** The schema of one ledger line: the recorder validates every event against it before writing it, and the
    verifier every line before decoding it. */
module EventSchema {
  import opened Text
  import opened Ledger
  import Checksums
  import Policy
  import Validation
  import ValidContract

  predicate PortableID(s: string) {
    ValidContract.GoodID(s)
  }

  /** An omitted ID, or a portable one. */
  predicate OptionalID(s: string) {
    s == "" || PortableID(s)
  }

  predicate AllDigits(s: string) {
    forall i :: 0 <= i < |s| ==> IsDigit(s[i])
  }

  /** "event-" and six digits. */
  predicate EventIDShape(s: string) {
    |s| == 12 && HasPrefix(s, "event-") && AllDigits(s[6..])
  }

  /** "policy-", a task's ID, a dash and digits. */
  predicate DecisionIDShape(s: string) {
    exists n :: 7 < n < |s| - 1 && HasPrefix(s, "policy-") && s[n] == '-' && AllDigits(s[n + 1..])
      && forall i :: 7 <= i < n ==> Validation.IDChar(s[i])
  }

  /** What policy_decided carries, and no other event. */
  predicate PolicyFields(b: Body) {
    if b.kind.PolicyDecided? then
      && PortableID(b.taskID) && DecisionIDShape(b.decisionID)
      && (b.decision == Policy.ALLOW || b.decision == Policy.DENY)
      && b.effectType in Validation.EFFECT_TYPES && b.resource != "" && OptionalID(b.ticketID)
    else
      && OptionalID(b.taskID) && b.decisionID == "" && b.decision == "" && b.effectType == "" && b.resource == ""
      && b.ticketID == ""
  }

  predicate ValidLine(e: Event) {
    var b := e.body;
    && b.schemaVersion == EVENT_SCHEMA && EventIDShape(b.eventID) && b.sequence >= 1 && PortableID(b.runID)
    && Checksums.IsHexDigest(b.previousHash) && Checksums.IsHexDigest(e.hash)
    && (b.status == "success" || b.status == "failed")
    && (forall id :: id in b.artifactIDs ==> PortableID(id))
    && PolicyFields(b)
  }

  predicate LinesValid(events: seq<Event>) {
    forall e :: e in events ==> ValidLine(e)
  }

  /** The line at position i is the first that its schema rejects. */
  ghost predicate FirstInvalid(lines: seq<Event>, i: nat) {
    i < |lines| && !ValidLine(lines[i]) && forall j :: 0 <= j < i ==> ValidLine(lines[j])
  }

  /** Decodes the ledger's lines, up to the first that its schema rejects. */
  method ReadLedger(lines: seq<Event>) returns (events: Result<seq<Event>, Event>)
    ensures events.Ok? <==> LinesValid(lines)
    ensures events.Ok? ==> events.value == lines
    ensures events.Err? ==> exists i :: 0 <= i < |lines| && lines[i] == events.error && FirstInvalid(lines, i)
  {
    for i := 0 to |lines|
      invariant forall j :: 0 <= j < i ==> ValidLine(lines[j])
    {
      if !ValidLine(lines[i]) {
        return Err(lines[i]);
      }
    }
    events := Ok(lines);
  }

  // ----- the IDs that the program prints -----

  function Pow10(k: nat): nat {
    if k == 0 then 1 else 10 * Pow10(k - 1)
  }

  lemma {:induction false} DigitsLength(n: nat, k: nat)
    requires k >= 1
    ensures |Digits(n)| <= k <==> n < Pow10(k)
    decreases n
  {
    if n >= 10 {
      if k == 1 {
        assert Pow10(1) == 10 * Pow10(0);
        assert |Digits(n / 10)| >= 1;
      } else {
        DigitsLength(n / 10, k - 1);
        assert Pow10(k) == 10 * Pow10(k - 1);
      }
    } else {
      PowGrows(k);
    }
  }

  lemma {:induction false} PowGrows(k: nat)
    requires k >= 1
    ensures Pow10(k) >= 10
  {
    if k > 1 {
      PowGrows(k - 1);
    }
  }

  lemma {:induction false} PaddedShape(s: string, width: nat)
    requires AllDigits(s)
    ensures AllDigits(ZeroPad(s, width)) && |ZeroPad(s, width)| == if |s| >= width then |s| else width
    decreases width - |s|
  {
    if |s| < width {
      PaddedShape("0" + s, width);
    }
  }

  const LAST_EVENT: nat := 999_999

  /** Six digits are enough for exactly the first 999999 events. */
  lemma {:induction false} EventIDShapeExactly(n: nat)
    ensures EventIDShape(EventID(n)) <==> n <= LAST_EVENT
  {
    DigitsLength(n, 6);
    assert Pow10(6) == 1_000_000 by {
      assert Pow10(2) == 100;
      assert Pow10(4) == 10_000;
    }
    PaddedShape(Digits(n), 6);
    assert EventID(n)[6..] == ZeroPad(Digits(n), 6);
  }

  lemma {:induction false} DecisionIDHasShape(taskID: string, index: nat)
    requires PortableID(taskID)
    ensures DecisionIDShape(Policy.DecisionID(taskID, index))
  {
    var s, n := Policy.DecisionID(taskID, index), 7 + |taskID|;
    assert s == "policy-" + taskID + "-" + Digits(index + 1);
    assert s[n] == '-' && s[n + 1..] == Digits(index + 1);
    assert forall i :: 7 <= i < n ==> s[i] == taskID[i - 7];
  }
}
