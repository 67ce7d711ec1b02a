/** The hash-chained event ledger: what the recorder writes and what the chain check accepts. */
module Ledger {
  import opened Text
  import Policy

  /** Sixty-four zeros. */
  function Genesis(): string { seq(64, i => '0') }
  const EVENT_SCHEMA := "covenant.event.v1"

  datatype Kind =
    | RunStarted
    | TaskStarted
    | PolicyDecided
    | ArtifactRecorded
    | TaskFinished
    | RunFinished

  /** The hashed part of an event: every field but the event's own hash. */
  datatype Body = Body(
    schemaVersion: string,
    eventID: string,
    sequence: int,
    runID: string,
    previousHash: string,
    kind: Kind,
    taskID: string,
    status: string,
    message: string,
    artifactIDs: seq<string>,
    decisionID: string,
    decision: string,
    effectType: string,
    resource: string,
    ticketID: string)

  datatype Event = Event(body: Body, hash: string)

  type Hash = Body -> string

  /** The fields an emit call supplies. */
  datatype Draft = Draft(
    kind: Kind,
    taskID: string,
    status: string,
    message: string,
    artifactIDs: seq<string>,
    decisionID: string,
    decision: string,
    effectType: string,
    resource: string,
    ticketID: string)

  function Plain(kind: Kind, taskID: string, status: string, message: string, artifactIDs: seq<string>): Draft {
    Draft(kind, taskID, status, message, artifactIDs, "", "", "", "", "")
  }

  function PolicyStatus(verdict: string): string {
    if verdict == Policy.DENY then "failed" else "success"
  }

  function PolicyDraft(d: Policy.Decision): Draft {
    Draft(PolicyDecided, d.taskID, PolicyStatus(d.verdict), d.reason, [],
          d.decisionID, d.verdict, d.effectType, d.resource, d.ticketID)
  }

  function EventID(sequence: nat): string {
    "event-" + ZeroPad(Digits(sequence), 6)
  }

  function LastHash(events: seq<Event>): string {
    if events == [] then Genesis() else events[|events| - 1].hash
  }

  function Seal(runID: string, hash: Hash, events: seq<Event>, d: Draft): Event {
    var n := |events| + 1;
    var body := Body(EVENT_SCHEMA, EventID(n), n, runID, LastHash(events), d.kind, d.taskID, d.status, d.message,
                     d.artifactIDs, d.decisionID, d.decision, d.effectType, d.resource, d.ticketID);
    Event(body, hash(body))
  }

  /** The ledger that emitting these drafts in order leaves behind. */
  function Chain(runID: string, hash: Hash, drafts: seq<Draft>): (events: seq<Event>)
    ensures |events| == |drafts|
  {
    if drafts == [] then []
    else
      var events := Chain(runID, hash, drafts[..|drafts| - 1]);
      events + [Seal(runID, hash, events, drafts[|drafts| - 1])]
  }

  class EventRecorder {
    const runID: string
    const hash: Hash
    var sequence: nat
    var previousHash: string
    /** The lines written so far. */
    var written: seq<Event>
    ghost var drafts: seq<Draft>

    ghost predicate Valid()
      reads this
    {
      && written == Chain(runID, hash, drafts)
      && sequence == |written|
      && previousHash == LastHash(written)
    }

    constructor (runID: string, hash: Hash)
      ensures Valid() && this.runID == runID && this.hash == hash && drafts == []
    {
      this.runID, this.hash := runID, hash;
      sequence, previousHash, written, drafts := 0, Genesis(), [], [];
    }

    method Append(d: Draft) returns (event: Event)
      requires Valid()
      modifies this
      ensures Valid() && drafts == old(drafts) + [d]
      ensures written == old(written) + [event] && event == Seal(runID, hash, old(written), d)
    {
      sequence := sequence + 1;
      var body := Body(EVENT_SCHEMA, EventID(sequence), sequence, runID, previousHash,
                       d.kind, d.taskID, d.status, d.message, d.artifactIDs,
                       d.decisionID, d.decision, d.effectType, d.resource, d.ticketID);
      event := Event(body, hash(body));
      written := written + [event];
      previousHash := event.hash;
      drafts := drafts + [d];
      assert drafts[..|drafts| - 1] == old(drafts);
    }

    method Emit(kind: Kind, taskID: string, status: string, message: string, artifactIDs: seq<string>)
      returns (event: Event)
      requires Valid()
      modifies this
      ensures Valid() && drafts == old(drafts) + [Plain(kind, taskID, status, message, artifactIDs)]
      ensures written == old(written) + [event]
      ensures event.body.eventID == EventID(|drafts|) && event.body.taskID == taskID
    {
      event := Append(Plain(kind, taskID, status, message, artifactIDs));
    }

    method EmitPolicyDecision(taskID: string, status: string, d: Policy.Decision) returns (event: Event)
      requires Valid()
      requires taskID == d.taskID && status == PolicyStatus(d.verdict)
      modifies this
      ensures Valid() && drafts == old(drafts) + [PolicyDraft(d)]
      ensures written == old(written) + [event]
    {
      event := Append(Draft(PolicyDecided, taskID, status, d.reason, [],
                            d.decisionID, d.verdict, d.effectType, d.resource, d.ticketID));
    }
  }

  lemma {:induction false} EventIDInjective(m: nat, n: nat)
    requires EventID(m) == EventID(n)
    ensures m == n
  {
    assert EventID(m)[|"event-"|..] == ZeroPad(Digits(m), 6);
    assert EventID(n)[|"event-"|..] == ZeroPad(Digits(n), 6);
    ZeroPadValue(Digits(m), 6);
    ZeroPadValue(Digits(n), 6);
    DigitsRoundTrip(m);
    DigitsRoundTrip(n);
  }

  /** Each event sits where its draft was emitted and links to the event before it. */
  lemma {:induction false} ChainAt(runID: string, hash: Hash, drafts: seq<Draft>, i: nat)
    requires i < |drafts|
    ensures Chain(runID, hash, drafts)[i] == Seal(runID, hash, Chain(runID, hash, drafts)[..i], drafts[i])
    ensures Chain(runID, hash, drafts)[..i] == Chain(runID, hash, drafts[..i])
  {
    var n := |drafts| - 1;
    var events := Chain(runID, hash, drafts);
    assert events[..n] == Chain(runID, hash, drafts[..n]);
    if i < n {
      ChainAt(runID, hash, drafts[..n], i);
      assert events[..i] == events[..n][..i];
      assert drafts[..n][..i] == drafts[..i];
    }
  }

  // ----- the chain check -----

  ghost predicate ChainAccepted(events: seq<Event>, hash: Hash)
    requires events != []
  {
    forall i :: 0 <= i < |events| ==>
      && events[i].body.runID == events[0].body.runID
      && events[i].body.previousHash == LastHash(events[..i])
      && events[i].hash == hash(events[i].body)
  }

  datatype ChainProblem = RunIDChanged(eventID: string) | PreviousMismatch(eventID: string) | HashMismatch(eventID: string)

  /** The problem is that of the event at position i, the first of the three checks that it fails. */
  ghost predicate ChainBreaks(problem: ChainProblem, events: seq<Event>, hash: Hash, i: nat)
    requires i < |events|
  {
    var e := events[i];
    match problem
    case RunIDChanged(id) => id == e.body.eventID && e.body.runID != events[0].body.runID
    case PreviousMismatch(id) =>
      id == e.body.eventID && e.body.runID == events[0].body.runID && e.body.previousHash != LastHash(events[..i])
    case HashMismatch(id) =>
      && id == e.body.eventID && e.body.runID == events[0].body.runID && e.body.previousHash == LastHash(events[..i])
      && e.hash != hash(e.body)
  }

  /** The chain is good up to an event, which has this problem. */
  ghost predicate FirstBreak(problem: ChainProblem, events: seq<Event>, hash: Hash) {
    exists i :: 0 <= i < |events| && ChainBreaks(problem, events, hash, i) && (i > 0 ==> ChainAccepted(events[..i], hash))
  }

  method VerifyChain(events: seq<Event>, hash: Hash) returns (problem: Option<ChainProblem>)
    requires events != []
    ensures problem.None? <==> ChainAccepted(events, hash)
    ensures problem.Some? ==> FirstBreak(problem.value, events, hash)
  {
    var previous := Genesis();
    var runID := events[0].body.runID;
    for i := 0 to |events|
      invariant previous == LastHash(events[..i])
      invariant forall k :: 0 <= k < i ==>
                  && events[k].body.runID == runID
                  && events[k].body.previousHash == LastHash(events[..k])
                  && events[k].hash == hash(events[k].body)
    {
      var event := events[i];
      PrefixAccepted(events, hash, i);
      if event.body.runID != runID {
        return Some(RunIDChanged(event.body.eventID));
      }
      if event.body.previousHash != previous {
        return Some(PreviousMismatch(event.body.eventID));
      }
      if event.hash != hash(event.body) {
        return Some(HashMismatch(event.body.eventID));
      }
      previous := event.hash;
      assert events[..i + 1][i] == event;
    }
    problem := None;
  }

  lemma {:induction false} PrefixAccepted(events: seq<Event>, hash: Hash, i: nat)
    requires i < |events|
    requires forall k :: 0 <= k < i ==>
               && events[k].body.runID == events[0].body.runID
               && events[k].body.previousHash == LastHash(events[..k])
               && events[k].hash == hash(events[k].body)
    ensures i > 0 ==> ChainAccepted(events[..i], hash)
  {
    assert forall k :: 0 <= k < i ==> events[..i][..k] == events[..k] && events[..i][k] == events[k];
  }

  /** Everything a recorder writes passes the chain check. */
  lemma {:induction false} RecordedChainAccepted(runID: string, hash: Hash, drafts: seq<Draft>)
    requires drafts != []
    ensures ChainAccepted(Chain(runID, hash, drafts), hash)
  {
    ChainAt(runID, hash, drafts, 0);
    forall i | 0 <= i < |drafts|
      ensures Chain(runID, hash, drafts)[i] == Seal(runID, hash, Chain(runID, hash, drafts)[..i], drafts[i])
    {
      ChainAt(runID, hash, drafts, i);
    }
  }

  // ----- tamper evidence -----

  /** How two accepted ledgers with one last hash can differ: only by breaking the hash. */
  datatype Break =
    | Identical
    | Collision(one: Body, other: Body)
    | GenesisPreimage(body: Body)

  ghost predicate Holds(k: Break, hash: Hash, a: seq<Event>, b: seq<Event>) {
    match k
    case Identical => a == b
    case Collision(x, y) =>
      && x != y && hash(x) == hash(y)
      && Occurs(x, a) && Occurs(y, b)
    case GenesisPreimage(x) =>
      && hash(x) == Genesis()
      && (Occurs(x, a) || Occurs(x, b))
  }

  ghost predicate Occurs(x: Body, events: seq<Event>) {
    exists i :: 0 <= i < |events| && events[i].body == x
  }

  /** Compares the ledgers from their ends and names the break. */
  function FindBreak(a: seq<Event>, b: seq<Event>): Break
    decreases |a|
  {
    if a == [] && b == [] then Identical
    else if a == [] then GenesisPreimage(b[|b| - 1].body)
    else if b == [] then GenesisPreimage(a[|a| - 1].body)
    else if a[|a| - 1].body != b[|b| - 1].body then Collision(a[|a| - 1].body, b[|b| - 1].body)
    else FindBreak(a[..|a| - 1], b[..|b| - 1])
  }

  ghost predicate Linked(events: seq<Event>, hash: Hash) {
    forall i :: 0 <= i < |events| ==>
      events[i].body.previousHash == LastHash(events[..i]) && events[i].hash == hash(events[i].body)
  }

  lemma {:induction false} LinkedPrefix(events: seq<Event>, hash: Hash)
    requires Linked(events, hash) && events != []
    ensures Linked(events[..|events| - 1], hash)
    ensures LastHash(events[..|events| - 1]) == events[|events| - 1].body.previousHash
  {
    var front := events[..|events| - 1];
    forall i | 0 <= i < |front|
      ensures front[i].body.previousHash == LastHash(front[..i]) && front[i].hash == hash(front[i].body)
    {
      assert front[..i] == events[..i];
      assert front[i] == events[i];
    }
  }

  lemma {:induction false} OccursInFront(x: Body, events: seq<Event>)
    requires events != []
    ensures Occurs(x, events[..|events| - 1]) ==> Occurs(x, events)
  {
    var front := events[..|events| - 1];
    if Occurs(x, front) {
      var i :| 0 <= i < |front| && front[i].body == x;
      assert events[i].body == x;
    }
  }

  lemma {:induction false} HoldsInFront(k: Break, hash: Hash, a: seq<Event>, b: seq<Event>)
    requires a != [] && b != [] && a[|a| - 1] == b[|b| - 1]
    requires Holds(k, hash, a[..|a| - 1], b[..|b| - 1])
    ensures Holds(k, hash, a, b)
  {
    match k
    case Identical =>
      assert a == a[..|a| - 1] + [a[|a| - 1]];
      assert b == b[..|b| - 1] + [b[|b| - 1]];
    case Collision(x, y) =>
      OccursInFront(x, a);
      OccursInFront(y, b);
    case GenesisPreimage(x) =>
      OccursInFront(x, a);
      OccursInFront(x, b);
  }

  lemma {:induction false} BreakHolds(a: seq<Event>, b: seq<Event>, hash: Hash)
    requires Linked(a, hash) && Linked(b, hash) && LastHash(a) == LastHash(b)
    ensures Holds(FindBreak(a, b), hash, a, b)
    decreases |a|
  {
    if a != [] {
      assert a[|a| - 1].body == a[|a| - 1].body && a[|a| - 1].hash == hash(a[|a| - 1].body);
    }
    if b != [] {
      assert b[|b| - 1].body == b[|b| - 1].body && b[|b| - 1].hash == hash(b[|b| - 1].body);
    }
    if a != [] && b != [] && a[|a| - 1].body == b[|b| - 1].body {
      LinkedPrefix(a, hash);
      LinkedPrefix(b, hash);
      BreakHolds(a[..|a| - 1], b[..|b| - 1], hash);
      HoldsInFront(FindBreak(a[..|a| - 1], b[..|b| - 1]), hash, a, b);
    }
  }

  /** Two accepted ledgers with the same last hash are equal event for event and field for field,
      or FindBreak exhibits two of their payloads that collide or one that hashes to the genesis value. */
  lemma {:induction false} TamperEvidence(a: seq<Event>, b: seq<Event>, hash: Hash)
    requires a != [] && b != []
    requires ChainAccepted(a, hash) && ChainAccepted(b, hash)
    requires a[|a| - 1].hash == b[|b| - 1].hash
    ensures Holds(FindBreak(a, b), hash, a, b)
  {
    BreakHolds(a, b, hash);
  }
}
