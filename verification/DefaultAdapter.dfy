/** The artifact IDs of the default action adapter, which no two artifacts of a run share. */
module DefaultAdapter {
  import opened Text
  import opened Contracts
  import opened EventSchema
  import opened Evidence
  import opened Run
  import opened Verifier
  import Provenance
  import RunVerify
  import LedgerGrammar
  import RunLines
  import Validation
  import ValidContract

  datatype Source = FileWritten | FileRead | Stdout | Stderr

  function ArtifactID(taskID: string, index: nat, source: Source): string {
    match source
    case FileWritten => taskID + "-artifact" + "-" + Digits(index + 1)
    case FileRead => taskID + "-read" + "-" + Digits(index + 1)
    case Stdout => taskID + "-process" + "-" + Digits(index + 1) + "-" + "stdout"
    case Stderr => taskID + "-process" + "-" + Digits(index + 1) + "-" + "stderr"
  }

  /** The sources of the artifacts that one action answers with; other effect types are errors. */
  function SourcesFor(effectType: string): seq<Source> {
    if effectType == "file.write" then [FileWritten]
    else if effectType == "file.read" then [FileRead]
    else if effectType == "process.spawn" then [Stdout, Stderr]
    else []
  }

  ghost predicate IsDefaultAnswer(task: Task, index: nat, artifacts: seq<ArtifactRef>)
    requires index < |task.effects|
  {
    var sources := SourcesFor(task.effects[index].effectType);
    && |artifacts| == |sources|
    && forall i :: 0 <= i < |artifacts| ==> artifacts[i].artifactID == ArtifactID(task.id, index, sources[i])
  }

  /** The run uses the default adapter. */
  ghost predicate IsDefault(w: World) {
    forall call: nat, task: Task, index: nat ::
      index < |task.effects| && w.act(call, task, index).Ok? ==> IsDefaultAnswer(task, index, w.act(call, task, index).value)
  }

  predicate FromFile(source: Source) {
    source.FileWritten? || source.FileRead?
  }

  function Word(source: Source): string {
    match source case FileWritten => "artifact" case FileRead => "read" case Stdout => "process" case Stderr => "process"
  }

  /** What stands before the last dash of an artifact ID. */
  function Head(taskID: string, index: nat, source: Source): string {
    var stem := taskID + "-" + Word(source);
    if FromFile(source) then stem else stem + "-" + Digits(index + 1)
  }

  function Tail(index: nat, source: Source): string {
    match source
    case Stdout => "stdout"
    case Stderr => "stderr"
    case _ => Digits(index + 1)
  }

  lemma {:induction false} HeadAndTail(taskID: string, index: nat, source: Source)
    ensures ArtifactID(taskID, index, source) == Head(taskID, index, source) + "-" + Tail(index, source)
    ensures '-' !in Tail(index, source)
    ensures FromFile(source) <==> IsDigit(Tail(index, source)[0])
  {
    assert taskID + "-artifact" == taskID + "-" + "artifact";
    assert taskID + "-read" == taskID + "-" + "read";
    assert taskID + "-process" == taskID + "-" + "process";
    DigitsHaveNoDash(index + 1);
  }

  lemma {:induction false} WordHasNoDash(source: Source)
    ensures '-' !in Word(source)
  {
  }

  /** IDs tell task, action index and source apart, whatever dashes and digits task IDs hold. */
  lemma {:induction false} ArtifactIDInjective(t1: string, i1: nat, s1: Source, t2: string, i2: nat, s2: Source)
    requires ArtifactID(t1, i1, s1) == ArtifactID(t2, i2, s2)
    ensures t1 == t2 && i1 == i2 && s1 == s2
  {
    HeadAndTail(t1, i1, s1);
    HeadAndTail(t2, i2, s2);
    LastDashSplits(Head(t1, i1, s1), Tail(i1, s1), Head(t2, i2, s2), Tail(i2, s2));
    assert FromFile(s1) == FromFile(s2);
    if !FromFile(s1) {
      DigitsHaveNoDash(i1 + 1);
      DigitsHaveNoDash(i2 + 1);
      LastDashSplits(t1 + "-" + Word(s1), Digits(i1 + 1), t2 + "-" + Word(s2), Digits(i2 + 1));
      assert s1 == s2 by {
        assert "stdout"[3] == 'o' && "stderr"[3] == 'e';
      }
    }
    DigitsInjective(i1 + 1, i2 + 1);
    WordHasNoDash(s1);
    WordHasNoDash(s2);
    LastDashSplits(t1, Word(s1), t2, Word(s2));
    assert |"artifact"| == 8 && |"read"| == 4;
  }

  // ----- runs -----

  /** An ID that the default adapter gives to the task, at this action index or a later one. */
  ghost predicate Given(id: string, taskID: string, from: nat) {
    exists i: nat, source: Source :: i >= from && id == ArtifactID(taskID, i, source)
  }

  lemma {:induction false} AnswerDistinct(task: Task, index: nat, artifacts: seq<ArtifactRef>)
    requires index < |task.effects| && IsDefaultAnswer(task, index, artifacts)
    ensures Provenance.DistinctBy(artifacts, ArtifactKey)
    ensures forall a :: a in artifacts ==> exists source :: a.artifactID == ArtifactID(task.id, index, source)
  {
    var sources := SourcesFor(task.effects[index].effectType);
    forall i, j | 0 <= i < j < |artifacts| ensures ArtifactKey(artifacts[i]) != ArtifactKey(artifacts[j]) {
      if artifacts[i].artifactID == artifacts[j].artifactID {
        ArtifactIDInjective(task.id, index, sources[i], task.id, index, sources[j]);
      }
    }
  }

  /** The artifacts of one task's actions. */
  lemma {:induction false} EffectsDistinct(w: World, task: Task, firstCall: nat, from: nat)
    requires IsDefault(w) && from <= |task.effects| && RunEffects(w, task, firstCall, from).Produced?
    ensures var artifacts := RunEffects(w, task, firstCall, from).artifacts;
            && Provenance.DistinctBy(artifacts, ArtifactKey)
            && forall a :: a in artifacts ==> Given(a.artifactID, task.id, from)
    decreases |task.effects| - from
  {
    if from < |task.effects| {
      EffectsDistinct(w, task, firstCall, from + 1);
      var first := w.act(firstCall + from, task, from).value;
      var rest := RunEffects(w, task, firstCall, from + 1).artifacts;
      AnswerDistinct(task, from, first);
      forall x, y | x in first && y in rest ensures ArtifactKey(x) != ArtifactKey(y) {
        var s :| x.artifactID == ArtifactID(task.id, from, s);
        var i: nat, t: Source :| i >= from + 1 && y.artifactID == ArtifactID(task.id, i, t);
        if x.artifactID == y.artifactID {
          ArtifactIDInjective(task.id, from, s, task.id, i, t);
        }
      }
      RunVerify.DistinctConcat(first, rest, ArtifactKey);
    }
  }

  lemma {:induction false} BlockArtifactsDistinct(c: Contract, w: World, opts: Options, before: seq<Block>, index: nat)
    requires IsDefault(w) && index < |c.tasks|
    ensures var b := MakeBlock(c, w, opts, before, index);
            && Provenance.DistinctBy(ArtifactsIn(b), ArtifactKey)
            && forall a :: a in ArtifactsIn(b) ==> Given(a.artifactID, b.task.id, 0)
  {
    var b := MakeBlock(c, w, opts, before, index);
    if b.outcome.Done? && RunsEffects(b.task) {
      EffectsDistinct(w, b.task, CallCount(before), 0);
    }
  }

  lemma {:induction false} StampKeepsIDs(artifacts: seq<ArtifactRef>, base: nat)
    requires Provenance.DistinctBy(artifacts, ArtifactKey)
    ensures Provenance.DistinctBy(Stamp(artifacts, base), ArtifactKey)
  {
    forall i, j | 0 <= i < j < |artifacts|
      ensures ArtifactKey(Stamp(artifacts, base)[i]) != ArtifactKey(Stamp(artifacts, base)[j])
    {
      assert ArtifactKey(artifacts[i]) != ArtifactKey(artifacts[j]);
    }
  }

  ghost predicate GivenToSome(id: string, taskIDs: set<string>) {
    exists t :: t in taskIDs && Given(id, t, 0)
  }

  /** Every artifact of one block is new: its task has not run before. */
  lemma {:induction false} NewArtifacts(known: seq<ArtifactRef>, done: set<string>, b: Block, base: nat)
    requires Provenance.DistinctBy(known, ArtifactKey) && Provenance.DistinctBy(ArtifactsIn(b), ArtifactKey)
    requires forall a :: a in known ==> GivenToSome(a.artifactID, done)
    requires forall a :: a in ArtifactsIn(b) ==> Given(a.artifactID, b.task.id, 0)
    requires b.task.id !in done
    ensures Provenance.DistinctBy(known + Stamp(ArtifactsIn(b), base), ArtifactKey)
    ensures forall a :: a in known + Stamp(ArtifactsIn(b), base) ==> GivenToSome(a.artifactID, done + {b.task.id})
  {
    var added := Stamp(ArtifactsIn(b), base);
    StampKeepsIDs(ArtifactsIn(b), base);
    forall y | y in added ensures Given(y.artifactID, b.task.id, 0) {
      var i :| 0 <= i < |added| && added[i] == y;
      assert ArtifactsIn(b)[i].artifactID == y.artifactID;
    }
    forall x, y | x in known && y in added ensures ArtifactKey(x) != ArtifactKey(y) {
      var t :| t in done && Given(x.artifactID, t, 0);
      var i: nat, s: Source :| x.artifactID == ArtifactID(t, i, s);
      var j: nat, u: Source :| y.artifactID == ArtifactID(b.task.id, j, u);
      if x.artifactID == y.artifactID {
        ArtifactIDInjective(t, i, s, b.task.id, j, u);
      }
    }
    RunVerify.DistinctConcat(known, added, ArtifactKey);
    forall a | a in known + added ensures GivenToSome(a.artifactID, done + {b.task.id}) {
      if a in known {
        var t :| t in done && Given(a.artifactID, t, 0);
        assert t in done + {b.task.id};
      }
    }
  }

  lemma {:induction false} ArtifactsGiven(c: Contract, w: World, opts: Options, blocks: seq<Block>)
    requires IsDefault(w) && LegalRun(c, w, opts, blocks)
    ensures Provenance.DistinctBy(Artifacts(blocks), ArtifactKey)
    ensures forall a :: a in Artifacts(blocks) ==> GivenToSome(a.artifactID, LedgerGrammar.StartedIDs(blocks))
  {
    if blocks != [] {
      var before, b := blocks[..|blocks| - 1], blocks[|blocks| - 1];
      ArtifactsGiven(c, w, opts, before);
      BlockArtifactsDistinct(c, w, opts, before, b.index);
      LedgerGrammar.AllDoneStarted(before);
      assert b.task.id !in DoneIDs(before);
      NewArtifacts(Artifacts(before), LedgerGrammar.StartedIDs(before), b, GateLength(before, b));
    }
  }

  predicate IDChars(text: string) {
    forall i :: 0 <= i < |text| ==> Validation.IDChar(text[i])
  }

  lemma {:induction false} IDCharsDashed(a: string, b: string)
    requires IDChars(a) && IDChars(b)
    ensures IDChars(a + "-" + b)
  {
  }

  lemma {:induction false} PartsAreIDChars(index: nat, source: Source)
    ensures IDChars(Word(source)) && IDChars(Digits(index + 1)) && IDChars(Tail(index, source))
  {
  }

  lemma {:induction false} LongIsPortable(id: string)
    requires IDChars(id) && |id| >= 5
    ensures PortableID(id)
  {
  }

  /** The default adapter's IDs are as portable as the task's ID that they start with. */
  lemma {:induction false} ArtifactIDPortable(taskID: string, index: nat, source: Source)
    requires PortableID(taskID)
    ensures PortableID(ArtifactID(taskID, index, source))
  {
    assert IDChars(taskID);
    PartsAreIDChars(index, source);
    HeadAndTail(taskID, index, source);
    hide IDChars, ArtifactID, Tail, Word, Validation.IDChar, Digits;
    IDCharsDashed(taskID, Word(source));
    IDCharsDashed(taskID + "-" + Word(source), Digits(index + 1));
    IDCharsDashed(Head(taskID, index, source), Tail(index, source));
    LongIsPortable(ArtifactID(taskID, index, source));
  }

  lemma {:induction false} ArtifactsPortable(c: Contract, w: World, opts: Options, blocks: seq<Block>)
    requires IsDefault(w) && LegalRun(c, w, opts, blocks) && ValidContract.Valid(c, w.oracle)
    ensures RunLines.AllPortable(Artifacts(blocks))
  {
    ArtifactsGiven(c, w, opts, blocks);
    StartedArePortable(c, w, opts, blocks);
    hide PortableID, IsDefault, LegalRun, ValidContract.Valid, LedgerGrammar.StartedIDs, Artifacts, ArtifactID;
    forall i | 0 <= i < |Artifacts(blocks)| ensures PortableID(Artifacts(blocks)[i].artifactID) {
      var id := Artifacts(blocks)[i].artifactID;
      assert GivenToSome(id, LedgerGrammar.StartedIDs(blocks));
      var t :| t in LedgerGrammar.StartedIDs(blocks) && Given(id, t, 0);
      var k: nat, source: Source :| id == ArtifactID(t, k, source);
      ArtifactIDPortable(t, k, source);
    }
  }

  lemma {:induction false} StartedArePortable(c: Contract, w: World, opts: Options, blocks: seq<Block>)
    requires LegalRun(c, w, opts, blocks) && ValidContract.Valid(c, w.oracle)
    ensures forall t :: t in LedgerGrammar.StartedIDs(blocks) ==> PortableID(t)
  {
    if blocks != [] {
      var before, b := blocks[..|blocks| - 1], blocks[|blocks| - 1];
      StartedArePortable(c, w, opts, before);
      RunLines.GateIsGood(c, w, opts, before, b);
    }
  }

  /** With the default adapter every finished run of a valid contract is accepted exactly when it has at most
      999999 events: no other condition is left. */
  lemma {:induction false} DefaultRunAccepted(c: Contract, w: World, opts: Options, blocks: seq<Block>, status: string)
    requires IsDefault(w) && LegalRun(c, w, opts, blocks) && ValidContract.Valid(c, w.oracle)
    requires RunLines.Printable(opts.runID, w.hash) && (status == "success" || status == "failed")
    ensures Accepted(LedgerOf(w, opts, blocks, status), EvidenceOf(c, w, opts, blocks, status), w.hash, w.digest, {}) <==>
            |FinishedDrafts(blocks, status)| <= LAST_EVENT
  {
    ArtifactsGiven(c, w, opts, blocks);
    ArtifactsPortable(c, w, opts, blocks);
    hide Accepted, ValidContract.Valid, RunLines.Printable, IsDefault, LinesValid;
    RunVerify.DistinctIDsClaimed(c, blocks);
    RunVerify.FinishedRunAccepted(c, w, opts, blocks, status, {});
    RunLines.RunLinesExactly(c, w, opts, blocks, status);
  }
}
