/** The order in which a run takes its tasks, from the dependencies and the positions in the contract alone. */
module ScheduleOrder {
  import opened Contracts
  import opened Run
  import RunOutcome

  /** The round in which block k ran: a round ends where the position in the contract does not grow. */
  function Round(blocks: seq<Block>, k: nat): nat
    requires k < |blocks|
  {
    if k == 0 then 0 else Round(blocks, k - 1) + if blocks[k - 1].index < blocks[k].index then 0 else 1
  }

  /** A place in the scan: a round and a position in the contract. */
  datatype Place = Place(round: nat, position: nat) {
    predicate Before(other: Place) {
      round < other.round || (round == other.round && position < other.position)
    }
  }

  function PlaceOf(blocks: seq<Block>, k: nat): Place
    requires k < |blocks|
  {
    Place(Round(blocks, k), blocks[k].index)
  }

  lemma {:induction false} PlacesAscend(blocks: seq<Block>, j: nat, k: nat)
    requires j < k < |blocks|
    ensures PlaceOf(blocks, j).Before(PlaceOf(blocks, k))
  {
    if j < k - 1 {
      PlacesAscend(blocks, j, k - 1);
    }
  }

  // ----- one turn of a history -----

  lemma {:induction false} DoneAt(blocks: seq<Block>, id: string)
    ensures id in DoneIDs(blocks) <==>
            exists m :: 0 <= m < |blocks| && blocks[m].outcome.Done? && blocks[m].task.id == id
  {
    if blocks != [] {
      var before, b := blocks[..|blocks| - 1], blocks[|blocks| - 1];
      DoneAt(before, id);
      if m :| 0 <= m < |before| && before[m].outcome.Done? && before[m].task.id == id {
        assert blocks[m] == before[m];
      }
      if m :| 0 <= m < |blocks| && blocks[m].outcome.Done? && blocks[m].task.id == id {
        assert m < |before| ==> before[m] == blocks[m];
      }
    }
  }

  lemma {:induction false} AllDoneAt(blocks: seq<Block>)
    ensures AllDone(blocks) <==> forall m :: 0 <= m < |blocks| ==> blocks[m].outcome.Done?
  {
    if blocks != [] {
      var before := blocks[..|blocks| - 1];
      AllDoneAt(before);
      assert forall m :: 0 <= m < |before| ==> before[m] == blocks[m];
    }
  }

  lemma {:induction false} EarlierDone(c: Contract, w: World, opts: Options, blocks: seq<Block>, m: nat)
    requires LegalRun(c, w, opts, blocks) && m + 1 < |blocks|
    ensures blocks[m].outcome.Done?
  {
    hide LegalBlock;
    var before := blocks[..|blocks| - 1];
    AllDoneAt(before);
    assert before[m] == blocks[m];
  }

  /** Block k is the next one of the scan, and those before it have succeeded. */
  lemma {:induction false} TurnOf(c: Contract, w: World, opts: Options, blocks: seq<Block>, k: nat)
    requires LegalRun(c, w, opts, blocks) && k < |blocks|
    ensures blocks[k].index < |c.tasks| && blocks[k].task == c.tasks[blocks[k].index]
    ensures IsNext(c, DoneIDs(blocks[..k]), if k == 0 then 0 else blocks[k - 1].index + 1, blocks[k].index)
    ensures forall id :: id in DoneIDs(blocks[..k]) <==> exists m: nat :: m < k && blocks[m].task.id == id
  {
    RunOutcome.BlockAt(c, w, opts, blocks, k);
    forall id ensures id in DoneIDs(blocks[..k]) <==> exists m: nat :: m < k && blocks[m].task.id == id {
      DoneIffBefore(c, w, opts, blocks, k, id);
    }
    hide LegalRun, IsNext, DoneIDs, TaskPolicy, ExecutedOutcome;
  }

  lemma {:induction false} DoneIffBefore(c: Contract, w: World, opts: Options, blocks: seq<Block>, k: nat, id: string)
    requires LegalRun(c, w, opts, blocks) && k < |blocks|
    ensures id in DoneIDs(blocks[..k]) <==> exists m: nat :: m < k && blocks[m].task.id == id
  {
    DoneAt(blocks[..k], id);
    hide LegalRun, DoneIDs;
    if m: nat :| m < k && blocks[m].task.id == id {
      EarlierDone(c, w, opts, blocks, m);
      assert blocks[..k][m] == blocks[m];
    }
    if m :| 0 <= m < k && blocks[..k][m].outcome.Done? && blocks[..k][m].task.id == id {
      assert blocks[m].task.id == id;
    }
  }

  // ----- rounds -----

  /** Block m was a dependency of block k. */
  predicate WaitsFor(blocks: seq<Block>, k: nat, m: nat) {
    m < k < |blocks| && blocks[m].task.id in blocks[k].task.dependsOn
  }

  /** The first round in which a task at this position of the contract can follow block m: the same one when the scan
      has not passed the position yet. */
  function Release(blocks: seq<Block>, m: nat, position: nat): nat
    requires m < |blocks|
  {
    Round(blocks, m) + if blocks[m].index < position then 0 else 1
  }

  /** The scan met this place on its way to block g. */
  ghost predicate Passed(blocks: seq<Block>, g: nat, place: Place) {
    && g < |blocks| && place.Before(PlaceOf(blocks, g))
    && forall m :: 0 <= m < g ==> PlaceOf(blocks, m).Before(place)
  }

  /** The places are ascending, so each place before block k's that no block took was passed on the way to one. */
  lemma {:induction false} FirstBeyond(blocks: seq<Block>, k: nat, place: Place) returns (g: nat)
    requires k < |blocks| && place.Before(PlaceOf(blocks, k))
    requires forall m :: 0 <= m < k ==> PlaceOf(blocks, m) != place
    ensures g <= k && Passed(blocks, g, place)
  {
    g := 0;
    while !place.Before(PlaceOf(blocks, g))
      invariant g <= k && forall m :: 0 <= m < g ==> PlaceOf(blocks, m).Before(place)
      decreases k - g
    {
      assert PlaceOf(blocks, g) != place;
      g := g + 1;
    }
  }

  lemma {:induction false} PassedNotReady(c: Contract, done: set<string>, blocks: seq<Block>, g: nat, place: Place)
    requires Passed(blocks, g, place) && place.position < |c.tasks| && blocks[g].index < |c.tasks|
    requires IsNext(c, done, if g == 0 then 0 else blocks[g - 1].index + 1, blocks[g].index)
    ensures !Ready(c, done, place.position)
  {
    hide Ready;
    if g > 0 {
      assert PlaceOf(blocks, g - 1).Before(place);
    }
  }

  /** The dependencies of block k whose release lies before its round had run when the scan passed its position in the
      round before. */
  lemma {:induction false} ReleasedInTime(blocks: seq<Block>, k: nat, m: nat, g: nat)
    requires m < k < |blocks| && g <= k && Round(blocks, k) > 0
    requires Passed(blocks, g, Place(Round(blocks, k) - 1, blocks[k].index))
    requires Release(blocks, m, blocks[k].index) < Round(blocks, k)
    ensures m < g
  {
    if g < m {
      PlacesAscend(blocks, g, m);
    }
  }

  /** Every task runs in the first round that its dependencies leave open: no dependency releases it later, and unless
      that is the very first round one of them releases it exactly then. Rounds and positions ascend, so this fixes the
      whole order. */
  lemma {:induction false} OrderExactly(c: Contract, w: World, opts: Options, blocks: seq<Block>, k: nat)
    requires LegalRun(c, w, opts, blocks) && k < |blocks|
    ensures forall d :: d in blocks[k].task.dependsOn ==> exists m: nat :: WaitsFor(blocks, k, m) && blocks[m].task.id == d
    ensures forall m: nat :: WaitsFor(blocks, k, m) ==> Release(blocks, m, blocks[k].index) <= Round(blocks, k)
    ensures Round(blocks, k) > 0 ==>
              exists m: nat :: WaitsFor(blocks, k, m) && Release(blocks, m, blocks[k].index) == Round(blocks, k)
    ensures forall j: nat :: j < k ==> PlaceOf(blocks, j).Before(PlaceOf(blocks, k))
  {
    DependenciesRan(c, w, opts, blocks, k);
    if Round(blocks, k) > 0 {
      NeverIdle(c, w, opts, blocks, k);
    }
    hide *;
    forall j: nat | j < k ensures PlaceOf(blocks, j).Before(PlaceOf(blocks, k)) {
      PlacesAscend(blocks, j, k);
    }
    forall m: nat | WaitsFor(blocks, k, m) ensures Release(blocks, m, blocks[k].index) <= Round(blocks, k) {
      NotEarlier(blocks, k, m);
    }
  }

  lemma {:induction false} NotEarlier(blocks: seq<Block>, k: nat, m: nat)
    requires WaitsFor(blocks, k, m)
    ensures m < |blocks| && k < |blocks| && Release(blocks, m, blocks[k].index) <= Round(blocks, k)
  {
    PlacesAscend(blocks, m, k);
  }

  lemma {:induction false} DependenciesRan(c: Contract, w: World, opts: Options, blocks: seq<Block>, k: nat)
    requires LegalRun(c, w, opts, blocks) && k < |blocks|
    ensures forall d :: d in blocks[k].task.dependsOn ==> exists m: nat :: WaitsFor(blocks, k, m) && blocks[m].task.id == d
  {
    TurnOf(c, w, opts, blocks, k);
    hide LegalRun, Round, DoneIDs, NoneReady;
    forall d | d in blocks[k].task.dependsOn ensures exists m: nat :: WaitsFor(blocks, k, m) && blocks[m].task.id == d {
      var m: nat :| m < k && blocks[m].task.id == d;
      assert WaitsFor(blocks, k, m);
    }
  }

  lemma {:induction false} NeverIdle(c: Contract, w: World, opts: Options, blocks: seq<Block>, k: nat)
    requires LegalRun(c, w, opts, blocks) && k < |blocks| && Round(blocks, k) > 0
    ensures exists m: nat :: WaitsFor(blocks, k, m) && Release(blocks, m, blocks[k].index) >= Round(blocks, k)
  {
    if forall m: nat :: WaitsFor(blocks, k, m) ==> Release(blocks, m, blocks[k].index) < Round(blocks, k) {
      var place := Place(Round(blocks, k) - 1, blocks[k].index);
      TurnOf(c, w, opts, blocks, k);
      hide LegalRun, Round, DoneIDs, NoneReady;
      assert forall m :: 0 <= m < k ==> PlaceOf(blocks, m) != place by {
        forall m | 0 <= m < k ensures blocks[m].index != blocks[k].index {
          TurnOf(c, w, opts, blocks, m);
        }
      }
      var g := FirstBeyond(blocks, k, place);
      TurnOf(c, w, opts, blocks, g);
      PassedNotReady(c, DoneIDs(blocks[..g]), blocks, g, place);
      forall d | d in blocks[k].task.dependsOn ensures d in DoneIDs(blocks[..g]) {
        var m: nat :| m < k && blocks[m].task.id == d;
        assert WaitsFor(blocks, k, m);
        ReleasedInTime(blocks, k, m, g);
      }
      assert false;
    }
  }

  // ----- one order for all runs -----

  lemma {:induction false} OneNext(c: Contract, done: set<string>, start: nat, i: nat, j: nat)
    requires i < |c.tasks| && j < |c.tasks| && IsNext(c, done, start, i) && IsNext(c, done, start, j)
    ensures i == j
  {
    hide Ready;
  }

  /** Whatever adapters answer and clocks show, two runs of one contract take the same tasks as far as both go. */
  lemma {:induction false} OrderIsFixed(
    c: Contract, w1: World, opts1: Options, a: seq<Block>, w2: World, opts2: Options, b: seq<Block>, k: nat)
    requires LegalRun(c, w1, opts1, a) && LegalRun(c, w2, opts2, b) && k < |a| && k < |b|
    ensures a[k].index == b[k].index && a[k].task == b[k].task
    decreases k
  {
    forall m: nat | m < k ensures a[m].index == b[m].index && a[m].task == b[m].task {
      OrderIsFixed(c, w1, opts1, a, w2, opts2, b, m);
    }
    TurnOf(c, w1, opts1, a, k);
    TurnOf(c, w2, opts2, b, k);
    hide LegalRun, IsNext, DoneIDs;
    assert forall id :: id in DoneIDs(a[..k]) <==> id in DoneIDs(b[..k]);
    assert DoneIDs(a[..k]) == DoneIDs(b[..k]);
    OneNext(c, DoneIDs(a[..k]), if k == 0 then 0 else a[k - 1].index + 1, a[k].index, b[k].index);
  }
}
