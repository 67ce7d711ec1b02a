/** Lists of findings in the order of their places: a place is a path of numbers, from the check down to the element of
    a list that it looks at. */
module Listings {
  type Place = seq<nat>

  /** Places are ordered by their first difference. */
  predicate Earlier(a: Place, b: Place) {
    b != [] && (a == [] || a[0] < b[0] || (a[0] == b[0] && Earlier(a[1..], b[1..])))
  }

  /** What is to be found at which place. */
  type Findings<!T> = (Place, T) -> bool

  ghost predicate Occurs<T>(list: seq<T>, places: seq<Place>, p: Place, x: T) {
    exists i :: 0 <= i < |list| && i < |places| && places[i] == p && list[i] == x
  }

  /** The list holds exactly the findings, in the order of their places. */
  ghost predicate Lists<T(!new)>(list: seq<T>, places: seq<Place>, found: Findings<T>) {
    && |places| == |list|
    && (forall i, j :: 0 <= i < j < |places| ==> Earlier(places[i], places[j]))
    && (forall i :: 0 <= i < |list| ==> found(places[i], list[i]))
    && forall p, x :: found(p, x) ==> Occurs(list, places, p, x)
  }

  ghost function Below<T>(found: Findings<T>, n: nat): Findings<T> {
    (p: Place, x: T) => p != [] && p[0] < n && found(p, x)
  }

  ghost function From<T>(found: Findings<T>, n: nat): Findings<T> {
    (p: Place, x: T) => p != [] && p[0] >= n && found(p, x)
  }

  /** What is found at the places that start with n, by the rest of the place. */
  ghost function At<T>(found: Findings<T>, n: nat): Findings<T> {
    (p: Place, x: T) => found([n] + p, x)
  }

  ghost function Under(n: nat, places: seq<Place>): (under: seq<Place>)
    ensures |under| == |places|
  {
    seq(|places|, i requires 0 <= i < |places| => [n] + places[i])
  }

  lemma {:induction false} ListsSame<T(!new)>(list: seq<T>, places: seq<Place>, f: Findings<T>, g: Findings<T>)
    requires Lists(list, places, f) && forall p, x :: f(p, x) <==> g(p, x)
    ensures Lists(list, places, g)
  {
    hide Occurs, Earlier;
  }

  lemma {:induction false} ListsNone<T(!new)>(found: Findings<T>)
    requires forall p, x :: !found(p, x)
    ensures Lists([], [], found)
  {
  }

  /** One check that may report one finding. */
  lemma {:induction false} ListsOne<T(!new)>(list: seq<T>, found: Findings<T>) returns (places: seq<Place>)
    requires |list| <= 1
    requires forall p, x :: found(p, x) <==> p == [] && x in list
    ensures Lists(list, places, found)
  {
    places := if list == [] then [] else [[]];
    forall p, x | found(p, x) ensures Occurs(list, places, p, x) {
      assert places[0] == p && list[0] == x;
    }
  }

  lemma {:induction false} OccursIn<T>(a: seq<T>, pa: seq<Place>, b: seq<T>, pb: seq<Place>, p: Place, x: T)
    requires |a| == |pa| && |b| == |pb|
    ensures Occurs(a, pa, p, x) ==> Occurs(a + b, pa + pb, p, x)
    ensures Occurs(b, pb, p, x) ==> Occurs(a + b, pa + pb, p, x)
  {
    if Occurs(a, pa, p, x) {
      var i :| 0 <= i < |a| && pa[i] == p && a[i] == x;
      assert (pa + pb)[i] == p && (a + b)[i] == x;
    }
    if Occurs(b, pb, p, x) {
      var i :| 0 <= i < |b| && pb[i] == p && b[i] == x;
      assert (pa + pb)[|a| + i] == p && (a + b)[|a| + i] == x;
    }
  }

  /** Two lists whose places are apart. */
  lemma {:induction false} ListsJoin<T(!new)>(
    a: seq<T>, pa: seq<Place>, f: Findings<T>, b: seq<T>, pb: seq<Place>, g: Findings<T>, mid: nat, h: Findings<T>)
    requires Lists(a, pa, f) && Lists(b, pb, g)
    requires forall p, x :: f(p, x) ==> p != [] && p[0] < mid
    requires forall p, x :: g(p, x) ==> p != [] && p[0] >= mid
    requires forall p, x :: h(p, x) <==> f(p, x) || g(p, x)
    ensures Lists(a + b, pa + pb, h)
  {
    var list, places := a + b, pa + pb;
    hide Occurs;
    forall i, j | 0 <= i < j < |places| ensures Earlier(places[i], places[j]) {
      if j < |pa| {
        assert Earlier(pa[i], pa[j]);
      } else if i >= |pa| {
        assert Earlier(pb[i - |pa|], pb[j - |pa|]);
      } else {
        assert f(pa[i], a[i]) && g(pb[j - |pa|], b[j - |pa|]);
      }
    }
    forall p, x | h(p, x) ensures Occurs(list, places, p, x) {
      OccursIn(a, pa, b, pb, p, x);
    }
  }

  lemma {:induction false} ListsUnder<T(!new)>(list: seq<T>, places: seq<Place>, n: nat, found: Findings<T>, all: Findings<T>)
    requires Lists(list, places, found)
    requires forall p, x :: all(p, x) <==> p != [] && p[0] == n && found(p[1..], x)
    ensures Lists(list, Under(n, places), all)
  {
    var under := Under(n, places);
    hide Occurs;
    forall i | 0 <= i < |under| ensures under[i][1..] == places[i] {
      assert under[i] == [n] + places[i];
    }
    forall i, j | 0 <= i < j < |under| ensures Earlier(under[i], under[j]) {
      assert Earlier(places[i], places[j]);
    }
    forall p, x | all(p, x) ensures Occurs(list, under, p, x) {
      OccursUnder(list, places, n, p, x);
    }
  }

  lemma {:induction false} OccursUnder<T>(list: seq<T>, places: seq<Place>, n: nat, p: Place, x: T)
    requires p != [] && p[0] == n && Occurs(list, places, p[1..], x)
    ensures Occurs(list, Under(n, places), p, x)
  {
    var i :| 0 <= i < |list| && i < |places| && places[i] == p[1..] && list[i] == x;
    assert Under(n, places)[i] == [n] + p[1..] == p;
  }

  /** One more number in front: what lies at n, before what lies behind it. */
  lemma {:induction false} ListsCons<T(!new)>(
    a: seq<T>, pa: seq<Place>, b: seq<T>, pb: seq<Place>, found: Findings<T>, n: nat)
    returns (places: seq<Place>)
    requires Lists(a, pa, At(found, n)) && Lists(b, pb, From(found, n + 1))
    ensures Lists(a + b, places, From(found, n))
  {
    var here := (p: Place, x: T) => p != [] && p[0] == n && found(p, x);
    assert forall p: Place :: p != [] && p[0] == n ==> [n] + p[1..] == p;
    ListsUnder(a, pa, n, At(found, n), here);
    ListsJoin(a, Under(n, pa), here, b, pb, From(found, n + 1), n + 1, From(found, n));
    places := Under(n, pa) + pb;
  }

  /** One more number behind. */
  lemma {:induction false} ListsSnoc<T(!new)>(
    a: seq<T>, pa: seq<Place>, b: seq<T>, pb: seq<Place>, found: Findings<T>, n: nat)
    returns (places: seq<Place>)
    requires Lists(a, pa, Below(found, n)) && Lists(b, pb, At(found, n))
    ensures Lists(a + b, places, Below(found, n + 1))
  {
    var here := (p: Place, x: T) => p != [] && p[0] == n && found(p, x);
    assert forall p: Place :: p != [] && p[0] == n ==> [n] + p[1..] == p;
    ListsUnder(b, pb, n, At(found, n), here);
    ListsJoin(a, pa, Below(found, n), b, Under(n, pb), here, n, Below(found, n + 1));
    places := pa + Under(n, pb);
  }

  /** The first of a list is the finding at the earliest place. */
  lemma {:induction false} FirstIsEarliest<T(!new)>(list: seq<T>, places: seq<Place>, found: Findings<T>)
    requires Lists(list, places, found)
    ensures list == [] <==> forall p, x :: !found(p, x)
    ensures list != [] ==> found(places[0], list[0])
    ensures list != [] ==> forall p, x :: found(p, x) ==> (p == places[0] && x == list[0]) || Earlier(places[0], p)
  {
    hide Occurs, Earlier;
    assert list != [] ==> found(places[0], list[0]);
    forall p, x | found(p, x) ensures list != [] && ((p == places[0] && x == list[0]) || Earlier(places[0], p)) {
      var i := OccursAt(list, places, p, x);
    }
  }

  lemma {:induction false} OccursAt<T>(list: seq<T>, places: seq<Place>, p: Place, x: T) returns (i: nat)
    requires Occurs(list, places, p, x)
    ensures i < |list| && i < |places| && places[i] == p && list[i] == x
  {
    i :| 0 <= i < |list| && i < |places| && places[i] == p && list[i] == x;
  }
}
