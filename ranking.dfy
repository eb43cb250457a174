// The filter-and-rank step of a nearby search: keep the places within the
// radius, paired with their distances, and sort them by distance with a
// stable sort, so that places at equal distance keep the provider's order.
module Ranking {
  import opened Places

  /** The places of `results` whose distance from `center` is at most
      `radius`, each paired with that distance, in the provider's order. */
  function Filter(results: seq<Place>, center: LatLng, radius: real, distanceBetween: DistanceFn): (trails: seq<Trail>)
    ensures |trails| <= |results|
  {
    if results == [] then []
    else
      var place := results[|results| - 1];
      var distance := distanceBetween(center, place.location);
      Filter(results[..|results| - 1], center, radius, distanceBetween)
        + (if distance <= radius then [Trail(place, distance)] else [])
  }

  /** Exactly the places within the radius are kept, each with its own distance. */
  lemma {:induction false} FilterMembers(results: seq<Place>, center: LatLng, radius: real, distanceBetween: DistanceFn, t: Trail)
    ensures t in Filter(results, center, radius, distanceBetween) <==>
            t.place in results && t.distance == distanceBetween(center, t.place.location) && t.distance <= radius
  {
    if results != [] {
      var init := results[..|results| - 1];
      FilterMembers(init, center, radius, distanceBetween, t);
      assert results == init + [results[|results| - 1]];
    }
  }

  /** The filter preserves the provider's order: filtering a concatenation
      concatenates the filtered parts. */
  lemma {:induction false} FilterAppend(a: seq<Place>, b: seq<Place>, center: LatLng, radius: real, distanceBetween: DistanceFn)
    ensures Filter(a + b, center, radius, distanceBetween)
         == Filter(a, center, radius, distanceBetween) + Filter(b, center, radius, distanceBetween)
  {
    if b == [] {
      assert a + b == a;
    } else {
      var init := b[..|b| - 1];
      FilterAppend(a, init, center, radius, distanceBetween);
      assert (a + b)[..|a + b| - 1] == a + init;
    }
  }

  /** A single result is kept, paired with its distance, exactly when that
      distance is at most the radius. */
  lemma FilterOne(place: Place, center: LatLng, radius: real, distanceBetween: DistanceFn)
    ensures var distance := distanceBetween(center, place.location);
            Filter([place], center, radius, distanceBetween)
              == if distance <= radius then [Trail(place, distance)] else []
  {
    assert [place][..0] == [];
  }

  /** Each trail is kept as often as its place occurs among the results when
      it carries that place's distance and is within the radius, and never
      otherwise. */
  lemma {:induction false} FilterCount(results: seq<Place>, center: LatLng, radius: real, distanceBetween: DistanceFn, t: Trail)
    ensures multiset(Filter(results, center, radius, distanceBetween))[t]
         == if t.distance == distanceBetween(center, t.place.location) && t.distance <= radius
            then multiset(results)[t.place] else 0
  {
    if results != [] {
      var init := results[..|results| - 1];
      FilterCount(init, center, radius, distanceBetween, t);
      assert results == init + [results[|results| - 1]];
    }
  }

  /** Trails ordered non-decreasingly by distance. */
  predicate SortedByDistance(s: seq<Trail>) {
    forall i, j :: 0 <= i < j < |s| ==> s[i].distance <= s[j].distance
  }

  /** The trails of `s` at distance `d`, in the order they appear in `s`.
      A sort is stable when it leaves every such subsequence unchanged. */
  function Ties(s: seq<Trail>, d: real): seq<Trail> {
    if s == [] then []
    else Ties(s[..|s| - 1], d) + (if s[|s| - 1].distance == d then [s[|s| - 1]] else [])
  }

  /** `x` inserted into `s` after the longest suffix of `s` that is strictly
      farther than `x`: one step of a stable insertion sort. */
  function Insert(s: seq<Trail>, x: Trail): (r: seq<Trail>)
    ensures |r| == |s| + 1
  {
    if s == [] then [x]
    else if s[|s| - 1].distance > x.distance then Insert(s[..|s| - 1], x) + [s[|s| - 1]]
    else s + [x]
  }

  /** Stable sort of `s` by distance. */
  function SortByDistance(s: seq<Trail>): (r: seq<Trail>)
    ensures |r| == |s|
  {
    if s == [] then [] else Insert(SortByDistance(s[..|s| - 1]), s[|s| - 1])
  }

  lemma {:induction false} InsertPermutes(s: seq<Trail>, x: Trail)
    ensures multiset(Insert(s, x)) == multiset(s) + multiset{x}
  {
    if s != [] && s[|s| - 1].distance > x.distance {
      var init := s[..|s| - 1];
      InsertPermutes(init, x);
      assert s == init + [s[|s| - 1]];
    }
  }

  lemma {:induction false} InsertSorted(s: seq<Trail>, x: Trail)
    requires SortedByDistance(s)
    ensures SortedByDistance(Insert(s, x))
  {
    if s != [] && s[|s| - 1].distance > x.distance {
      var init, last := s[..|s| - 1], s[|s| - 1];
      InsertSorted(init, x);
      InsertPermutes(init, x);
      var r := Insert(init, x);
      forall k | 0 <= k < |r|
        ensures r[k].distance <= last.distance
      {
        assert r[k] in multiset(init) + multiset{x};
      }
    }
  }

  lemma {:induction false} InsertTies(s: seq<Trail>, x: Trail, d: real)
    ensures Ties(Insert(s, x), d) == Ties(s, d) + (if x.distance == d then [x] else [])
  {
    if s == [] {
      assert Insert(s, x) == [x];
      assert [x][..0] == [];
    } else if s[|s| - 1].distance > x.distance {
      var init, last := s[..|s| - 1], s[|s| - 1];
      var r := Insert(init, x);
      InsertTies(init, x, d);
      assert (r + [last])[..|r|] == r;
    } else {
      assert (s + [x])[..|s|] == s;
    }
  }

  /** The sort orders by distance. */
  lemma {:induction false} SortSorted(s: seq<Trail>)
    ensures SortedByDistance(SortByDistance(s))
  {
    if s != [] {
      SortSorted(s[..|s| - 1]);
      InsertSorted(SortByDistance(s[..|s| - 1]), s[|s| - 1]);
    }
  }

  /** The sort only reorders. */
  lemma {:induction false} SortPermutes(s: seq<Trail>)
    ensures multiset(SortByDistance(s)) == multiset(s)
  {
    if s != [] {
      var init := s[..|s| - 1];
      SortPermutes(init);
      InsertPermutes(SortByDistance(init), s[|s| - 1]);
      assert s == init + [s[|s| - 1]];
    }
  }

  /** The sort is stable: trails at equal distance keep their relative order. */
  lemma {:induction false} SortKeepsTies(s: seq<Trail>, d: real)
    ensures Ties(SortByDistance(s), d) == Ties(s, d)
  {
    if s != [] {
      SortKeepsTies(s[..|s| - 1], d);
      InsertTies(SortByDistance(s[..|s| - 1]), s[|s| - 1], d);
    }
  }

  lemma {:induction false} TiesMembers(s: seq<Trail>, d: real, t: Trail)
    ensures t in Ties(s, d) <==> t in s && t.distance == d
  {
    if s != [] {
      var init := s[..|s| - 1];
      TiesMembers(init, d, t);
      assert s == init + [s[|s| - 1]];
    }
  }

  /** Appending a trail extends its own group of ties and no other. */
  lemma TiesAppend(s: seq<Trail>, x: Trail, d: real)
    ensures Ties(s + [x], d) == Ties(s, d) + (if x.distance == d then [x] else [])
  {
  }

  /** In a sorted sequence no trail is farther than the last one. */
  lemma LastIsFarthest(s: seq<Trail>, x: Trail, y: Trail)
    requires SortedByDistance(s + [x]) && y in s + [x]
    ensures y.distance <= x.distance
  {
    var k :| 0 <= k < |s + [x]| && (s + [x])[k] == y;
    assert (s + [x])[|s|] == x;
  }

  /** If `t + [a]` and `u + [b]` have the same ties everywhere and `a`, `b`
      are equally far, then `a == b` and `t`, `u` have the same ties. */
  lemma TiesLastEqual(t: seq<Trail>, a: Trail, u: seq<Trail>, b: Trail)
    requires a.distance == b.distance
    requires forall d :: Ties(t + [a], d) == Ties(u + [b], d)
    ensures a == b
    ensures forall d :: Ties(t, d) == Ties(u, d)
  {
    var m := a.distance;
    var tm, um := Ties(t, m), Ties(u, m);
    TiesAppend(t, a, m);
    TiesAppend(u, b, m);
    assert tm + [a] == um + [b];
    assert (tm + [a])[|tm|] == a && (um + [b])[|um|] == b;
    assert tm == (tm + [a])[..|tm|] && um == (um + [b])[..|um|];
    forall d
      ensures Ties(t, d) == Ties(u, d)
    {
      TiesAppend(t, a, d);
      TiesAppend(u, b, d);
      var td, ud := Ties(t, d), Ties(u, d);
      assert Ties(t + [a], d) == Ties(u + [b], d);
      if a.distance == d {
        assert td + [a] == ud + [a];
        assert td == (td + [a])[..|td|] && ud == (ud + [a])[..|ud|];
      } else {
        assert td + [] == td && ud + [] == ud;
      }
    }
  }

  /** Two sorted sequences with the same ties everywhere end in the same
      trail, and what precedes it has the same ties everywhere. */
  lemma SortedTiesLast(t: seq<Trail>, a: Trail, u: seq<Trail>, b: Trail)
    requires SortedByDistance(t + [a]) && SortedByDistance(u + [b])
    requires forall d :: Ties(t + [a], d) == Ties(u + [b], d)
    ensures a == b
    ensures forall d :: Ties(t, d) == Ties(u, d)
  {
    TiesMembers(t + [a], a.distance, a);
    assert Ties(t + [a], a.distance) == Ties(u + [b], a.distance);
    TiesMembers(u + [b], a.distance, a);
    LastIsFarthest(u, b, a);
    TiesMembers(u + [b], b.distance, b);
    assert Ties(t + [a], b.distance) == Ties(u + [b], b.distance);
    TiesMembers(t + [a], b.distance, b);
    LastIsFarthest(t, a, b);
    TiesLastEqual(t, a, u, b);
  }

  /** Two sequences sorted by distance with the same ties everywhere are equal. */
  lemma {:induction false} SortedTiesDetermine(t: seq<Trail>, u: seq<Trail>)
    requires SortedByDistance(t) && SortedByDistance(u)
    requires forall d :: Ties(t, d) == Ties(u, d)
    ensures t == u
    decreases |t| + |u|
  {
    if t == [] && u == [] {
    } else if t == [] {
      var b := u[|u| - 1];
      TiesMembers(u, b.distance, b);
    } else if u == [] {
      var a := t[|t| - 1];
      TiesMembers(t, a.distance, a);
    } else {
      var t', u' := t[..|t| - 1], u[..|u| - 1];
      assert t == t' + [t[|t| - 1]] && u == u' + [u[|u| - 1]];
      SortedTiesLast(t', t[|t| - 1], u', u[|u| - 1]);
      SortedTiesDetermine(t', u');
    }
  }

  /** A stable sort by distance is unique: any ordering of `s` that is sorted
      and keeps every group of ties in order is `SortByDistance(s)`. */
  lemma StableSortUnique(s: seq<Trail>, t: seq<Trail>)
    requires SortedByDistance(t)
    requires forall d :: Ties(t, d) == Ties(s, d)
    ensures t == SortByDistance(s)
  {
    SortSorted(s);
    forall d
      ensures Ties(t, d) == Ties(SortByDistance(s), d)
    {
      SortKeepsTies(s, d);
    }
    SortedTiesDetermine(t, SortByDistance(s));
  }

  /** Where `Insert` puts `x`: right after the last trail of `s` that is not
      farther than `x`. */
  lemma {:induction false} InsertAt(s: seq<Trail>, j: nat, x: Trail)
    requires j <= |s|
    requires j == 0 || s[j - 1].distance <= x.distance
    requires forall k :: j <= k < |s| ==> s[k].distance > x.distance
    ensures Insert(s, x) == s[..j] + [x] + s[j..]
  {
    if j < |s| {
      var init, last := s[..|s| - 1], s[|s| - 1];
      InsertAt(init, j, x);
      assert init[..j] == s[..j];
      assert init[j..] + [last] == s[j..];
    } else {
      assert s[..j] == s;
    }
  }

  /** Moves `a[i]` left past the trails of the sorted prefix `a[..i]` that
      are strictly farther than it: one pass of the insertion sort. */
  method InsertInPlace(a: array<Trail>, i: nat)
    requires i < a.Length
    modifies a
    ensures a[..i + 1] == Insert(old(a[..i]), old(a[i]))
    ensures a[i + 1..] == old(a[i + 1..])
  {
    ghost var sorted := a[..i];
    var x := a[i];
    var j := i;
    while j > 0 && a[j - 1].distance > x.distance
      invariant 0 <= j <= i
      invariant forall k :: 0 <= k < j ==> a[k] == sorted[k]
      invariant forall k :: j < k <= i ==> a[k] == sorted[k - 1]
      invariant forall k :: i < k < a.Length ==> a[k] == old(a[k])
      invariant forall k :: j <= k < i ==> sorted[k].distance > x.distance
    {
      a[j] := a[j - 1];
      j := j - 1;
    }
    InsertAt(sorted, j, x);
    ghost var inserted := sorted[..j] + [x] + sorted[j..];
    a[j] := x;
    forall k | 0 <= k <= i
      ensures a[k] == inserted[k]
    {
    }
    assert a[..i + 1] == inserted;
    assert a[i + 1..] == old(a[i + 1..]);
  }

  /** Sorts `a` in place by distance with a stable insertion sort. */
  method SortInPlace(a: array<Trail>)
    modifies a
    ensures a[..] == SortByDistance(old(a[..]))
  {
    ghost var original := a[..];
    var i := 0;
    while i < a.Length
      invariant 0 <= i <= a.Length
      invariant a[..i] == SortByDistance(original[..i])
      invariant a[i..] == original[i..]
    {
      assert a[i] == original[i];
      InsertInPlace(a, i);
      assert original[..i + 1][..i] == original[..i];
      assert a[i + 1..] == original[i + 1..];
      i := i + 1;
    }
    assert a[..] == a[..a.Length] && original == original[..a.Length];
  }

  /** The ranked trails of one successful nearby search. */
  function Ranked(results: seq<Place>, center: LatLng, radius: real, distanceBetween: DistanceFn): (ranked: seq<Trail>)
    ensures |ranked| <= |results|
    ensures SortedByDistance(ranked)
  {
    SortSorted(Filter(results, center, radius, distanceBetween));
    SortByDistance(Filter(results, center, radius, distanceBetween))
  }

  /** The body of the nearby-search callback: collect the trails within the
      radius into a list, then sort that list in place by distance. */
  method RankTrails(results: seq<Place>, center: LatLng, radius: real, distanceBetween: DistanceFn)
    returns (ranked: seq<Trail>)
    ensures ranked == Ranked(results, center, radius, distanceBetween)
  {
    var trails: seq<Trail> := [];
    for i := 0 to |results|
      invariant trails == Filter(results[..i], center, radius, distanceBetween)
    {
      var place := results[i];
      var distance := distanceBetween(center, place.location);
      assert results[..i + 1][..i] == results[..i];
      if distance <= radius {
        trails := trails + [Trail(place, distance)];
      }
    }
    assert results[..|results|] == results;
    var a := new Trail[|trails|](k requires 0 <= k < |trails| => trails[k]);
    assert a[..] == trails;
    SortInPlace(a);
    ranked := a[..];
  }

  /** Every ranked trail is a provider place within the radius, with its own distance. */
  lemma RankedWithinRadius(results: seq<Place>, center: LatLng, radius: real, distanceBetween: DistanceFn, t: Trail)
    requires t in Ranked(results, center, radius, distanceBetween)
    ensures t.place in results && t.distance == distanceBetween(center, t.place.location)
    ensures t.distance <= radius
  {
    var filtered := Filter(results, center, radius, distanceBetween);
    SortPermutes(filtered);
    assert t in multiset(SortByDistance(filtered));
    FilterMembers(results, center, radius, distanceBetween, t);
  }

  /** Every provider place within the radius is ranked, with its distance. */
  lemma RankedComplete(results: seq<Place>, center: LatLng, radius: real, distanceBetween: DistanceFn, place: Place)
    requires place in results && distanceBetween(center, place.location) <= radius
    ensures Trail(place, distanceBetween(center, place.location)) in Ranked(results, center, radius, distanceBetween)
  {
    var t := Trail(place, distanceBetween(center, place.location));
    var filtered := Filter(results, center, radius, distanceBetween);
    FilterMembers(results, center, radius, distanceBetween, t);
    SortPermutes(filtered);
    assert t in multiset(filtered);
  }

  /** The ranked trails are the filtered ones, reordered non-decreasingly by
      distance, with trails at equal distance in the provider's order; and
      they are the only list with these properties. */
  lemma RankedIsStableSort(results: seq<Place>, center: LatLng, radius: real, distanceBetween: DistanceFn)
    ensures var filtered := Filter(results, center, radius, distanceBetween);
            var ranked := Ranked(results, center, radius, distanceBetween);
            SortedByDistance(ranked) &&
            multiset(ranked) == multiset(filtered) &&
            forall d :: Ties(ranked, d) == Ties(filtered, d)
  {
    var filtered := Filter(results, center, radius, distanceBetween);
    SortSorted(filtered);
    SortPermutes(filtered);
    forall d
      ensures Ties(SortByDistance(filtered), d) == Ties(filtered, d)
    {
      SortKeepsTies(filtered, d);
    }
  }

  /** A one-mile search around a point with three parks at 500 m, 2000 m and
      1000 m ranks the first and the third, nearest first. */
  lemma ThreeParksExample(center: LatLng, a: Place, b: Place, c: Place, distanceBetween: DistanceFn)
    requires distanceBetween(center, a.location) == 500.0
    requires distanceBetween(center, b.location) == 2000.0
    requires distanceBetween(center, c.location) == 1000.0
    ensures Ranked([a, b, c], center, 1609.34, distanceBetween) == [Trail(a, 500.0), Trail(c, 1000.0)]
  {
    var results := [a, b, c];
    assert results[..2] == [a, b] && [a, b][..1] == [a] && [a][..0] == [];
    var filtered := [Trail(a, 500.0), Trail(c, 1000.0)];
    assert Filter([a], center, 1609.34, distanceBetween) == [Trail(a, 500.0)];
    assert Filter([a, b], center, 1609.34, distanceBetween) == [Trail(a, 500.0)];
    assert Filter(results, center, 1609.34, distanceBetween) == filtered;
    assert filtered[..1] == [Trail(a, 500.0)] && filtered[..1][..0] == [];
    assert SortByDistance(filtered[..1]) == [Trail(a, 500.0)];
  }
}
