/** Shared vocabulary: optional values and a few facts about sequences. */
module Common {

  datatype Option<+T> = None | Some(value: T) {
    function GetOr(default: T): T {
      if Some? then value else default
    }
  }

  ghost predicate Distinct<T(!new)>(xs: seq<T>) {
    forall i, j :: 0 <= i < j < |xs| ==> xs[i] != xs[j]
  }

  function Elements<T>(xs: seq<T>): set<T> {
    set x | x in xs
  }

  lemma NoElements<T>(xs: seq<T>)
    ensures Elements(xs) == {} <==> xs == []
  {
    if xs != [] {
      assert xs[0] in Elements(xs);
    }
  }

  /** The elements of `xs` satisfying `p`, in order. */
  function Filter<T(!new)>(xs: seq<T>, p: T -> bool): (ys: seq<T>)
    ensures forall y :: y in ys <==> y in xs && p(y)
  {
    if xs == [] then []
    else if p(xs[0]) then [xs[0]] + Filter(xs[1..], p)
    else Filter(xs[1..], p)
  }

  lemma FilterAppend<T(!new)>(xs: seq<T>, y: T, p: T -> bool)
    ensures Filter(xs + [y], p) == Filter(xs, p) + (if p(y) then [y] else [])
  {
    if xs == [] {
    } else {
      assert (xs + [y])[1..] == xs[1..] + [y];
      FilterAppend(xs[1..], y, p);
    }
  }

  /** The places the elements of a filtered sequence come from: in order, each once, and all that satisfy `p`. */
  lemma {:induction false} FilterPlaces<T(!new)>(xs: seq<T>, p: T -> bool) returns (places: seq<nat>)
    ensures |places| == |Filter(xs, p)|
    ensures forall x :: 0 <= x < |places| ==> places[x] < |xs| && Filter(xs, p)[x] == xs[places[x]]
    ensures forall x, y :: 0 <= x < y < |places| ==> places[x] < places[y]
    ensures forall i: nat :: i in places <==> i < |xs| && p(xs[i])
  {
    if xs == [] {
      places := [];
    } else {
      var n := |xs| - 1;
      assert xs == xs[..n] + [xs[n]];
      FilterAppend(xs[..n], xs[n], p);
      places := FilterPlaces(xs[..n], p);
      if p(xs[n]) {
        places := places + [n];
      }
    }
  }

  ghost function Below(n: nat): (r: set<nat>)
    ensures forall i: nat :: i in r <==> i < n
    ensures |r| == n
  {
    if n == 0 then {} else Below(n - 1) + {n - 1}
  }

  /** A sequence without repetition whose elements lie in a finite set is no longer than the set. */
  lemma DistinctFits<T(!new)>(xs: seq<T>, bound: set<T>)
    requires Distinct(xs)
    requires forall x :: x in xs ==> x in bound
    ensures |xs| <= |bound|
  {
    if xs == [] {
    } else {
      var n := |xs| - 1;
      forall x | x in xs[..n]
        ensures x in bound - {xs[n]}
      {
        var i :| 0 <= i < n && xs[i] == x;
      }
      DistinctFits(xs[..n], bound - {xs[n]});
    }
  }
}
