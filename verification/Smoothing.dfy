/** The lower median of internal/fuel/engine.go: sort a copy, take the element at (n - 1) / 2. */
module Smoothing {

  function Place(x: real, s: seq<real>): seq<real> {
    if s == [] || x <= s[0] then [x] + s else [s[0]] + Place(x, s[1..])
  }

  function Sorted(w: seq<real>): (s: seq<real>)
    ensures |s| == |w|
  {
    if w == [] then [] else
      PlaceLength(w[0], Sorted(w[1..]));
      Place(w[0], Sorted(w[1..]))
  }

  function Median(w: seq<real>): real
    requires w != []
  {
    Sorted(w)[(|w| - 1) / 2]
  }

  lemma PlaceLength(x: real, s: seq<real>)
    ensures |Place(x, s)| == |s| + 1
  {
  }

  ghost predicate Ascending(s: seq<real>) {
    forall i, j | 0 <= i < j < |s| :: s[i] <= s[j]
  }

  lemma {:induction false} PlaceAscending(x: real, s: seq<real>)
    requires Ascending(s)
    ensures Ascending(Place(x, s)) && forall y | y in Place(x, s) :: y == x || y in s
  {
    if s != [] && x > s[0] {
      PlaceAscending(x, s[1..]);
      var p := Place(x, s[1..]);
      forall i | 0 <= i < |p|
        ensures s[0] <= p[i]
      {
        assert p[i] in p;
        if p[i] in s[1..] {
          var j :| 0 <= j < |s[1..]| && s[1..][j] == p[i];
          assert s[1..][j] == s[j + 1];
        }
      }
    }
  }

  lemma {:induction false} SortedAscending(w: seq<real>)
    ensures Ascending(Sorted(w))
  {
    if w != [] {
      SortedAscending(w[1..]);
      PlaceAscending(w[0], Sorted(w[1..]));
    }
  }

  // ---------- counting readings ----------

  function Below(w: seq<real>, lo: real): nat {
    if w == [] then 0 else (if w[0] < lo then 1 else 0) + Below(w[1..], lo)
  }

  function Above(w: seq<real>, hi: real): nat {
    if w == [] then 0 else (if w[0] > hi then 1 else 0) + Above(w[1..], hi)
  }

  lemma {:induction false} PlaceCounts(x: real, s: seq<real>, v: real)
    ensures Below(Place(x, s), v) == Below(s, v) + if x < v then 1 else 0
    ensures Above(Place(x, s), v) == Above(s, v) + if x > v then 1 else 0
  {
    if s != [] && x > s[0] {
      PlaceCounts(x, s[1..], v);
      assert Place(x, s)[1..] == Place(x, s[1..]);
    } else {
      assert Place(x, s)[1..] == s;
    }
  }

  lemma {:induction false} SortedCounts(w: seq<real>, v: real)
    ensures Below(Sorted(w), v) == Below(w, v) && Above(Sorted(w), v) == Above(w, v)
  {
    if w != [] {
      SortedCounts(w[1..], v);
      PlaceCounts(w[0], Sorted(w[1..]), v);
    }
  }

  /** In an ascending sequence, position k is below v exactly when more than k elements are. */
  lemma {:induction false} RankBelow(s: seq<real>, k: nat, v: real)
    requires Ascending(s) && k < |s|
    ensures s[k] < v <==> Below(s, v) > k
  {
    if k > 0 {
      RankBelow(s[1..], k - 1, v);
    } else if s[0] >= v {
      NoneBelow(s, v);
    }
  }

  lemma {:induction false} NoneBelow(s: seq<real>, v: real)
    requires forall i | 0 <= i < |s| :: s[i] >= v
    ensures Below(s, v) == 0
  {
    if s != [] { NoneBelow(s[1..], v); }
  }

  lemma {:induction false} AllAbove(s: seq<real>, v: real)
    requires forall i | 0 <= i < |s| :: s[i] > v
    ensures Above(s, v) == |s|
  {
    if s != [] { AllAbove(s[1..], v); }
  }

  /** ... and above v exactly when at least |s| - k elements are. */
  lemma {:induction false} RankAbove(s: seq<real>, k: nat, v: real)
    requires Ascending(s) && k < |s|
    ensures s[k] > v <==> Above(s, v) >= |s| - k
  {
    AboveAtMost(s[1..], v);
    if k > 0 {
      RankAbove(s[1..], k - 1, v);
      if s[0] > v { AllAbove(s, v); }
    } else if s[0] > v {
      AllAbove(s, v);
    }
  }

  lemma AboveAtMost(s: seq<real>, v: real)
    ensures Above(s, v) <= |s|
  {
  }

  // ---------- what the median is ----------

  /** The lower median is the one value with at most (n-1)/2 readings below and n/2 above, exactly where it stands. */
  lemma {:induction false} MedianRank(w: seq<real>, v: real)
    requires w != []
    ensures Median(w) < v <==> Below(w, v) > (|w| - 1) / 2
    ensures Median(w) > v <==> Above(w, v) > |w| / 2
  {
    SortedAscending(w);
    SortedCounts(w, v);
    RankBelow(Sorted(w), (|w| - 1) / 2, v);
    RankAbove(Sorted(w), (|w| - 1) / 2, v);
  }

  /** Up to (n-1)/2 arbitrary readings cannot push the median outside the range of the others. */
  lemma {:induction false} MedianWithstandsOutliers(w: seq<real>, lo: real, hi: real)
    requires w != [] && Below(w, lo) + Above(w, hi) <= (|w| - 1) / 2
    ensures lo <= Median(w) <= hi
  {
    MedianRank(w, lo);
    MedianRank(w, hi);
  }

  /** The bound is sharp: one outlier more can move it anywhere below. */
  lemma OneOutlierMoreMovesIt(w: seq<real>, lo: real)
    requires w != [] && Below(w, lo) == (|w| - 1) / 2 + 1
    ensures Median(w) < lo
  {
    MedianRank(w, lo);
  }

  /** A reading above all others comes last. */
  lemma {:induction false} PlaceLast(x: real, s: seq<real>)
    requires forall i | 0 <= i < |s| :: s[i] < x
    ensures Place(x, s) == s + [x]
  {
    if s != [] { PlaceLast(x, s[1..]); }
  }
}
