/** The median of a range, taken in place with `nth_element`. */
module Medians {

  // ---------------------------------------------------------------- nth_element

  /** Nothing before the index is larger and nothing after it is smaller. */
  ghost predicate Placed(s: seq<real>, k: nat) {
    && k < |s|
    && (forall i :: 0 <= i < k ==> s[i] <= s[k])
    && (forall i :: k < i < |s| ==> s[k] <= s[i])
  }

  /** All that `nth_element` promises: a permutation with the element at the index placed. */
  ghost predicate Nth(before: seq<real>, k: nat, after: seq<real>) {
    multiset(after) == multiset(before) && Placed(after, k)
  }

  method IndexOfLeast(a: array<real>, from: nat) returns (least: nat)
    requires from < a.Length
    ensures from <= least < a.Length
    ensures forall i :: from <= i < a.Length ==> a[least] <= a[i]
  {
    least := from;
    for j := from + 1 to a.Length
      invariant from <= least < a.Length
      invariant forall i :: from <= i < j ==> a[least] <= a[i]
    {
      if a[j] < a[least] {
        least := j;
      }
    }
  }

  /** The first elements are in order and none of the others is smaller. */
  ghost predicate Selected(s: seq<real>, count: nat) {
    forall p, q :: 0 <= p < count && p < q < |s| ==> s[p] <= s[q]
  }

  lemma SelectOne(s: seq<real>, i: nat, least: nat)
    requires i <= least < |s| && Selected(s, i)
    requires forall j :: i <= j < |s| ==> s[least] <= s[j]
    ensures Selected(s[i := s[least]][least := s[i]], i + 1)
    ensures multiset(s[i := s[least]][least := s[i]]) == multiset(s)
  {
    var t := s[i := s[least]][least := s[i]];
    forall p, q | 0 <= p < i + 1 && p < q < |t| ensures t[p] <= t[q] {
      if p < i {
        assert t[p] == s[p];
        assert t[q] == s[q] || t[q] == s[i] || t[q] == s[least];
      }
    }
  }

  method NthElement(a: array<real>, k: nat)
    requires k < a.Length
    modifies a
    ensures Nth(old(a[..]), k, a[..])
  {
    for i := 0 to k + 1
      invariant multiset(a[..]) == multiset(old(a[..]))
      invariant Selected(a[..], i)
    {
      var least := IndexOfLeast(a, i);
      SelectOne(a[..], i, least);
      ghost var swapped := a[..][i := a[least]][least := a[i]];
      a[i], a[least] := a[least], a[i];
      assert a[..] == swapped;
    }
  }

  // ---------------------------------------------------------------- the median

  /** The value returned when the two calls leave the range as `mid` and then as `last`. */
  function MedianFrom(mid: seq<real>, last: seq<real>): real
    requires |mid| == |last| > 2
  {
    var n := |mid|;
    if n % 2 == 0 then (last[n / 2] + last[(n - 1) / 2]) / 2.0 else mid[n / 2]
  }

  /** The arrangements that the two calls may leave. */
  ghost predicate Arranged(data: seq<real>, mid: seq<real>, last: seq<real>) {
    Nth(data, |data| / 2, mid) && Nth(mid, (|data| - 1) / 2, last)
  }

  /** The value is one that the code may return. */
  ghost predicate MayBeMedian(data: seq<real>, m: real)
    requires |data| > 2
  {
    exists mid, last :: Arranged(data, mid, last) && |mid| == |last| == |data| && m == MedianFrom(mid, last)
  }

  method Median(a: array<real>) returns (m: real)
    requires a.Length > 2
    modifies a
    ensures MayBeMedian(old(a[..]), m)
    ensures multiset(a[..]) == multiset(old(a[..]))
  {
    var n := a.Length;
    ghost var data := a[..];
    NthElement(a, n / 2);
    ghost var mid := a[..];
    if n % 2 == 0 {
      NthElement(a, (n - 1) / 2);
      m := (a[n / 2] + a[(n - 1) / 2]) / 2.0;
      assert Arranged(data, mid, a[..]) && m == MedianFrom(mid, a[..]);
    } else {
      m := a[n / 2];
      assert (n - 1) / 2 == n / 2;
      assert Arranged(data, mid, mid) && m == MedianFrom(mid, mid);
    }
  }

  // ---------------------------------------------------------------- bounds

  ghost predicate Within(s: seq<real>, lo: real, hi: real) {
    forall i :: 0 <= i < |s| ==> lo <= s[i] <= hi
  }

  lemma SameElements(s: seq<real>, t: seq<real>)
    requires multiset(s) == multiset(t)
    ensures |s| == |t| && forall i :: 0 <= i < |s| ==> s[i] in t
  {
    assert |multiset(s)| == |s| && |multiset(t)| == |t|;
    forall i | 0 <= i < |s| ensures s[i] in t {
      assert s[i] in multiset(s);
    }
  }

  /** For either parity the median lies between any bounds of the data. */
  lemma MedianWithin(data: seq<real>, m: real, lo: real, hi: real)
    requires |data| > 2 && MayBeMedian(data, m) && Within(data, lo, hi)
    ensures lo <= m <= hi
  {
    var mid, last :| Arranged(data, mid, last) && |mid| == |last| == |data| && m == MedianFrom(mid, last);
    SameElements(mid, data);
    SameElements(last, data);
  }

  // ---------------------------------------------------------------- counting

  /** How many elements are smaller, and how many larger, than a value. */
  function Below(s: seq<real>, x: real): (n: nat)
    ensures n <= |s|
  {
    if s == [] then 0 else (if s[0] < x then 1 else 0) + Below(s[1..], x)
  }

  function Above(s: seq<real>, x: real): (n: nat)
    ensures n <= |s|
  {
    if s == [] then 0 else (if s[0] > x then 1 else 0) + Above(s[1..], x)
  }

  lemma {:induction false} CountsOfConcatenation(s: seq<real>, t: seq<real>, x: real)
    ensures Below(s + t, x) == Below(s, x) + Below(t, x) && Above(s + t, x) == Above(s, x) + Above(t, x)
  {
    if s == [] {
      assert s + t == t;
    } else {
      assert (s + t)[1..] == s[1..] + t;
      CountsOfConcatenation(s[1..], t, x);
    }
  }

  lemma WithoutFirst(s: seq<real>, t: seq<real>, k: nat)
    requires multiset(s) == multiset(t) && s != [] && k < |t| && t[k] == s[0]
    ensures multiset(s[1..]) == multiset(t[..k] + t[k + 1..])
  {
    assert t == t[..k] + ([s[0]] + t[k + 1..]);
    assert s == [s[0]] + s[1..];
    assert multiset(s[1..]) == multiset(s) - multiset{s[0]};
    assert multiset(t[..k] + t[k + 1..]) == multiset(t) - multiset{s[0]};
  }

  lemma {:induction false} CountsOfPermutation(s: seq<real>, t: seq<real>, x: real)
    requires multiset(s) == multiset(t)
    ensures Below(s, x) == Below(t, x) && Above(s, x) == Above(t, x)
  {
    SameElements(s, t);
    if s != [] {
      var k :| 0 <= k < |t| && t[k] == s[0];
      var rest := t[..k] + t[k + 1..];
      assert t == t[..k] + ([s[0]] + t[k + 1..]);
      WithoutFirst(s, t, k);
      CountsOfPermutation(s[1..], rest, x);
      CountsOfConcatenation(t[..k], t[k + 1..], x);
      CountsOfConcatenation(t[..k], [s[0]] + t[k + 1..], x);
    }
  }

  lemma {:induction false} CountBounds(s: seq<real>, x: real)
    ensures (forall i :: 0 <= i < |s| ==> s[i] <= x) ==> Above(s, x) == 0
    ensures (forall i :: 0 <= i < |s| ==> s[i] >= x) ==> Below(s, x) == 0
    ensures (forall i :: 0 <= i < |s| ==> s[i] < x) ==> Below(s, x) == |s|
    ensures (forall i :: 0 <= i < |s| ==> s[i] > x) ==> Above(s, x) == |s|
  {
    if s != [] {
      CountBounds(s[1..], x);
      assert forall i :: 0 <= i < |s[1..]| ==> s[1..][i] == s[i + 1];
    }
  }

  /** An element of the data at the rank: at most `k` are smaller, and at most the others larger. */
  ghost predicate HasRank(data: seq<real>, k: nat, x: real) {
    k < |data| && x in data && Below(data, x) <= k && Above(data, x) < |data| - k
  }

  /** `nth_element` puts the element of that rank at the index. */
  lemma NthHasRank(data: seq<real>, k: nat, after: seq<real>)
    requires Nth(data, k, after)
    ensures |data| == |after| && HasRank(data, k, after[k])
  {
    hide Below, Above;
    SameElements(after, data);
    CountsOfPermutation(data, after, after[k]);
    PlacedCounts(after, k);
  }

  lemma PlacedCounts(s: seq<real>, k: nat)
    requires Placed(s, k)
    ensures Below(s, s[k]) <= k && Above(s, s[k]) < |s| - k
  {
    hide Below, Above;
    assert s == s[..k] + s[k..] == s[..k + 1] + s[k + 1..];
    CountsOfConcatenation(s[..k], s[k..], s[k]);
    CountsOfConcatenation(s[..k + 1], s[k + 1..], s[k]);
    CountBounds(s[k..], s[k]);
    CountBounds(s[..k + 1], s[k]);
  }

  lemma {:induction false} CountsApart(s: seq<real>, x: real, y: real)
    requires x < y
    ensures |s| - Above(s, x) <= Below(s, y)
    ensures x in s ==> Below(s, x) < Below(s, y)
    ensures y in s ==> Above(s, y) < Above(s, x)
    ensures Below(s, x) <= Below(s, y) && Above(s, y) <= Above(s, x)
  {
    if s != [] {
      CountsApart(s[1..], x, y);
    }
  }

  /** No other value has the rank, so nothing else that `nth_element` may do shows. */
  lemma RankIsUnique(data: seq<real>, k: nat, x: real, y: real)
    requires HasRank(data, k, x) && HasRank(data, k, y)
    ensures x == y
  {
    if x < y {
      CountsApart(data, x, y);
    } else if y < x {
      CountsApart(data, y, x);
    }
  }

  // ---------------------------------------------------------------- odd lengths

  /** With an odd number of elements the code returns the middle one, whatever `nth_element` does. */
  lemma OddMedian(data: seq<real>, m: real)
    requires |data| > 2 && |data| % 2 == 1 && MayBeMedian(data, m)
    ensures HasRank(data, |data| / 2, m)
    ensures forall other :: MayBeMedian(data, other) ==> other == m
  {
    forall other | MayBeMedian(data, other) ensures HasRank(data, |data| / 2, other) {
      var mid, last :| Arranged(data, mid, last) && |mid| == |last| == |data| && other == MedianFrom(mid, last);
      NthHasRank(data, |data| / 2, mid);
    }
    forall other | MayBeMedian(data, other) ensures other == m {
      RankIsUnique(data, |data| / 2, other, m);
    }
  }

  /** How many elements lie between two bounds. */
  function Between(s: seq<real>, lo: real, hi: real): nat {
    if s == [] then 0 else (if lo <= s[0] <= hi then 1 else 0) + Between(s[1..], lo, hi)
  }

  lemma {:induction false} OutsideBounds(s: seq<real>, lo: real, hi: real, m: real)
    ensures m < lo ==> Between(s, lo, hi) <= Above(s, m)
    ensures m > hi ==> Between(s, lo, hi) <= Below(s, m)
  {
    if s != [] {
      OutsideBounds(s[1..], lo, hi, m);
    }
  }

  /** Fewer than half of the elements cannot pull the median of an odd number out of the range
      of the others. */
  lemma OddMedianIsRobust(data: seq<real>, m: real, lo: real, hi: real)
    requires |data| > 2 && |data| % 2 == 1 && MayBeMedian(data, m)
    requires 2 * Between(data, lo, hi) > |data|
    ensures lo <= m <= hi
  {
    OddMedian(data, m);
    OutsideBounds(data, lo, hi, m);
  }

  // ---------------------------------------------------------------- even lengths

  ghost predicate Sorted(s: seq<real>) {
    forall i, j :: 0 <= i < j < |s| ==> s[i] <= s[j]
  }

  /** The mean of the two middle elements. */
  function TrueMedian(sorted: seq<real>): real
    requires |sorted| > 2 && |sorted| % 2 == 0
  {
    (sorted[|sorted| / 2] + sorted[|sorted| / 2 - 1]) / 2.0
  }

  /** With an even number the code averages the lower of the two with some element not below it. */
  lemma EvenMedian(data: seq<real>, mid: seq<real>, last: seq<real>)
    requires |data| > 2 && |data| % 2 == 0 && Arranged(data, mid, last)
    ensures |mid| == |last| == |data|
    ensures HasRank(data, |data| / 2 - 1, last[|data| / 2 - 1])
    ensures last[|data| / 2 - 1] <= last[|data| / 2] && last[|data| / 2] in data
  {
    SameElements(mid, data);
    SameElements(last, data);
    NthHasRank(data, |data| / 2 - 1, last);
  }

  lemma SortedRank(data: seq<real>, sorted: seq<real>, k: nat)
    requires multiset(sorted) == multiset(data) && Sorted(sorted) && k < |sorted|
    ensures Nth(data, k, sorted) && HasRank(data, k, sorted[k])
  {
    NthHasRank(data, k, sorted);
  }

  /** Of the elements up to the place after the lower middle one, one reaches the upper middle one. */
  lemma UpperIsReached(data: seq<real>, last: seq<real>, k: nat, upper: real)
    requires multiset(last) == multiset(data) && Placed(last, k) && k + 1 < |last|
    requires HasRank(data, k + 1, upper) && last[k] < upper
    ensures last[k + 1] >= upper
  {
    hide Below, Above;
    if last[k + 1] < upper {
      CountsOfPermutation(data, last, upper);
      assert last == last[..k + 2] + last[k + 2..];
      CountsOfConcatenation(last[..k + 2], last[k + 2..], upper);
      CountBounds(last[..k + 2], upper);
      assert false;
    }
  }

  /** The second call may move the upper middle element: whatever it does, the code returns the
      true median exactly if no element is larger than that one. */
  lemma EvenMedianExactly(data: seq<real>, sorted: seq<real>)
    requires |data| > 2 && |data| % 2 == 0 && multiset(sorted) == multiset(data) && Sorted(sorted)
    ensures |sorted| == |data|
    ensures (forall m :: MayBeMedian(data, m) ==> m == TrueMedian(sorted))
       <==> sorted[|data| / 2] == sorted[|data| - 1]
  {
    SameElements(sorted, data);
    var n := |data|;
    if sorted[n / 2] == sorted[n - 1] {
      forall m | MayBeMedian(data, m) ensures m == TrueMedian(sorted) {
        var mid, last :| Arranged(data, mid, last) && |mid| == |last| == |data| && m == MedianFrom(mid, last);
        UpperIsTaken(data, sorted, mid, last);
      }
    } else {
      MedianMissed(data, sorted);
    }
  }

  lemma UpperIsTaken(data: seq<real>, sorted: seq<real>, mid: seq<real>, last: seq<real>)
    requires |data| > 2 && |data| % 2 == 0 && multiset(sorted) == multiset(data) && Sorted(sorted)
    requires |sorted| == |data| && sorted[|data| / 2] == sorted[|data| - 1]
    requires Arranged(data, mid, last)
    ensures |mid| == |last| == |data| && MedianFrom(mid, last) == TrueMedian(sorted)
  {
    var k, upper := |data| / 2 - 1, sorted[|data| / 2];
    EvenMedian(data, mid, last);
    SortedRank(data, sorted, k);
    SortedRank(data, sorted, k + 1);
    RankIsUnique(data, k, sorted[k], last[k]);
    SameElements(last, sorted);
    assert last[k + 1] <= upper;
    if last[k] < upper {
      UpperIsReached(data, last, k, upper);
    }
  }

  lemma SwapLater(s: seq<real>, k: nat, a: nat, b: nat) returns (t: seq<real>)
    requires Sorted(s) && k < a < b < |s|
    ensures Nth(s, k, t) && |t| == |s| && t[k] == s[k] && t[a] == s[b]
  {
    t := s[a := s[b]][b := s[a]];
    assert forall i :: 0 <= i <= k ==> t[i] == s[i];
    forall i | k < i < |t| ensures t[k] <= t[i] {
      assert t[i] == s[i] || t[i] == s[a] || t[i] == s[b];
    }
  }

  lemma MedianMissed(data: seq<real>, sorted: seq<real>)
    requires |data| > 2 && |data| % 2 == 0 && multiset(sorted) == multiset(data) && Sorted(sorted)
    requires |sorted| == |data| && sorted[|data| / 2] != sorted[|data| - 1]
    ensures exists m :: MayBeMedian(data, m) && m > TrueMedian(sorted)
  {
    hide Nth;
    var half := |data| / 2;
    assert (|data| - 1) / 2 == half - 1;
    SortedRank(data, sorted, half);
    var last := SwapLater(sorted, half - 1, half, |data| - 1);
    assert Arranged(data, sorted, last);
    assert MayBeMedian(data, MedianFrom(sorted, last));
  }
}
