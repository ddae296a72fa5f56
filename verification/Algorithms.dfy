/** The library algorithms that the source applies to its sorted vectors. */
module Algorithms {

  /** Where `find_if_not`, and on sorted ranges the bound searches, stop. */
  function PartitionPoint<T>(s: seq<T>, before: T -> bool): (i: nat)
    ensures i <= |s| && (forall j :: 0 <= j < i ==> before(s[j]))
    ensures i < |s| ==> !before(s[i])
  {
    if s == [] || !before(s[0]) then 0 else 1 + PartitionPoint(s[1..], before)
  }

  /** `erase(remove_if(...))`. */
  function RemoveIf<T(!new)>(s: seq<T>, drop: T -> bool): (r: seq<T>)
    ensures forall x :: x in r <==> x in s && !drop(x)
  {
    if s == [] then [] else
      var rest := RemoveIf(s[1..], drop);
      if drop(s[0]) then rest else [s[0]] + rest
  }

  function InsertAt<T>(s: seq<T>, i: nat, x: T): seq<T>
    requires i <= |s|
  {
    s[..i] + [x] + s[i..]
  }

  function EraseAt<T>(s: seq<T>, i: nat): seq<T>
    requires i < |s|
  {
    s[..i] + s[i + 1..]
  }

  lemma InsertedElement<T>(s: seq<T>, i: nat, x: T, j: nat)
    requires i <= |s| && j <= |s|
    ensures InsertAt(s, i, x)[j] == if j < i then s[j] else if j == i then x else s[j - 1]
  {
  }

  lemma ErasedElement<T>(s: seq<T>, i: nat, j: nat)
    requires i < |s| && j < |s| - 1
    ensures EraseAt(s, i)[j] == if j < i then s[j] else s[j + 1]
  {
  }

  /** `std::unique`: how many runs of equal neighbours there are. */
  function UniqueCount(s: seq<nat>): nat {
    if |s| == 0 then 0
    else UniqueCount(s[..|s| - 1]) + (if |s| == 1 || s[|s| - 1] != s[|s| - 2] then 1 else 0)
  }

  function Elements(s: seq<nat>): set<nat> { set x | x in s }

  /** In a sorted sequence the runs are the distinct values. */
  lemma {:induction false} UniqueCountIsCardinality(s: seq<nat>)
    requires forall i, j :: 0 <= i < j < |s| ==> s[i] <= s[j]
    ensures UniqueCount(s) == |Elements(s)|
  {
    if |s| == 0 {
      assert Elements(s) == {};
    } else {
      UniqueCountIsCardinality(s[..|s| - 1]);
      ElementsStep(s);
    }
  }

  lemma ElementsStep(s: seq<nat>)
    requires |s| > 0 && forall i, j :: 0 <= i < j < |s| ==> s[i] <= s[j]
    ensures var n := |s| - 1;
            |Elements(s)| == |Elements(s[..n])| + (if n == 0 || s[n] != s[n - 1] then 1 else 0)
  {
    var n := |s| - 1;
    var before := Elements(s[..n]);
    assert s == s[..n] + [s[n]];
    assert Elements(s) == before + {s[n]};
    if n > 0 && s[n] == s[n - 1] {
      assert s[..n][n - 1] in before;
      assert before + {s[n]} == before;
    } else {
      forall i | 0 <= i < n ensures s[..n][i] < s[n] { assert i == n - 1 || s[i] <= s[n - 1]; }
      assert s[n] !in s[..n];
    }
  }
}
