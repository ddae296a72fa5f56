/** Vectors kept in order and read as maps: what inserting, replacing and erasing an element
    does to the order and to the map.  The key and the value of an element, and the order,
    are parameters. */
module SortedVectors {
  import opened Algorithms

  ghost predicate IsSorted<T(!new)>(s: seq<T>, before: (T, T) -> bool) {
    forall i, j :: 0 <= i < j < |s| ==> before(s[i], s[j])
  }

  ghost predicate HasDistinctKeys<T(!new), K(!new)>(s: seq<T>, key: T -> K) {
    forall i, j :: 0 <= i < j < |s| ==> key(s[i]) != key(s[j])
  }

  /** What the vector says: the value of each key. */
  ghost function MapOf<T, K, V>(s: seq<T>, key: T -> K, value: T -> V): map<K, V> {
    if s == [] then map[] else MapOf(s[1..], key, value)[key(s[0]) := value(s[0])]
  }

  lemma {:induction false} MapHas<T(!new), K, V>(s: seq<T>, key: T -> K, value: T -> V, k: K)
    ensures k in MapOf(s, key, value) <==> exists i :: 0 <= i < |s| && key(s[i]) == k
  {
    if s != [] {
      MapHas(s[1..], key, value, k);
      if i :| 0 <= i < |s| && key(s[i]) == k && i > 0 { assert key(s[1..][i - 1]) == k; }
    }
  }

  lemma {:induction false} MapAt<T(!new), K(!new), V>(s: seq<T>, key: T -> K, value: T -> V, i: nat)
    requires HasDistinctKeys(s, key) && i < |s|
    ensures key(s[i]) in MapOf(s, key, value) && MapOf(s, key, value)[key(s[i])] == value(s[i])
  {
    if i > 0 {
      assert s[1..][i - 1] == s[i];
      MapAt(s[1..], key, value, i - 1);
    }
  }

  lemma {:induction false} InsertInMap<T(!new), K(!new), V>(s: seq<T>, key: T -> K, value: T -> V, i: nat, x: T)
    requires i <= |s| && forall j :: 0 <= j < |s| ==> key(s[j]) != key(x)
    ensures MapOf(InsertAt(s, i, x), key, value) == MapOf(s, key, value)[key(x) := value(x)]
  {
    var r := InsertAt(s, i, x);
    if i == 0 {
      assert r[0] == x && r[1..] == s;
    } else {
      assert r[0] == s[0] && r[1..] == InsertAt(s[1..], i - 1, x);
      InsertInMap(s[1..], key, value, i - 1, x);
    }
  }

  lemma {:induction false} ReplaceInMap<T(!new), K(!new), V>(s: seq<T>, key: T -> K, value: T -> V, i: nat, x: T)
    requires HasDistinctKeys(s, key) && i < |s| && key(s[i]) == key(x)
    ensures MapOf(s[i := x], key, value) == MapOf(s, key, value)[key(x) := value(x)]
  {
    if i > 0 {
      assert s[i := x][1..] == s[1..][i - 1 := x];
      ReplaceInMap(s[1..], key, value, i - 1, x);
    }
  }

  lemma {:induction false} EraseFromMap<T(!new), K(!new), V>(s: seq<T>, key: T -> K, value: T -> V, i: nat)
    requires HasDistinctKeys(s, key) && i < |s|
    ensures MapOf(EraseAt(s, i), key, value) == MapOf(s, key, value) - {key(s[i])}
  {
    var r := EraseAt(s, i);
    if i == 0 {
      assert r == s[1..];
      MapHas(s[1..], key, value, key(s[0]));
    } else {
      assert r[0] == s[0] && r[1..] == EraseAt(s[1..], i - 1);
      EraseFromMap(s[1..], key, value, i - 1);
    }
  }

  lemma InsertSorted<T(!new)>(s: seq<T>, before: (T, T) -> bool, i: nat, x: T)
    requires IsSorted(s, before) && i <= |s|
    requires forall j :: 0 <= j < i ==> before(s[j], x)
    requires forall j :: i <= j < |s| ==> before(x, s[j])
    ensures IsSorted(InsertAt(s, i, x), before)
  {
    forall j, k | 0 <= j < k <= |s| ensures before(InsertAt(s, i, x)[j], InsertAt(s, i, x)[k]) {
      InsertedElement(s, i, x, j);
      InsertedElement(s, i, x, k);
    }
  }

  lemma EraseSorted<T(!new)>(s: seq<T>, before: (T, T) -> bool, i: nat)
    requires IsSorted(s, before) && i < |s|
    ensures IsSorted(EraseAt(s, i), before)
  {
    forall j, k | 0 <= j < k < |s| - 1 ensures before(EraseAt(s, i)[j], EraseAt(s, i)[k]) {
      ErasedElement(s, i, j);
      ErasedElement(s, i, k);
    }
  }

  lemma {:induction false} RemoveSorted<T(!new)>(s: seq<T>, before: (T, T) -> bool, drop: T -> bool)
    requires IsSorted(s, before)
    ensures IsSorted(RemoveIf(s, drop), before)
  {
    if s != [] {
      var rest := RemoveIf(s[1..], drop);
      RemoveSorted(s[1..], before, drop);
      if !drop(s[0]) {
        forall j | 0 <= j < |rest| ensures before(s[0], rest[j]) {
          assert rest[j] in rest && rest[j] in s[1..];
        }
        assert RemoveIf(s, drop) == [s[0]] + rest;
      }
    }
  }
}
