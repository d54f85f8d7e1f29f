/** Stable sorting on an integer key, shared by every part of the model that calls
    `sort.SliceStable`, or `sort.Slice` on distinct keys. */
module Sorting {
  import opened Sequences

  ghost predicate SortedBy<T>(s: seq<T>, key: T -> int) {
    forall i, j :: 0 <= i < j < |s| ==> key(s[i]) <= key(s[j])
  }

  /** The elements of `s` whose key is `k`, in their order in `s`. */
  function AtKey<T>(s: seq<T>, key: T -> int, k: int): seq<T>
  {
    if s == [] then [] else
      var rest := AtKey(s[..|s| - 1], key, k);
      if key(s[|s| - 1]) == k then rest + [s[|s| - 1]] else rest
  }

  /** `s` and `t` have the same elements, and elements of equal key come in the same order:
      each is a stable rearrangement of the other. */
  ghost predicate SameOrderAtKeys<T(!new)>(s: seq<T>, t: seq<T>, key: T -> int) {
    forall k :: AtKey(s, key, k) == AtKey(t, key, k)
  }

  function Insert<T>(s: seq<T>, x: T, key: T -> int): (r: seq<T>)
    ensures |r| == |s| + 1
  {
    if s == [] || key(s[|s| - 1]) <= key(x) then s + [x]
    else Insert(s[..|s| - 1], x, key) + [s[|s| - 1]]
  }

  /** What `sort.SliceStable` with `key(a) < key(b)` leaves in the slice. */
  function StableSort<T>(s: seq<T>, key: T -> int): (r: seq<T>)
    ensures |r| == |s|
  {
    if s == [] then [] else Insert(StableSort(s[..|s| - 1], key), s[|s| - 1], key)
  }

  lemma {:induction false} InsertPermutes<T>(s: seq<T>, x: T, key: T -> int)
    ensures multiset(Insert(s, x, key)) == multiset(s) + multiset{x}
  {
    if s == [] || key(s[|s| - 1]) <= key(x) {
    } else {
      InsertPermutes(s[..|s| - 1], x, key);
      assert s == s[..|s| - 1] + [s[|s| - 1]];
    }
  }

  lemma {:induction false} StableSortPermutes<T>(s: seq<T>, key: T -> int)
    ensures multiset(StableSort(s, key)) == multiset(s)
  {
    if s != [] {
      StableSortPermutes(s[..|s| - 1], key);
      InsertPermutes(StableSort(s[..|s| - 1], key), s[|s| - 1], key);
      assert s == s[..|s| - 1] + [s[|s| - 1]];
    }
  }

  lemma StableSortMembers<T(!new)>(s: seq<T>, key: T -> int)
    ensures forall x :: x in StableSort(s, key) <==> x in s
  {
    StableSortPermutes(s, key);
    forall x ensures x in StableSort(s, key) <==> x in s {
      assert x in StableSort(s, key) <==> x in multiset(StableSort(s, key));
      assert x in s <==> x in multiset(s);
    }
  }

  lemma {:induction false} AtKeyConcat<T>(s: seq<T>, t: seq<T>, key: T -> int, k: int)
    ensures AtKey(s + t, key, k) == AtKey(s, key, k) + AtKey(t, key, k)
  {
    if t == [] {
      assert s + t == s;
    } else {
      assert (s + t)[..|s + t| - 1] == s + t[..|t| - 1];
      AtKeyConcat(s, t[..|t| - 1], key, k);
    }
  }

  lemma {:induction false} AtKeyMembers<T>(s: seq<T>, key: T -> int, k: int, x: T)
    ensures x in AtKey(s, key, k) <==> x in s && key(x) == k
  {
    if s != [] {
      AtKeyMembers(s[..|s| - 1], key, k, x);
      assert s == s[..|s| - 1] + [s[|s| - 1]];
    }
  }

  lemma {:induction false} InsertSorted<T(!new)>(s: seq<T>, x: T, key: T -> int)
    requires SortedBy(s, key)
    ensures SortedBy(Insert(s, x, key), key)
  {
    if s == [] || key(s[|s| - 1]) <= key(x) {
    } else {
      var front, last := s[..|s| - 1], s[|s| - 1];
      InsertSorted(front, x, key);
      InsertPermutes(front, x, key);
      var r := Insert(front, x, key);
      forall i | 0 <= i < |r| ensures key(r[i]) <= key(last) {
        assert r[i] in multiset(r);
        assert r[i] == x || r[i] in front;
      }
    }
  }

  lemma {:induction false} InsertStable<T(!new)>(s: seq<T>, x: T, key: T -> int, k: int)
    ensures AtKey(Insert(s, x, key), key, k) == AtKey(s + [x], key, k)
  {
    if s == [] || key(s[|s| - 1]) <= key(x) {
    } else {
      var front, last := s[..|s| - 1], s[|s| - 1];
      InsertStable(front, x, key, k);
      assert (front + [x])[..|front|] == front && (s + [x])[..|s|] == s;
      assert (Insert(front, x, key) + [last])[..|s|] == Insert(front, x, key);
    }
  }

  lemma {:induction false} StableSortSorted<T(!new)>(s: seq<T>, key: T -> int)
    ensures SortedBy(StableSort(s, key), key)
  {
    if s != [] {
      StableSortSorted(s[..|s| - 1], key);
      InsertSorted(StableSort(s[..|s| - 1], key), s[|s| - 1], key);
    }
  }

  lemma {:induction false} StableSortStable<T(!new)>(s: seq<T>, key: T -> int, k: int)
    ensures AtKey(StableSort(s, key), key, k) == AtKey(s, key, k)
  {
    if s != [] {
      var front, last := StableSort(s[..|s| - 1], key), s[|s| - 1];
      StableSortStable(s[..|s| - 1], key, k);
      InsertStable(front, last, key, k);
      assert (front + [last])[..|front|] == front;
    }
  }

  lemma SameMembers<T(!new)>(s: seq<T>, t: seq<T>, key: T -> int, x: T)
    requires SameOrderAtKeys(s, t, key)
    ensures x in s <==> x in t
  {
    AtKeyMembers(s, key, key(x), x);
    AtKeyMembers(t, key, key(x), x);
    assert AtKey(s, key, key(x)) == AtKey(t, key, key(x));
  }

  lemma LastKeysAgree<T(!new)>(s: seq<T>, t: seq<T>, key: T -> int)
    requires SortedBy(s, key) && SortedBy(t, key) && SameOrderAtKeys(s, t, key)
    requires s != [] && t != []
    ensures key(s[|s| - 1]) == key(t[|t| - 1])
  {
    var a, b := s[|s| - 1], t[|t| - 1];
    SameMembers(s, t, key, a);
    SameMembers(s, t, key, b);
    var i :| 0 <= i < |t| && t[i] == a;
    var j :| 0 <= j < |s| && s[j] == b;
  }

  lemma FrontsAgree<T(!new)>(s: seq<T>, t: seq<T>, key: T -> int)
    requires s != [] && t != [] && SameOrderAtKeys(s, t, key)
    requires key(s[|s| - 1]) == key(t[|t| - 1])
    ensures s[|s| - 1] == t[|t| - 1]
    ensures SameOrderAtKeys(s[..|s| - 1], t[..|t| - 1], key)
  {
    var sf, tf := s[..|s| - 1], t[..|t| - 1];
    forall k
      ensures s[|s| - 1] == t[|t| - 1]
      ensures AtKey(sf, key, k) == AtKey(tf, key, k)
    {
      var m := key(s[|s| - 1]);
      assert AtKey(s, key, m) == AtKey(sf, key, m) + [s[|s| - 1]];
      assert AtKey(t, key, m) == AtKey(tf, key, m) + [t[|t| - 1]];
      assert AtKey(s, key, m) == AtKey(t, key, m) && AtKey(s, key, k) == AtKey(t, key, k);
      var n := |AtKey(s, key, m)| - 1;
      assert AtKey(s, key, m)[n] == s[|s| - 1] && AtKey(t, key, m)[n] == t[|t| - 1];
      assert AtKey(sf, key, m) == AtKey(s, key, m)[..n] && AtKey(tf, key, m) == AtKey(t, key, m)[..n];
    }
    assert forall k :: AtKey(sf, key, k) == AtKey(tf, key, k) && s[|s| - 1] == t[|t| - 1];
    assert AtKey(sf, key, 0) == AtKey(tf, key, 0);
  }

  /** A sorted stable rearrangement is unique. */
  lemma {:induction false} SortedUnique<T(!new)>(s: seq<T>, t: seq<T>, key: T -> int)
    requires SortedBy(s, key) && SortedBy(t, key)
    requires SameOrderAtKeys(s, t, key)
    ensures s == t
    decreases |s|
  {
    if s == [] {
      if t != [] {
        SameMembers(s, t, key, t[0]);
        assert false;
      }
    } else {
      var last := s[|s| - 1];
      SameMembers(s, t, key, last);
      LastKeysAgree(s, t, key);
      FrontsAgree(s, t, key);
      SortedUnique(s[..|s| - 1], t[..|t| - 1], key);
      assert s == s[..|s| - 1] + [last] && t == t[..|t| - 1] + [last];
    }
  }

  /** `StableSort` is the only sorted stable rearrangement of its argument. */
  lemma IsStableSort<T(!new)>(s: seq<T>, t: seq<T>, key: T -> int)
    requires SortedBy(t, key) && SameOrderAtKeys(t, s, key)
    ensures t == StableSort(s, key)
  {
    StableSortSorted(s, key);
    forall k ensures AtKey(t, key, k) == AtKey(StableSort(s, key), key, k) {
      StableSortStable(s, key, k);
    }
    SortedUnique(t, StableSort(s, key), key);
  }

  lemma SortedIsFixed<T(!new)>(s: seq<T>, key: T -> int)
    requires SortedBy(s, key)
    ensures StableSort(s, key) == s
  {
    IsStableSort(s, s, key);
  }

  lemma SortedConcat<T(!new)>(s: seq<T>, t: seq<T>, key: T -> int)
    ensures SortedBy(s + t, key) <==>
            SortedBy(s, key) && SortedBy(t, key) && (forall x, y :: x in s && y in t ==> key(x) <= key(y))
  {
    if SortedBy(s + t, key) {
      forall i, j | 0 <= i < j < |s| ensures key(s[i]) <= key(s[j]) {
        assert (s + t)[i] == s[i] && (s + t)[j] == s[j];
      }
      forall i, j | 0 <= i < j < |t| ensures key(t[i]) <= key(t[j]) {
        assert (s + t)[|s| + i] == t[i] && (s + t)[|s| + j] == t[j];
      }
      forall x, y | x in s && y in t ensures key(x) <= key(y) {
        var i :| 0 <= i < |s| && s[i] == x;
        var j :| 0 <= j < |t| && t[j] == y;
        assert (s + t)[i] == x && (s + t)[|s| + j] == y;
      }
    }
  }

  /** Any tail of a sorted sequence is left alone by a later sort. */
  lemma TailIsFixed<T(!new)>(s: seq<T>, n: nat, key: T -> int)
    requires SortedBy(s, key) && n <= |s|
    ensures StableSort(s[n..], key) == s[n..]
  {
    assert s == s[..n] + s[n..];
    SortedConcat(s[..n], s[n..], key);
    SortedIsFixed(s[n..], key);
  }

  ghost predicate DistinctKeys<T>(s: seq<T>, key: T -> int) {
    forall i, j :: 0 <= i < j < |s| ==> key(s[i]) != key(s[j])
  }

  ghost predicate StrictlySortedBy<T>(s: seq<T>, key: T -> int) {
    forall i, j :: 0 <= i < j < |s| ==> key(s[i]) < key(s[j])
  }

  /** Sorting on distinct keys is strict, so `sort.Slice` and `sort.SliceStable` agree on it. */
  lemma DistinctSortIsStrict<T(!new)>(s: seq<T>, key: T -> int)
    requires DistinctKeys(s, key)
    ensures StrictlySortedBy(StableSort(s, key), key)
    ensures forall x :: x in StableSort(s, key) <==> x in s
  {
    var sorted := StableSort(s, key);
    StableSortSorted(s, key);
    StableSortMembers(s, key);
    StableSortPermutes(s, key);
    forall i, j | 0 <= i < j < |sorted| ensures key(sorted[i]) < key(sorted[j]) {
      if key(sorted[i]) == key(sorted[j]) {
        KeysIdentify(s, sorted[i], sorted[j], key);
        Twice(sorted, i, j);
        assert Distinct(s);
        OnlyOnce(s, sorted[i]);
        assert false;
      }
    }
  }

  lemma KeysIdentify<T>(s: seq<T>, x: T, y: T, key: T -> int)
    requires DistinctKeys(s, key) && x in s && y in s && key(x) == key(y)
    ensures x == y
  {
    var i :| 0 <= i < |s| && s[i] == x;
    var j :| 0 <= j < |s| && s[j] == y;
  }
}
