/** Reading batches from the newest to the oldest until a limit is reached: when the records kept
    suffice for the newest `k`, in terms of the batches alone. */
module BatchScan {
  import opened Sequences
  import opened Sorting
  import opened AuditQuery

  // ---------- suffices ----------

  function Newer(s: seq<Rec>, ns: int): set<Rec> {
    set x | x in s && x.ns >= ns
  }

  /** `s` may miss a record only if it holds at least `k` records as new as that one. */
  ghost predicate Suffices(s: seq<Rec>, f: set<Rec>, k: nat) {
    && (forall x :: x in s ==> x in f)
    && (forall u :: u in f && u !in s ==> |Newer(s, u.ns)| >= k)
  }

  lemma SortedNewestFirst(s: seq<Rec>)
    ensures NewestFirstOrder(StableSort(s, NewestFirst))
    ensures forall x :: x in StableSort(s, NewestFirst) <==> x in s
  {
    var t := StableSort(s, NewestFirst);
    StableSortSorted(s, NewestFirst);
    forall i, j | 0 <= i < j < |t| ensures t[i].ns >= t[j].ns {
      assert NewestFirst(t[i]) <= NewestFirst(t[j]);
    }
    StableSortMembers(s, NewestFirst);
  }

  // ---------- batches, oldest first ----------

  /** All records, the newest batch first. */
  function Flat(batches: seq<seq<Rec>>): seq<Rec> {
    if batches == [] then [] else batches[|batches| - 1] + Flat(batches[..|batches| - 1])
  }

  /** Whole batches, the newest first, until `limit` records are kept; `limit <= 0` takes all. */
  function Cut(batches: seq<seq<Rec>>, limit: int, kept: nat): seq<Rec> {
    if batches == [] || (limit > 0 && kept >= limit) then [] else
      var xs := batches[|batches| - 1];
      xs + Cut(batches[..|batches| - 1], limit, kept + |xs|)
  }

  /** The newest of what was taken, at most `limit`. */
  function Read(batches: seq<seq<Rec>>, limit: int): seq<Rec> {
    CapSlice(StableSort(Cut(batches, limit, 0), NewestFirst), limit)
  }

  lemma {:induction false} FlatSplit(batches: seq<seq<Rec>>, m: nat)
    requires m <= |batches|
    ensures Flat(batches) == Flat(batches[m..]) + Flat(batches[..m])
  {
    if m < |batches| {
      var front := batches[..|batches| - 1];
      FlatSplit(front, m);
      assert front[m..] == batches[m..][..|batches[m..]| - 1] && front[..m] == batches[..m];
    } else {
      assert batches[..m] == batches;
    }
  }

  lemma FlatFrom(batches: seq<seq<Rec>>, m: nat)
    requires m < |batches|
    ensures Flat(batches[m..]) == Flat(batches[m + 1..]) + batches[m]
  {
    FlatSplit(batches[m..], 1);
    assert batches[m..][1..] == batches[m + 1..];
    assert batches[m..][..1] == [batches[m]];
    assert Flat([batches[m]]) == batches[m] + [];
  }

  lemma {:induction false} FlatHas(batches: seq<seq<Rec>>, x: Rec)
    ensures x in Flat(batches) <==> exists i :: 0 <= i < |batches| && x in batches[i]
  {
    if batches != [] {
      var front := batches[..|batches| - 1];
      FlatHas(front, x);
      if x in Flat(front) {
        var i :| 0 <= i < |front| && x in front[i];
        assert x in batches[i];
      }
      if i :| 0 <= i < |batches| && x in batches[i] {
        assert i < |front| ==> x in front[i];
      }
    }
  }

  /** Records in the batches from `m` on. */
  lemma FromHas(batches: seq<seq<Rec>>, m: nat, x: Rec)
    requires m <= |batches|
    ensures x in Flat(batches[m..]) <==> exists i :: m <= i < |batches| && x in batches[i]
  {
    var tail := batches[m..];
    FlatHas(tail, x);
    if i :| 0 <= i < |tail| && x in tail[i] {
      assert x in batches[m + i];
    }
    if i :| m <= i < |batches| && x in batches[i] {
      assert x in tail[i - m];
    }
  }

  // ---------- where the scan stops ----------

  /** With this limit the scan ends after the batch `m`. */
  predicate StopsAt(batches: seq<seq<Rec>>, limit: int, m: nat)
    requires m <= |batches|
  {
    && (m > 0 ==> 0 < limit <= |Flat(batches[m..])|)
    && (m < |batches| ==> limit <= 0 || |Flat(batches[m + 1..])| < limit)
  }

  lemma FlatShrinks(batches: seq<seq<Rec>>, m: nat, n: nat)
    requires m <= n <= |batches|
    ensures |Flat(batches[n..])| <= |Flat(batches[m..])|
  {
    FlatSplit(batches[m..], n - m);
    assert batches[m..][n - m..] == batches[n..];
  }

  lemma {:induction false} CutFrom(batches: seq<seq<Rec>>, limit: int, m: nat, n: nat)
    requires m <= n <= |batches| && StopsAt(batches, limit, m)
    ensures Flat(batches[n..]) + Cut(batches[..n], limit, |Flat(batches[n..])|) == Flat(batches[m..])
    decreases n
  {
    hide Flat;
    if n == m {
      assert m > 0 ==> Cut(batches[..n], limit, |Flat(batches[n..])|) == [];
    } else {
      FlatShrinks(batches, m + 1, n);
      FlatFrom(batches, n - 1);
      assert batches[..n][..n - 1] == batches[..n - 1];
      CutFrom(batches, limit, m, n - 1);
    }
  }

  lemma CutIs(batches: seq<seq<Rec>>, limit: int, m: nat)
    requires m <= |batches| && StopsAt(batches, limit, m)
    ensures Cut(batches, limit, 0) == Flat(batches[m..])
  {
    CutFrom(batches, limit, m, |batches|);
    assert batches[..|batches|] == batches;
  }

  lemma {:induction false} Stops(batches: seq<seq<Rec>>, limit: int, n: nat) returns (m: nat)
    requires n <= |batches| && (n < |batches| ==> limit <= 0 || |Flat(batches[n + 1..])| < limit)
    ensures m <= n && StopsAt(batches, limit, m)
    decreases n
  {
    if n == 0 || 0 < limit <= |Flat(batches[n..])| {
      m := n;
    } else {
      m := Stops(batches, limit, n - 1);
    }
  }

  // ---------- when what was read suffices ----------

  /** A batch holds nothing older than what earlier batches hold, unless it or a later one
      repeats that. */
  ghost predicate Ordered(batches: seq<seq<Rec>>) {
    forall i, j, x, y :: 0 <= i < j < |batches| && x in batches[i] && y in batches[j] ==>
      x.ns <= y.ns || x in Flat(batches[j..])
  }

  /** What comes before the first `u`; everything if there is none. */
  function UpTo(s: seq<Rec>, u: Rec): (t: seq<Rec>)
    ensures t <= s && u !in t
    ensures |t| < |s| ==> s[|t|] == u
  {
    if s == [] || s[0] == u then [] else
      assert s == [s[0]] + s[1..];
      [s[0]] + UpTo(s[1..], u)
  }

  /** The copies that come before `u` once the batches from `m` on are sorted newest first. */
  function Before(batches: seq<seq<Rec>>, m: nat, u: Rec): seq<Rec>
    requires m <= |batches|
  {
    UpTo(StableSort(Flat(batches[m..]), NewestFirst), u)
  }

  /** Repeated copies in the batches from `m` on never push out `u`: those before it repeat no
      record, or are no more than the copies that the batches after `m` hold already. */
  ghost predicate Uncrowded(batches: seq<seq<Rec>>) {
    forall m, u :: 0 <= m < |batches| && u in Flat(batches) ==>
      Distinct(Before(batches, m, u)) || |Before(batches, m, u)| <= |Flat(batches[m + 1..])|
  }

  /** What is missed is no newer than anything returned, and only once the answer is full. */
  ghost predicate MissesOlder(s: seq<Rec>, f: set<Rec>, limit: int) {
    && (forall x :: x in s ==> x in f)
    && (limit > 0 ==> |s| <= limit)
    && (forall u :: u in f && u !in s ==> 0 < limit == |s| && forall x :: x in s ==> x.ns >= u.ns)
  }

  lemma ReadIs(batches: seq<seq<Rec>>, limit: int, m: nat)
    requires m <= |batches| && StopsAt(batches, limit, m)
    ensures var s := StableSort(Flat(batches[m..]), NewestFirst);
            && Read(batches, limit) == CapSlice(s, limit) && NewestFirstOrder(s)
            && (forall x :: x in s <==> x in Flat(batches[m..]))
  {
    CutIs(batches, limit, m);
    SortedNewestFirst(Flat(batches[m..]));
  }

  /** In order, whatever the scan has not reached is no newer than what it has. */
  lemma UnreadIsOlder(batches: seq<seq<Rec>>, m: nat, u: Rec, x: Rec)
    requires Ordered(batches) && m <= |batches|
    requires u in Flat(batches) && u !in Flat(batches[m..]) && x in Flat(batches[m..])
    ensures u.ns <= x.ns
  {
    FlatHas(batches, u);
    FromHas(batches, m, x);
    FromHas(batches, m, u);
    var i :| 0 <= i < |batches| && u in batches[i];
    var j :| m <= j < |batches| && x in batches[j];
    FromHas(batches, j, u);
  }

  lemma ReadMissesOlder(batches: seq<seq<Rec>>, limit: int)
    requires Ordered(batches)
    ensures MissesOlder(Read(batches, limit), Elements(Flat(batches)), limit)
  {
    hide Ordered, Flat, StopsAt, Read;
    var m := Stop(batches, limit);
    ReadIs(batches, limit, m);
    var all, s := Flat(batches[m..]), StableSort(Flat(batches[m..]), NewestFirst);
    var read := Read(batches, limit);
    FlatSplit(batches, m);
    forall u | u in Flat(batches) && u !in read ensures 0 < limit == |read| && forall x :: x in read ==> x.ns >= u.ns {
      if u in all {
        var i :| 0 <= i < |s| && s[i] == u;
      } else {
        UnreachedMeansFull(batches, limit, m, u);
        forall x | x in read ensures x.ns >= u.ns {
          assert x in s;
          UnreadIsOlder(batches, m, u, x);
        }
      }
    }
  }

  lemma Stop(batches: seq<seq<Rec>>, limit: int) returns (m: nat)
    ensures m <= |batches| && StopsAt(batches, limit, m)
  {
    m := Stops(batches, limit, |batches|);
  }

  lemma UnreachedMeansFull(batches: seq<seq<Rec>>, limit: int, m: nat, u: Rec)
    requires m <= |batches| && StopsAt(batches, limit, m)
    requires u in Flat(batches) && u !in Flat(batches[m..])
    ensures 0 < limit <= |Flat(batches[m..])|
  {
    assert batches[0..] == batches;
  }

  /** A limit at which the scan stops right after the batch `m`. */
  lemma StopsAfter(batches: seq<seq<Rec>>, m: nat, k: nat)
    requires m < |batches| && |Flat(batches[m + 1..])| < k <= |Flat(batches[m..])|
    ensures StopsAt(batches, k, m)
  {
  }

  lemma {:induction false} ElementsCount(s: seq<Rec>)
    ensures |Elements(s)| <= |s| && (|Elements(s)| == |s| <==> Distinct(s))
  {
    if s == [] {
      assert Elements(s) == {};
    } else {
      var front, last := s[..|s| - 1], s[|s| - 1];
      ElementsCount(front);
      assert s == front + [last];
      assert Elements(s) == Elements(front) + {last};
      if Distinct(s) {
        DistinctCount(s);
      } else if last !in front {
        DistinctFront(s);
      }
    }
  }

  lemma DistinctFront(s: seq<Rec>)
    requires s != [] && s[|s| - 1] !in s[..|s| - 1] && !Distinct(s)
    ensures !Distinct(s[..|s| - 1])
  {
    var i, j :| 0 <= i < j < |s| && s[i] == s[j];
    var front := s[..|s| - 1];
    assert front[i] == s[i];
    assert j < |s| - 1;
    assert front[j] == s[j];
  }

  /** A full answer that lacks something newer than a record it holds falls short of its limit. */
  lemma FallsShort(s: seq<Rec>, ns: int, k: nat)
    requires |s| <= k && (!Distinct(s) || exists x :: x in s && x.ns < ns)
    ensures |Newer(s, ns)| < k
  {
    ElementsCount(s);
    if x :| x in s && x.ns < ns {
      assert Newer(s, ns) <= Elements(s) - {x} && x in Elements(s);
      SubsetCount(Newer(s, ns), Elements(s) - {x});
    } else {
      SubsetCount(Newer(s, ns), Elements(s));
    }
  }

  /** With a limit, an answer suffices exactly when what it misses is no newer and, if it misses
      anything, it repeats nothing. */
  lemma SufficesIff(s: seq<Rec>, f: set<Rec>, k: nat)
    requires 0 < k && |s| <= k
    ensures Suffices(s, f, k) <==> MissesOlder(s, f, k) && (Distinct(s) || forall u :: u in f ==> u in s)
  {
    forall u | u in f && u !in s
      ensures |Newer(s, u.ns)| >= k <==> |s| == k && Distinct(s) && forall x :: x in s ==> x.ns >= u.ns
    {
      if |s| == k && Distinct(s) && forall x :: x in s ==> x.ns >= u.ns {
        DistinctCount(s);
        assert Newer(s, u.ns) == Elements(s);
      } else if |s| == k {
        FallsShort(s, u.ns, k);
      } else {
        ElementsCount(s);
        SubsetCount(Newer(s, u.ns), Elements(s));
      }
    }
  }

  lemma NotFrom(batches: seq<seq<Rec>>, j: nat, x: Rec, y: Rec)
    requires j < |batches| && y in batches[j] && x.ns > y.ns && x in Flat(batches) && x !in Flat(batches[j..])
    ensures var k := |Flat(batches[j..])|;
            0 < k && !MissesOlder(Read(batches, k), Elements(Flat(batches)), k)
  {
    hide Flat, Read, StopsAt;
    FlatFrom(batches, j);
    var k, s := |Flat(batches[j..])|, StableSort(Flat(batches[j..]), NewestFirst);
    StopsAfter(batches, j, k);
    ReadIs(batches, k, j);
    assert y in s && x !in s;
  }

  /** For which batches the read misses only older records, whatever its limit. */
  lemma MissesOlderIffOrdered(batches: seq<seq<Rec>>)
    ensures (forall limit :: MissesOlder(Read(batches, limit), Elements(Flat(batches)), limit)) <==> Ordered(batches)
  {
    hide MissesOlder, Read, Flat;
    if Ordered(batches) {
      forall limit ensures MissesOlder(Read(batches, limit), Elements(Flat(batches)), limit) {
        ReadMissesOlder(batches, limit);
      }
    } else {
      var i, j, x, y :| 0 <= i < j < |batches| && x in batches[i] && y in batches[j] && x.ns > y.ns &&
                        x !in Flat(batches[j..]);
      FlatHas(batches, x);
      NotFrom(batches, j, x, y);
      assert !MissesOlder(Read(batches, |Flat(batches[j..])|), Elements(Flat(batches)), |Flat(batches[j..])|);
    }
  }

  lemma PrefixDistinct(s: seq<Rec>, t: seq<Rec>)
    requires s <= t && Distinct(t)
    ensures Distinct(s)
  {
  }

  /** A cut that leaves out `u` ends before its first copy. */
  lemma CutBefore(s: seq<Rec>, k: nat, u: Rec)
    requires 0 < k <= |s|
    ensures u !in CapSlice(s, k) <==> CapSlice(s, k) <= UpTo(s, u)
  {
    var t := UpTo(s, u);
    if k > |t| {
      assert CapSlice(s, k)[|t|] == u;
    } else {
      assert CapSlice(s, k) == t[..k];
    }
  }

  lemma UncrowdedSuffices(batches: seq<seq<Rec>>, k: nat)
    requires 0 < k && Ordered(batches) && Uncrowded(batches)
    ensures Suffices(Read(batches, k), Elements(Flat(batches)), k)
  {
    hide Ordered, Flat, StopsAt, Read, Suffices, UpTo;
    ReadMissesOlder(batches, k);
    var m := Stop(batches, k);
    var read := Read(batches, k);
    ReadIs(batches, k, m);
    var s := StableSort(Flat(batches[m..]), NewestFirst);
    if u :| u in Flat(batches) && u !in read {
      assert read == CapSlice(s, k) && |read| == k;
      CutBefore(s, k, u);
      NotAllBefore(batches, k, m, u);
      PrefixDistinct(read, Before(batches, m, u));
    }
    SufficesIff(read, Elements(Flat(batches)), k);
  }

  lemma NotAllBefore(batches: seq<seq<Rec>>, k: nat, m: nat, u: Rec)
    requires 0 < k && m <= |batches| && StopsAt(batches, k, m) && Uncrowded(batches)
    requires u in Flat(batches) && k <= |Before(batches, m, u)|
    ensures Distinct(Before(batches, m, u))
  {
    hide UpTo;
    assert batches[|batches|..] == [];
  }

  lemma CrowdedFails(batches: seq<seq<Rec>>, m: nat, u: Rec)
    requires m < |batches| && u in Flat(batches) && !Distinct(Before(batches, m, u))
    requires |Before(batches, m, u)| > |Flat(batches[m + 1..])|
    ensures var k := |Before(batches, m, u)|;
            0 < k && !Suffices(Read(batches, k), Elements(Flat(batches)), k)
  {
    hide Flat, Read, StopsAt, Suffices, UpTo;
    var k, s := |Before(batches, m, u)|, StableSort(Flat(batches[m..]), NewestFirst);
    StopsAfter(batches, m, k);
    ReadIs(batches, k, m);
    assert CapSlice(s, k) == Before(batches, m, u);
    SufficesIff(Read(batches, k), Elements(Flat(batches)), k);
  }

  /** For which batches the read suffices, whatever its limit. */
  lemma SufficesIffUncrowded(batches: seq<seq<Rec>>)
    ensures (forall k: nat :: 0 < k ==> Suffices(Read(batches, k), Elements(Flat(batches)), k))
            <==> Ordered(batches) && Uncrowded(batches)
  {
    hide Ordered, Flat, Read, Suffices, MissesOlder, Before;
    if Ordered(batches) && Uncrowded(batches) {
      forall k: nat | 0 < k ensures Suffices(Read(batches, k), Elements(Flat(batches)), k) {
        UncrowdedSuffices(batches, k);
      }
    } else if !Ordered(batches) {
      OutOfOrderFails(batches);
    } else {
      var m, u :| 0 <= m < |batches| && u in Flat(batches) &&
        !Distinct(Before(batches, m, u)) && |Before(batches, m, u)| > |Flat(batches[m + 1..])|;
      CrowdedFails(batches, m, u);
    }
  }

  lemma OutOfOrderFails(batches: seq<seq<Rec>>)
    requires !Ordered(batches)
    ensures exists k: nat :: 0 < k && !Suffices(Read(batches, k), Elements(Flat(batches)), k)
  {
    hide Flat, Read, Suffices, MissesOlder;
    var i, j, x, y :| 0 <= i < j < |batches| && x in batches[i] && y in batches[j] && x.ns > y.ns &&
                      x !in Flat(batches[j..]);
    FlatHas(batches, x);
    NotFrom(batches, j, x, y);
    var k := |Flat(batches[j..])|;
    ReadFits(batches, k);
    SufficesIff(Read(batches, k), Elements(Flat(batches)), k);
  }

  lemma ReadFits(batches: seq<seq<Rec>>, k: nat)
    requires 0 < k
    ensures |Read(batches, k)| <= k
  {
  }

  // ---------- simple cases ----------

  /** Without a limit everything is read. */
  lemma UnlimitedSuffices(batches: seq<seq<Rec>>, limit: int, k: nat)
    requires limit <= 0
    ensures Suffices(Read(batches, limit), Elements(Flat(batches)), k)
  {
    hide Flat, Read;
    assert batches[0..] == batches;
    ReadIs(batches, limit, 0);
  }

  /** If no record is there twice, nothing is crowded out. */
  lemma DistinctIsUncrowded(batches: seq<seq<Rec>>)
    requires Distinct(Flat(batches))
    ensures Uncrowded(batches)
  {
    hide Flat, UpTo;
    forall m, u | 0 <= m < |batches| && u in Flat(batches) ensures Distinct(Before(batches, m, u)) {
      FlatSplit(batches, m);
      PrefixDistinct(Flat(batches[m..]), Flat(batches));
      SortDistinct(Flat(batches[m..]));
      PrefixDistinct(Before(batches, m, u), StableSort(Flat(batches[m..]), NewestFirst));
    }
  }

  lemma SortDistinct(s: seq<Rec>)
    requires Distinct(s)
    ensures Distinct(StableSort(s, NewestFirst))
  {
    var t := StableSort(s, NewestFirst);
    StableSortPermutes(s, NewestFirst);
    forall i, j | 0 <= i < j < |t| ensures t[i] != t[j] {
      if t[i] == t[j] {
        Twice(t, i, j);
        OnlyOnce(s, t[i]);
        assert false;
      }
    }
  }
}
