/** What the stored objects must be like for the query over ring and archive to be right, however
    they are listed; and two archives for which it is not. */
module AuditObjects {
  import opened Sequences
  import opened Sorting
  import opened AuditQuery
  import opened BatchScan
  import opened AuditTopK

  // ---------- conditions on the stored objects ----------

  /** Whatever order the listing gives to equal starts: a matching record that is newer than one
      of an object listed later is held by that object too, or by one that starts after it. */
  ghost predicate ObjectsOrdered(objects: seq<Object>, filter: Rec -> bool) {
    forall o, p, x, y ::
      o in objects && p in objects && o.startMs <= p.startMs && x in o.recs && y in p.recs && filter(x) && filter(y)
      ==> x.ns <= y.ns || HeldSince(objects, p, x)
  }

  ghost predicate HeldSince(objects: seq<Object>, p: Object, x: Rec) {
    x in p.recs || exists q :: q in objects && q.startMs > p.startMs && x in q.recs
  }

  lemma MatchIsBatched(objects: seq<Object>, sinceMs: int, untilMs: int, keys: seq<Object>, filter: Rec -> bool,
        i: nat, x: Rec)
    requires ArchiveSound(objects, sinceMs, untilMs, keys, filter) && i < |keys|
    ensures x in Batches(keys, sinceMs, untilMs, filter)[i] <==> x in keys[i].recs && filter(x)
  {
    hide ArchiveSound, Batches, InWindow;
    BatchHas(keys, sinceMs, untilMs, filter, i, x);
    if x in keys[i].recs && filter(x) {
      ListedInWindow(objects, sinceMs, untilMs, keys, filter, i, x);
    }
  }

  /** The listed objects from `j` on that hold a record. */
  lemma MatchFrom(objects: seq<Object>, sinceMs: int, untilMs: int, keys: seq<Object>, filter: Rec -> bool, j: nat,
        x: Rec)
    requires ArchiveSound(objects, sinceMs, untilMs, keys, filter) && j < |keys| && filter(x)
    ensures x in Flat(Batches(keys, sinceMs, untilMs, filter)[j..]) <==>
              exists l :: j <= l < |keys| && x in keys[l].recs
  {
    hide ArchiveSound, Batches, Flat;
    var batches := Batches(keys, sinceMs, untilMs, filter);
    FromHas(batches, j, x);
    if l :| j <= l < |batches| && x in batches[l] {
      MatchIsBatched(objects, sinceMs, untilMs, keys, filter, l, x);
    }
    if l :| j <= l < |keys| && x in keys[l].recs {
      MatchIsBatched(objects, sinceMs, untilMs, keys, filter, l, x);
    }
  }

  lemma InOrderAt(objects: seq<Object>, sinceMs: int, untilMs: int, keys: seq<Object>, filter: Rec -> bool, i: nat,
        j: nat, x: Rec, y: Rec)
    requires ArchiveSound(objects, sinceMs, untilMs, keys, filter) && ObjectsOrdered(objects, filter)
    requires i < j < |keys| && x in keys[i].recs && y in keys[j].recs && filter(x) && filter(y)
    ensures x.ns <= y.ns || exists l :: j <= l < |keys| && x in keys[l].recs
  {
    ListingHas(objects, sinceMs, untilMs, keys, keys[i]);
    ListingHas(objects, sinceMs, untilMs, keys, keys[j]);
    assert keys[i].startMs <= keys[j].startMs by {
      assert StartOf(keys[i]) <= StartOf(keys[j]);
    }
    assert x.ns <= y.ns || HeldSince(objects, keys[j], x);
    hide IsListing, KeysCover, Windowed;
    if x.ns > y.ns && x !in keys[j].recs {
      var q :| q in objects && q.startMs > keys[j].startMs && x in q.recs;
      MatchIsListed(objects, sinceMs, untilMs, keys, filter, x, q);
      var l :| 0 <= l < |keys| && keys[l] == q;
      LaterStart(objects, sinceMs, untilMs, keys, j, l);
    }
  }

  lemma LaterStart(objects: seq<Object>, sinceMs: int, untilMs: int, keys: seq<Object>, j: nat, l: nat)
    requires IsListing(objects, sinceMs, untilMs, keys) && j < |keys| && l < |keys|
    requires keys[l].startMs > keys[j].startMs
    ensures j < l
  {
    assert l < j ==> StartOf(keys[l]) <= StartOf(keys[j]);
  }

  lemma ObjectsOrderedMeansOrdered(objects: seq<Object>, sinceMs: int, untilMs: int, keys: seq<Object>,
        filter: Rec -> bool)
    requires ArchiveSound(objects, sinceMs, untilMs, keys, filter) && ObjectsOrdered(objects, filter)
    ensures Ordered(Batches(keys, sinceMs, untilMs, filter))
  {
    hide ArchiveSound, Batches, ObjectsOrdered, Flat;
    var batches := Batches(keys, sinceMs, untilMs, filter);
    forall i, j, x: Rec, y: Rec | 0 <= i < j < |batches| && x in batches[i] && y in batches[j]
      ensures x.ns <= y.ns || x in Flat(batches[j..])
    {
      MatchIsBatched(objects, sinceMs, untilMs, keys, filter, i, x);
      MatchIsBatched(objects, sinceMs, untilMs, keys, filter, j, y);
      InOrderAt(objects, sinceMs, untilMs, keys, filter, i, j, x, y);
      MatchFrom(objects, sinceMs, untilMs, keys, filter, j, x);
    }
  }

  lemma WithoutOne(s: seq<Object>, i: nat)
    requires i < |s|
    ensures multiset(s[..i] + s[i + 1..]) == multiset(s) - multiset{s[i]}
  {
    assert s == s[..i] + [s[i]] + s[i + 1..];
  }

  lemma {:induction false} InsertSplits<T(!new)>(s: seq<T>, x: T, key: T -> int) returns (a: seq<T>, b: seq<T>)
    ensures s == a + b && Insert(s, x, key) == a + [x] + b
    ensures forall y :: y in b ==> key(y) > key(x)
  {
    if s == [] || key(s[|s| - 1]) <= key(x) {
      a, b := s, [];
    } else {
      a, b := InsertSplits(s[..|s| - 1], x, key);
      b := b + [s[|s| - 1]];
    }
  }

  /** A stable sort puts what came last after everything with an equal key. */
  lemma LastOfEquals<T(!new)>(s: seq<T>, x: T, key: T -> int) returns (sorted: seq<T>, j: nat)
    ensures multiset(sorted) == multiset(s) + multiset{x} && SortedBy(sorted, key)
    ensures j < |sorted| && sorted[j] == x && forall l :: j < l < |sorted| ==> key(sorted[l]) > key(x)
  {
    var t := s + [x];
    assert t[..|s|] == s;
    sorted := StableSort(t, key);
    StableSortPermutes(t, key);
    StableSortSorted(t, key);
    var a, b := InsertSplits(StableSort(s, key), x, key);
    j := |a|;
    forall l | j < l < |sorted| ensures key(sorted[l]) > key(x) {
      assert sorted[l] in b;
    }
  }

  /** Some listing puts `p` after every other object that does not start later. */
  lemma ListedLast(objects: seq<Object>, sinceMs: int, untilMs: int, p: Object) returns (keys: seq<Object>, j: nat)
    requires p in Overlapping(objects, sinceMs, untilMs)
    ensures IsListing(objects, sinceMs, untilMs, keys) && j < |keys| && keys[j] == p
    ensures forall l :: j < l < |keys| ==> keys[l].startMs > p.startMs
  {
    hide Overlapping, SortedBy;
    var all := Overlapping(objects, sinceMs, untilMs);
    var l :| 0 <= l < |all| && all[l] == p;
    WithoutOne(all, l);
    keys, j := LastOfEquals(all[..l] + all[l + 1..], p, StartOf);
    forall i | j < i < |keys| ensures keys[i].startMs > p.startMs {
      assert StartOf(keys[i]) > StartOf(p);
    }
  }

  lemma ListedInOrder(objects: seq<Object>, sinceMs: int, untilMs: int, filter: Rec -> bool, o: Object, p: Object,
        x: Rec, y: Rec)
    requires KeysCover(objects) && Windowed(filter, sinceMs, untilMs)
    requires forall keys :: IsListing(objects, sinceMs, untilMs, keys) ==>
               Ordered(Batches(keys, sinceMs, untilMs, filter))
    requires o in objects && p in objects && o.startMs <= p.startMs
    requires x in o.recs && y in p.recs && filter(x) && filter(y)
    ensures x.ns <= y.ns || HeldSince(objects, p, x)
  {
    hide Overlapping, KeysCover, Windowed, Ordered, Batches, IsListing, Flat;
    MatchOverlaps(objects, sinceMs, untilMs, filter, y, p);
    var keys, j := ListedLast(objects, sinceMs, untilMs, p);
    MatchIsListed(objects, sinceMs, untilMs, keys, filter, x, o);
    var i :| 0 <= i < |keys| && keys[i] == o;
    if o != p {
      assert i < j;
      OrderedAt(objects, sinceMs, untilMs, keys, filter, i, j, x, y);
      if l :| j <= l < |keys| && x in keys[l].recs {
        ListingHas(objects, sinceMs, untilMs, keys, keys[l]);
      }
    }
  }

  lemma MatchOverlaps(objects: seq<Object>, sinceMs: int, untilMs: int, filter: Rec -> bool, y: Rec, p: Object)
    requires KeysCover(objects) && Windowed(filter, sinceMs, untilMs) && p in objects && y in p.recs && filter(y)
    ensures p in Overlapping(objects, sinceMs, untilMs)
  {
    KeyCovers(objects, p, y);
    OverlappingHas(objects, sinceMs, untilMs);
    hide UnixMilli;
  }

  lemma OrderedAt(objects: seq<Object>, sinceMs: int, untilMs: int, keys: seq<Object>, filter: Rec -> bool, i: nat,
        j: nat, x: Rec, y: Rec)
    requires ArchiveSound(objects, sinceMs, untilMs, keys, filter) && Ordered(Batches(keys, sinceMs, untilMs, filter))
    requires i < j < |keys| && x in keys[i].recs && y in keys[j].recs && filter(x) && filter(y)
    ensures x.ns <= y.ns || exists l :: j <= l < |keys| && x in keys[l].recs
  {
    hide ArchiveSound, Batches, Flat;
    MatchIsBatched(objects, sinceMs, untilMs, keys, filter, i, x);
    MatchIsBatched(objects, sinceMs, untilMs, keys, filter, j, y);
    MatchFrom(objects, sinceMs, untilMs, keys, filter, j, x);
  }

  /** For which stored objects every listing is in order, however equal starts are sorted. */
  lemma EveryListingOrderedIff(objects: seq<Object>, sinceMs: int, untilMs: int, filter: Rec -> bool)
    requires KeysCover(objects) && Windowed(filter, sinceMs, untilMs)
    ensures (forall keys :: IsListing(objects, sinceMs, untilMs, keys) ==>
              Ordered(Batches(keys, sinceMs, untilMs, filter)))
            <==> ObjectsOrdered(objects, filter)
  {
    hide Ordered, Batches, IsListing, KeysCover, Windowed, HeldSince;
    if ObjectsOrdered(objects, filter) {
      forall keys | IsListing(objects, sinceMs, untilMs, keys)
        ensures Ordered(Batches(keys, sinceMs, untilMs, filter))
      {
        ObjectsOrderedMeansOrdered(objects, sinceMs, untilMs, keys, filter);
      }
    }
    if forall keys :: IsListing(objects, sinceMs, untilMs, keys) ==> Ordered(Batches(keys, sinceMs, untilMs, filter)) {
      forall o, p, x, y | o in objects && p in objects && o.startMs <= p.startMs && x in o.recs && y in p.recs &&
             filter(x) && filter(y)
        ensures x.ns <= y.ns || HeldSince(objects, p, x)
      {
        ListedInOrder(objects, sinceMs, untilMs, filter, o, p, x, y);
      }
    }
  }

  /** Objects whose key ranges are disjoint are in order for every filter. */
  lemma DisjointIsOrdered(objects: seq<Object>, filter: Rec -> bool)
    requires KeysCover(objects)
    requires forall o, p :: o in objects && p in objects && o != p ==> o.endMs < p.startMs || p.endMs < o.startMs
    ensures ObjectsOrdered(objects, filter)
  {
    forall o, p, x, y | o in objects && p in objects && o.startMs <= p.startMs && x in o.recs && y in p.recs && o != p
      ensures x.ns <= y.ns
    {
      KeyCovers(objects, o, x);
      KeyCovers(objects, p, y);
    }
  }

  /** No matching record is archived twice. */
  ghost predicate NoRepeats(objects: seq<Object>, filter: Rec -> bool) {
    forall x :: filter(x) ==> multiset(AllRecs(objects))[x] <= 1
  }

  lemma {:induction false} FilteredCount(s: seq<Rec>, filter: Rec -> bool)
    ensures multiset(Filtered(s, filter)) <= multiset(s)
  {
    if s != [] {
      FilteredCount(s[..|s| - 1], filter);
      assert s == s[..|s| - 1] + [s[|s| - 1]];
    }
  }

  lemma {:induction false} BatchesCount(keys: seq<Object>, sinceMs: int, untilMs: int, filter: Rec -> bool)
    ensures multiset(Flat(Batches(keys, sinceMs, untilMs, filter))) <= multiset(AllRecs(keys))
  {
    if keys != [] {
      var front, recs := keys[..|keys| - 1], keys[|keys| - 1].recs;
      var batches := Batches(keys, sinceMs, untilMs, filter);
      assert batches[..|batches| - 1] == Batches(front, sinceMs, untilMs, filter);
      BatchesCount(front, sinceMs, untilMs, filter);
      FilteredCount(recs, r => Keeps(r, sinceMs, untilMs, filter));
    }
  }

  lemma {:induction false} AllRecsWithout(objects: seq<Object>, i: nat)
    requires i < |objects|
    ensures multiset(AllRecs(objects)) == multiset(AllRecs(objects[..i] + objects[i + 1..])) + multiset(objects[i].recs)
  {
    var front, rest := objects[..|objects| - 1], objects[..i] + objects[i + 1..];
    if i < |objects| - 1 {
      AllRecsWithout(front, i);
      assert rest[..|rest| - 1] == front[..i] + front[i + 1..];
    } else {
      assert rest == front;
    }
  }

  lemma {:induction false} AllRecsAnyOrder(s: seq<Object>, t: seq<Object>)
    requires multiset(s) == multiset(t)
    ensures multiset(AllRecs(s)) == multiset(AllRecs(t))
  {
    hide AllRecs;
    assert |s| == |multiset(s)| == |multiset(t)| == |t|;
    if s != [] {
      var n := |s| - 1;
      assert s[n] in multiset(t);
      var i :| 0 <= i < |t| && t[i] == s[n];
      WithoutOne(s, n);
      WithoutOne(t, i);
      AllRecsAnyOrder(s[..n] + s[n + 1..], t[..i] + t[i + 1..]);
      AllRecsWithout(s, n);
      AllRecsWithout(t, i);
    } else {
      assert t == [];
    }
  }

  lemma {:induction false} OverlappingCount(objects: seq<Object>, sinceMs: int, untilMs: int)
    ensures multiset(AllRecs(Overlapping(objects, sinceMs, untilMs))) <= multiset(AllRecs(objects))
  {
    if objects != [] {
      OverlappingCount(objects[..|objects| - 1], sinceMs, untilMs);
    }
  }

  lemma NoRepeatsMeansDistinct(objects: seq<Object>, sinceMs: int, untilMs: int, keys: seq<Object>, filter: Rec -> bool)
    requires IsListing(objects, sinceMs, untilMs, keys) && NoRepeats(objects, filter)
    ensures Distinct(Flat(Batches(keys, sinceMs, untilMs, filter)))
  {
    hide Flat, Batches, AllRecs, Overlapping;
    var batches := Batches(keys, sinceMs, untilMs, filter);
    var all := Flat(batches);
    BatchesCount(keys, sinceMs, untilMs, filter);
    AllRecsAnyOrder(keys, Overlapping(objects, sinceMs, untilMs));
    OverlappingCount(objects, sinceMs, untilMs);
    forall i, j | 0 <= i < j < |all| ensures all[i] != all[j] {
      if all[i] == all[j] {
        Twice(all, i, j);
        FlatHas(batches, all[i]);
        var l :| 0 <= l < |batches| && all[i] in batches[l];
        BatchHas(keys, sinceMs, untilMs, filter, l, all[i]);
        assert false;
      }
    }
  }

  /** The bounded query is the top `k` of the union: for every ring in time order, every listing,
      every filter and every limit, if the stored objects are in order and no matching record is
      archived twice; and for every archive if the reader has no limit. */
  lemma QueryIsTopK(ring: seq<Rec>, objects: seq<Object>, sinceMs: int, untilMs: int, limit: int, keys: seq<Object>,
        filter: Rec -> bool)
    requires ArchiveSound(objects, sinceMs, untilMs, keys, filter) &&
             RingSound(ring, filter, MatchingIn(objects, filter))
    requires limit <= 0 || (ObjectsOrdered(objects, filter) && NoRepeats(objects, filter))
    ensures AnswersUnion(ring, objects, sinceMs, untilMs, limit, keys, filter)
  {
    hide RingSound, Batches, Archived, KeysCover, Windowed, IsListing, ObjectsOrdered, NoRepeats, Ordered, Uncrowded;
    if limit > 0 {
      ObjectsOrderedMeansOrdered(objects, sinceMs, untilMs, keys, filter);
      NoRepeatsMeansDistinct(objects, sinceMs, untilMs, keys, filter);
      DistinctIsUncrowded(Batches(keys, sinceMs, untilMs, filter));
    }
    RightForLimit(objects, sinceMs, untilMs, limit, keys, filter);
    ReaderAnswers(ring, objects, sinceMs, untilMs, limit, keys, filter);
  }

  // ---------- one record ----------

  /** Whether the reader, asked for one record, finds a newest match for every filter. */
  ghost predicate FindsNewest(objects: seq<Object>, sinceMs: int, untilMs: int, keys: seq<Object>) {
    forall filter: Rec -> bool :: Windowed(filter, sinceMs, untilMs) ==>
      Suffices(Archived(keys, sinceMs, untilMs, 1, filter), MatchingIn(objects, filter), 1)
  }

  function All(): Rec -> bool {
    r => true
  }

  lemma ReadOneOfOrdered(batches: seq<seq<Rec>>)
    requires Ordered(batches)
    ensures Suffices(Read(batches, 1), Elements(Flat(batches)), 1)
  {
    hide Ordered, Flat, Read, MissesOlder, Suffices;
    ReadMissesOlder(batches, 1);
    ReadFits(batches, 1);
    SufficesIff(Read(batches, 1), Elements(Flat(batches)), 1);
  }

  lemma StopsAtMatch(batches: seq<seq<Rec>>, j: nat, m: nat)
    requires j < |batches| && batches[j] != [] && m <= |batches| && StopsAt(batches, 1, m)
    ensures j <= m && forall x :: x in Flat(batches[m..]) ==> x in Flat(batches[j..])
  {
    hide Flat;
    FlatFrom(batches, j);
    if m < j {
      FlatShrinks(batches, m + 1, j);
    } else {
      FlatSplit(batches[j..], m - j);
      assert batches[j..][m - j..] == batches[m..];
    }
  }

  lemma ReadOneOutOfOrder(batches: seq<seq<Rec>>, j: nat, x: Rec, y: Rec)
    requires j < |batches| && y in batches[j] && x.ns > y.ns
    requires forall z :: z in Flat(batches) ==> z == x || z == y
    requires x in Flat(batches) && x !in Flat(batches[j..])
    ensures !Suffices(Read(batches, 1), Elements(Flat(batches)), 1)
  {
    hide Flat, Read, StopsAt, StableSort;
    var m := Stop(batches, 1);
    StopsAtMatch(batches, j, m);
    ReadIs(batches, 1, m);
    FlatSplit(batches, m);
    forall z | z in Read(batches, 1) ensures z == y {
      assert z in StableSort(Flat(batches[m..]), NewestFirst);
      assert z in Flat(batches[m..]) + Flat(batches[..m]);
      assert z != x;
    }
    OnlyOlder(Read(batches, 1), Elements(Flat(batches)), x, y);
  }

  lemma OnlyOlder(read: seq<Rec>, f: set<Rec>, x: Rec, y: Rec)
    requires x in f && x !in read && x.ns > y.ns && forall z :: z in read ==> z == y
    ensures !Suffices(read, f, 1)
  {
    assert Newer(read, x.ns) == {};
  }

  lemma FilterBatchHas(keys: seq<Object>, sinceMs: int, untilMs: int, filter: Rec -> bool, i: nat, x: Rec)
    requires i < |keys|
    ensures x in Batches(keys, sinceMs, untilMs, filter)[i] <==>
              x in Batches(keys, sinceMs, untilMs, All())[i] && filter(x)
  {
    BatchHas(keys, sinceMs, untilMs, filter, i, x);
    BatchHas(keys, sinceMs, untilMs, All(), i, x);
  }

  lemma FilterFromHas(keys: seq<Object>, sinceMs: int, untilMs: int, filter: Rec -> bool, j: nat, x: Rec)
    requires j <= |keys|
    ensures x in Flat(Batches(keys, sinceMs, untilMs, filter)[j..]) <==>
              x in Flat(Batches(keys, sinceMs, untilMs, All())[j..]) && filter(x)
  {
    hide Batches, Flat;
    var few, all := Batches(keys, sinceMs, untilMs, filter), Batches(keys, sinceMs, untilMs, All());
    FromHas(few, j, x);
    FromHas(all, j, x);
    forall i | j <= i < |keys| ensures x in few[i] <==> x in all[i] && filter(x) {
      FilterBatchHas(keys, sinceMs, untilMs, filter, i, x);
    }
  }

  lemma FilterKeepsOrder(keys: seq<Object>, sinceMs: int, untilMs: int, filter: Rec -> bool)
    requires Ordered(Batches(keys, sinceMs, untilMs, All()))
    ensures Ordered(Batches(keys, sinceMs, untilMs, filter))
  {
    hide Batches, Flat;
    var few := Batches(keys, sinceMs, untilMs, filter);
    forall i, j, x: Rec, y: Rec | 0 <= i < j < |few| && x in few[i] && y in few[j]
      ensures x.ns <= y.ns || x in Flat(few[j..])
    {
      FilterBatchHas(keys, sinceMs, untilMs, filter, i, x);
      FilterBatchHas(keys, sinceMs, untilMs, filter, j, y);
      FilterFromHas(keys, sinceMs, untilMs, filter, j, x);
    }
  }

  lemma TwoTellOrder(objects: seq<Object>, sinceMs: int, untilMs: int, keys: seq<Object>, i: nat, j: nat, x: Rec,
        y: Rec)
    requires KeysCover(objects) && IsListing(objects, sinceMs, untilMs, keys)
    requires var all := Batches(keys, sinceMs, untilMs, All());
             i < j < |all| && x in all[i] && y in all[j] && x.ns > y.ns && x !in Flat(all[j..])
    ensures !FindsNewest(objects, sinceMs, untilMs, keys)
  {
    hide Batches, Flat, Suffices, Archived, Read, InWindow, KeysCover, IsListing, MatchingIn;
    var filter: Rec -> bool := r => r == x || r == y;
    var few := Batches(keys, sinceMs, untilMs, filter);
    BatchHas(keys, sinceMs, untilMs, All(), i, x);
    BatchHas(keys, sinceMs, untilMs, All(), j, y);
    BothInWindow(filter, sinceMs, untilMs, x, y);
    FilterBatchHas(keys, sinceMs, untilMs, filter, i, x);
    FilterBatchHas(keys, sinceMs, untilMs, filter, j, y);
    FilterFromHas(keys, sinceMs, untilMs, filter, j, x);
    FlatHas(few, x);
    forall z | z in Flat(few) ensures z == x || z == y {
      FlatHas(few, z);
      var l :| 0 <= l < |few| && z in few[l];
      FilterBatchHas(keys, sinceMs, untilMs, filter, l, z);
    }
    ReadOneOutOfOrder(few, j, x, y);
    BatchesMatch(objects, sinceMs, untilMs, keys, filter);
    ArchivedIsRead(keys, sinceMs, untilMs, 1, filter);
  }

  lemma BothInWindow(filter: Rec -> bool, sinceMs: int, untilMs: int, x: Rec, y: Rec)
    requires forall r :: filter(r) ==> r == x || r == y
    requires InWindow(x, sinceMs, untilMs) && InWindow(y, sinceMs, untilMs)
    ensures Windowed(filter, sinceMs, untilMs)
  {
  }

  /** Order is needed even for one record: a newest match is found for every filter exactly when
      the records in the window, as listed, are in order. */
  lemma FindsNewestIffOrdered(objects: seq<Object>, sinceMs: int, untilMs: int, keys: seq<Object>)
    requires KeysCover(objects) && IsListing(objects, sinceMs, untilMs, keys)
    ensures FindsNewest(objects, sinceMs, untilMs, keys) <==> Ordered(Batches(keys, sinceMs, untilMs, All()))
  {
    hide Batches, Flat, Suffices, Archived, Read, Windowed, All, KeysCover, IsListing, MatchingIn;
    var all := Batches(keys, sinceMs, untilMs, All());
    if Ordered(all) {
      forall filter: Rec -> bool | Windowed(filter, sinceMs, untilMs)
        ensures Suffices(Archived(keys, sinceMs, untilMs, 1, filter), MatchingIn(objects, filter), 1)
      {
        FilterKeepsOrder(keys, sinceMs, untilMs, filter);
        ReadOneOfOrdered(Batches(keys, sinceMs, untilMs, filter));
        BatchesMatch(objects, sinceMs, untilMs, keys, filter);
        ArchivedIsRead(keys, sinceMs, untilMs, 1, filter);
      }
    } else {
      var i, j, x: Rec, y: Rec :| 0 <= i < j < |all| && x in all[i] && y in all[j] && x.ns > y.ns &&
                                         x !in Flat(all[j..]);
      TwoTellOrder(objects, sinceMs, untilMs, keys, i, j, x, y);
    }
  }

  // ---------- two archives that are not right ----------

  lemma FilteredOne(r: Rec, f: Rec -> bool)
    requires f(r)
    ensures Filtered([r], f) == [r]
  {
    assert [r][..0] == [];
    assert Filtered([r], f) == [] + [r];
  }

  lemma KeptOne(r: Rec, filter: Rec -> bool)
    requires filter(r) && UnixMilli(r) >= 0
    ensures Kept([r], 0, 0, filter) == [r]
  {
    assert Keeps(r, 0, 0, filter);
    FilteredOne(r, x => Keeps(x, 0, 0, filter));
  }

  lemma {:induction false} OverlapsAll(objects: seq<Object>)
    requires forall o :: o in objects ==> o.endMs >= 0
    ensures Overlapping(objects, 0, 0) == objects
  {
    if objects != [] {
      assert objects[|objects| - 1] in objects;
      OverlapsAll(objects[..|objects| - 1]);
      assert objects == objects[..|objects| - 1] + [objects[|objects| - 1]];
    }
  }

  /** An older record, and a newer one whose batch was archived again. */
  function ReArchived(a: Rec, b: Rec): seq<Object> {
    var ma, mb := UnixMilli(a), UnixMilli(b);
    [Object(mb, mb, [b]), Object(ma, ma, [a]), Object(ma, ma, [a])]
  }

  lemma ReArchivedCovered(a: Rec, b: Rec)
    requires 0 <= UnixMilli(b) <= UnixMilli(a)
    ensures KeysCover(ReArchived(a, b)) && SortedBy(ReArchived(a, b), StartOf)
    ensures forall o :: o in ReArchived(a, b) ==> o.endMs >= 0
  {
    hide UnixMilli;
  }

  lemma ReArchivedScan(a: Rec, b: Rec, filter: Rec -> bool)
    requires 0 <= UnixMilli(b) <= UnixMilli(a) && filter(a)
    ensures Archived(ReArchived(a, b), 0, 0, 2, filter) == [a, a]
  {
    hide Kept, UnixMilli;
    var all := ReArchived(a, b);
    assert all[..2] == [all[0], all[1]] && all[..2][..1] == [all[0]];
    KeptOne(a, filter);
    assert Scanned([all[0]], 0, 0, 2, filter, 2) == [];
    assert Scanned(all[..2], 0, 0, 2, filter, 1) == [a] + [];
    assert Scanned(all, 0, 0, 2, filter, 0) == [a] + [a];
    SortedIsFixed([a, a], NewestFirst);
  }

  lemma ReArchivedSound(a: Rec, b: Rec, filter: Rec -> bool)
    requires 0 <= UnixMilli(b) < UnixMilli(a)
    ensures ArchiveSound(ReArchived(a, b), 0, 0, ReArchived(a, b), filter) && ObjectsOrdered(ReArchived(a, b), filter)
  {
    hide HeldSince, Overlapping;
    var objects := ReArchived(a, b);
    ReArchivedCovered(a, b);
    OverlapsAll(objects);
    forall o, p, x, y | o in objects && p in objects && o.startMs <= p.startMs && x in o.recs && y in p.recs
      ensures x.ns <= y.ns
    {
      hide KeysCover;
      assert (x == a || x == b) && (y == a || y == b) && o.startMs == UnixMilli(x) && p.startMs == UnixMilli(y);
    }
  }

  /** A batch archived again after an interrupted sweep: the objects are in order, but the scan
      keeps the record twice, stops at the limit, and misses an older record that belongs in the
      answer. */
  lemma ReArchivedHidesRecord(a: Rec, b: Rec, filter: Rec -> bool)
    requires 0 <= UnixMilli(b) < UnixMilli(a) && filter(a) && filter(b)
    ensures var objects := ReArchived(a, b);
            && ArchiveSound(objects, 0, 0, objects, filter) && ObjectsOrdered(objects, filter)
            && Archived(objects, 0, 0, 2, filter) == [a, a] && b in MatchingIn(objects, filter)
            && Answer([], 0, 0, 2, objects, filter) == [a]
            && !AnswersUnion([], objects, 0, 0, 2, objects, filter)
  {
    hide Archived, UnixMilli, Answer, IsTopK, ArchiveSound, ObjectsOrdered, AnswersUnion, Merged, AllRecs, Filtered;
    var objects := ReArchived(a, b);
    ReArchivedSound(a, b, filter);
    ReArchivedScan(a, b, filter);
    assert b in objects[0].recs;
    AllRecsHas(objects, b);
    FilteredHas(AllRecs(objects), filter);
    MergedRepeat(a);
    EmptyAnswer(objects, 0, 0, 2, objects, filter);
    ShortIsNotTopK(a, b, MatchingIn(objects, filter));
  }

  lemma ShortIsNotTopK(a: Rec, b: Rec, g: set<Rec>)
    requires b in g && a != b
    ensures !IsTopK([a], g, 2)
  {
    assert b !in [a];
  }

  lemma MergedRepeat(a: Rec)
    ensures Merged([], [a, a], 2) == [a]
  {
    assert [a, a][1..] == [a];
    assert Ids([]) == {} && {} + {a.id} == {a.id};
    assert Unseen({a.id}, [a]) == Unseen({a.id}, [a][1..]);
    assert Unseen({}, [a, a]) == [a] + Unseen({a.id}, [a]);
    assert [] + [a] == [a];
    SortedIsFixed([a], NewestFirst);
  }

  function ShortCopy(a: Rec): Object {
    Object(UnixMilli(a), UnixMilli(a), [a])
  }

  function LongCopy(a: Rec, c: Rec): Object {
    Object(UnixMilli(a), UnixMilli(c), [a, c])
  }

  /** Two objects with one start at the end of any archive: the second repeats the record of the
      first and adds a newer one. */
  lemma TieIsListed(older: seq<Object>, a: Rec, c: Rec)
    requires SortedBy(older, StartOf) && 0 <= UnixMilli(a) <= UnixMilli(c)
    requires forall o :: o in older ==> 0 <= o.startMs <= UnixMilli(a) && 0 <= o.endMs
    ensures IsListing(older + [ShortCopy(a), LongCopy(a, c)], 0, 0, older + [LongCopy(a, c), ShortCopy(a)])
  {
    hide Overlapping, UnixMilli;
    var objects, keys := older + [ShortCopy(a), LongCopy(a, c)], older + [LongCopy(a, c), ShortCopy(a)];
    OverlapsAll(objects);
    assert multiset(keys) == multiset(older) + multiset{ShortCopy(a), LongCopy(a, c)} == multiset(objects);
    forall i, j | 0 <= i < j < |keys| ensures StartOf(keys[i]) <= StartOf(keys[j]) {
      assert i < |older| ==> keys[i] in older;
    }
  }

  /** The order of equal starts matters, and the sort by start does not fix it: in an archive of
      any size, when an object that repeats another and adds to it is listed before it, the scan
      for one record stops at the other and misses what is newer. */
  lemma TieOrderHidesNewer(older: seq<Object>, a: Rec, c: Rec, filter: Rec -> bool)
    requires SortedBy(older, StartOf) && 0 <= UnixMilli(a) <= UnixMilli(c)
    requires forall o :: o in older ==> 0 <= o.startMs <= UnixMilli(a) && 0 <= o.endMs
    requires a.ns < c.ns && filter(a) && filter(c)
    ensures var objects, keys := older + [ShortCopy(a), LongCopy(a, c)], older + [LongCopy(a, c), ShortCopy(a)];
            && IsListing(objects, 0, 0, keys) && c in MatchingIn(objects, filter)
            && Answer([], 0, 0, 1, keys, filter) == [a]
            && !AnswersUnion([], objects, 0, 0, 1, keys, filter)
  {
    hide UnixMilli, IsListing, Archived, Answer, IsTopK, AnswersUnion, AllRecs, Filtered;
    var objects, keys := older + [ShortCopy(a), LongCopy(a, c)], older + [LongCopy(a, c), ShortCopy(a)];
    TieIsListed(older, a, c);
    TieScan(keys, a, filter);
    assert c in objects[|objects| - 1].recs;
    AllRecsHas(objects, c);
    FilteredHas(AllRecs(objects), filter);
    EmptyAnswer(objects, 0, 0, 1, keys, filter);
    OlderIsNotTopK(a, c, MatchingIn(objects, filter));
  }

  lemma OlderIsNotTopK(a: Rec, c: Rec, g: set<Rec>)
    requires c in g && a.ns < c.ns
    ensures !IsTopK([a], g, 1)
  {
    assert a in [a] && c !in [a];
  }

  lemma TieScan(keys: seq<Object>, a: Rec, filter: Rec -> bool)
    requires keys != [] && keys[|keys| - 1].recs == [a] && filter(a) && UnixMilli(a) >= 0
    ensures Answer([], 0, 0, 1, keys, filter) == [a] && Archived(keys, 0, 0, 1, filter) == [a]
  {
    hide Kept, UnixMilli;
    KeptOne(a, filter);
    assert Scanned(keys[..|keys| - 1], 0, 0, 1, filter, 1) == [];
    assert Scanned(keys, 0, 0, 1, filter, 0) == [a] + [];
    SortedIsFixed([a], NewestFirst);
    assert Ids([]) == {} && [a][1..] == [];
    assert Unseen({}, [a]) == [a] + [];
    assert [] + [a] == [a];
  }
}
