/** When the bounded query over ring and archive answers with the `k` newest matching records of
    both together, although each source is cut and the scan of the archive stops early. */
module AuditTopK {
  import opened Sequences
  import opened Sorting
  import opened AuditQuery
  import opened BatchScan

  // ---------- what is assumed of the data ----------

  /** The same id is the same record, in the ring or in the archive. */
  ghost predicate IdsIdentify(a: set<Rec>, b: set<Rec>) {
    forall x, y :: x in a + b && y in a + b && x.id == y.id ==> x == y
  }

  /** The key of an object covers its records. */
  ghost predicate KeysCover(objects: seq<Object>) {
    forall o, r :: o in objects && r in o.recs ==> 0 <= o.startMs <= UnixMilli(r) <= o.endMs
  }

  /** The objects, a listing of them, and the filter, as every query meets them. */
  ghost predicate ArchiveSound(objects: seq<Object>, sinceMs: int, untilMs: int, keys: seq<Object>,
        filter: Rec -> bool) {
    KeysCover(objects) && IsListing(objects, sinceMs, untilMs, keys) && Windowed(filter, sinceMs, untilMs)
  }

  // ---------- coverings ----------

  lemma CoversSuffices(s: seq<Rec>, f: set<Rec>, k: nat)
    requires Covers(s, f, k)
    ensures Suffices(s, f, k)
  {
    forall u | u in f && u !in s ensures |Newer(s, u.ns)| >= k {
      assert Newer(s, u.ns) == Elements(s);
      DistinctCount(s);
    }
  }

  lemma SortSuffices(s: seq<Rec>, f: set<Rec>, k: nat)
    requires Suffices(s, f, k) && Distinct(s)
    ensures Suffices(StableSort(s, NewestFirst), f, k) && NewestFirstOrder(StableSort(s, NewestFirst))
    ensures Distinct(StableSort(s, NewestFirst))
  {
    var t := StableSort(s, NewestFirst);
    SortedNewestFirst(s);
    SortDistinct(s);
    forall u | u in f && u !in t ensures |Newer(t, u.ns)| >= k {
      assert Newer(t, u.ns) == Newer(s, u.ns);
    }
  }

  /** If `k` records of a sorted list are as new as `ns`, then so is its `k`-th. */
  lemma KthIsNew(s: seq<Rec>, ns: int, k: nat)
    requires NewestFirstOrder(s) && Distinct(s) && |Newer(s, ns)| >= k > 0
    ensures k <= |s| && s[k - 1].ns >= ns
  {
    DistinctCount(s);
    SubsetCount(Newer(s, ns), Elements(s));
    if s[k - 1].ns < ns {
      var head := s[..k - 1];
      forall x | x in Newer(s, ns) ensures x in head {
        var i :| 0 <= i < |s| && s[i] == x;
        assert i < k - 1;
        assert head[i] == x;
      }
      DistinctCount(head);
      SubsetCount(Newer(s, ns), Elements(head));
      assert false;
    }
  }

  /** Cutting a sufficient sorted list at `k` gives the `k` newest. */
  lemma CutIsTopK(s: seq<Rec>, f: set<Rec>, k: nat)
    requires Suffices(s, f, k) && Distinct(s) && NewestFirstOrder(s) && k > 0
    ensures IsTopK(CapSlice(s, k), f, k)
  {
    var r := CapSlice(s, k);
    forall u | u in f && u !in r ensures |r| >= k && forall x :: x in r ==> x.ns >= u.ns {
      if u !in s {
        KthIsNew(s, u.ns, k);
      } else {
        var i :| 0 <= i < |s| && s[i] == u;
      }
    }
  }

  // ---------- the listing ----------

  lemma {:induction false} AllRecsHas(objects: seq<Object>, x: Rec)
    ensures x in AllRecs(objects) <==> exists i :: 0 <= i < |objects| && x in objects[i].recs
  {
    if objects != [] {
      var front, last := objects[..|objects| - 1], objects[|objects| - 1];
      AllRecsHas(front, x);
      if x in AllRecs(front) {
        var i :| 0 <= i < |front| && x in front[i].recs;
        assert x in objects[i].recs;
      }
      if i :| 0 <= i < |objects| && x in objects[i].recs {
        assert i < |front| ==> x in front[i].recs;
      }
    }
  }

  lemma {:induction false} OverlappingHas(objects: seq<Object>, sinceMs: int, untilMs: int)
    ensures forall o :: o in Overlapping(objects, sinceMs, untilMs) <==>
                        o in objects && !(o.endMs < sinceMs) && !(untilMs > 0 && o.startMs > untilMs)
  {
    if objects != [] {
      OverlappingHas(objects[..|objects| - 1], sinceMs, untilMs);
      assert objects == objects[..|objects| - 1] + [objects[|objects| - 1]];
    }
  }

  lemma ListingHas(objects: seq<Object>, sinceMs: int, untilMs: int, keys: seq<Object>, o: Object)
    requires IsListing(objects, sinceMs, untilMs, keys)
    ensures o in keys <==> o in objects && !(o.endMs < sinceMs) && !(untilMs > 0 && o.startMs > untilMs)
  {
    OverlappingHas(objects, sinceMs, untilMs);
    assert o in keys <==> o in multiset(keys);
    assert o in Overlapping(objects, sinceMs, untilMs) <==> o in multiset(Overlapping(objects, sinceMs, untilMs));
  }

  lemma KeyCovers(objects: seq<Object>, o: Object, r: Rec)
    requires KeysCover(objects) && o in objects && r in o.recs
    ensures 0 <= o.startMs <= UnixMilli(r) <= o.endMs
  {
  }

  lemma MatchIsListed(objects: seq<Object>, sinceMs: int, untilMs: int, keys: seq<Object>, filter: Rec -> bool, u: Rec,
        o: Object)
    requires KeysCover(objects) && IsListing(objects, sinceMs, untilMs, keys) && Windowed(filter, sinceMs, untilMs)
    requires filter(u) && o in objects && u in o.recs
    ensures o in keys
  {
    KeyCovers(objects, o, u);
    hide UnixMilli, IsListing;
    ListingHas(objects, sinceMs, untilMs, keys, o);
  }

  /** Skipping objects by their keys loses no matching record. */
  lemma SkippedHaveNone(objects: seq<Object>, sinceMs: int, untilMs: int, keys: seq<Object>, filter: Rec -> bool,
        u: Rec)
    requires KeysCover(objects) && IsListing(objects, sinceMs, untilMs, keys) && Windowed(filter, sinceMs, untilMs)
    requires filter(u)
    ensures u in AllRecs(objects) <==> u in AllRecs(keys)
  {
    hide KeysCover, Windowed, IsListing;
    AllRecsHas(objects, u);
    AllRecsHas(keys, u);
    if i :| 0 <= i < |objects| && u in objects[i].recs {
      MatchIsListed(objects, sinceMs, untilMs, keys, filter, u, objects[i]);
      var j :| 0 <= j < |keys| && keys[j] == objects[i];
    }
    if j :| 0 <= j < |keys| && u in keys[j].recs {
      ListingHas(objects, sinceMs, untilMs, keys, keys[j]);
      var i :| 0 <= i < |objects| && objects[i] == keys[j];
    }
  }

  function MatchingIn(objects: seq<Object>, filter: Rec -> bool): set<Rec> {
    Elements(Filtered(AllRecs(objects), filter))
  }

  // ---------- the reader ----------

  /** The matching records of each listed object. */
  function Batches(keys: seq<Object>, sinceMs: int, untilMs: int, filter: Rec -> bool): (batches: seq<seq<Rec>>)
    ensures |batches| == |keys|
  {
    if keys == [] then [] else
      Batches(keys[..|keys| - 1], sinceMs, untilMs, filter) + [Kept(keys[|keys| - 1].recs, sinceMs, untilMs, filter)]
  }

  lemma {:induction false} BatchIs(keys: seq<Object>, sinceMs: int, untilMs: int, filter: Rec -> bool, i: nat)
    requires i < |keys|
    ensures Batches(keys, sinceMs, untilMs, filter)[i] == Kept(keys[i].recs, sinceMs, untilMs, filter)
  {
    hide Kept;
    if i < |keys| - 1 {
      BatchIs(keys[..|keys| - 1], sinceMs, untilMs, filter, i);
    }
  }

  lemma {:induction false} ScannedIsCut(keys: seq<Object>, sinceMs: int, untilMs: int, limit: int, filter: Rec -> bool,
        kept: nat)
    ensures Scanned(keys, sinceMs, untilMs, limit, filter, kept) ==
              Cut(Batches(keys, sinceMs, untilMs, filter), limit, kept)
  {
    hide Kept;
    if keys != [] && !(limit > 0 && kept >= limit) {
      var front, xs := keys[..|keys| - 1], Kept(keys[|keys| - 1].recs, sinceMs, untilMs, filter);
      ScannedIsCut(front, sinceMs, untilMs, limit, filter, kept + |xs|);
      CutNext(Batches(front, sinceMs, untilMs, filter), xs, limit, kept);
    }
  }

  lemma CutNext(front: seq<seq<Rec>>, xs: seq<Rec>, limit: int, kept: nat)
    requires !(limit > 0 && kept >= limit)
    ensures Cut(front + [xs], limit, kept) == xs + Cut(front, limit, kept + |xs|)
  {
    var batches := front + [xs];
    assert batches[..|batches| - 1] == front;
  }

  lemma ArchivedIsRead(keys: seq<Object>, sinceMs: int, untilMs: int, limit: int, filter: Rec -> bool)
    ensures Archived(keys, sinceMs, untilMs, limit, filter) == Read(Batches(keys, sinceMs, untilMs, filter), limit)
  {
    ScannedIsCut(keys, sinceMs, untilMs, limit, filter, 0);
  }

  lemma KeptHas(recs: seq<Rec>, sinceMs: int, untilMs: int, filter: Rec -> bool)
    ensures forall x :: x in Kept(recs, sinceMs, untilMs, filter) <==> x in recs && Keeps(x, sinceMs, untilMs, filter)
  {
    FilteredHas(recs, r => Keeps(r, sinceMs, untilMs, filter));
  }

  lemma BatchHas(keys: seq<Object>, sinceMs: int, untilMs: int, filter: Rec -> bool, i: nat, x: Rec)
    requires i < |keys|
    ensures x in Batches(keys, sinceMs, untilMs, filter)[i] <==> x in keys[i].recs && Keeps(x, sinceMs, untilMs, filter)
  {
    BatchIs(keys, sinceMs, untilMs, filter, i);
    KeptHas(keys[i].recs, sinceMs, untilMs, filter);
  }

  /** Whatever the reader skips or keeps, its batches hold exactly the matching records. */
  lemma BatchesMatch(objects: seq<Object>, sinceMs: int, untilMs: int, keys: seq<Object>, filter: Rec -> bool)
    requires ArchiveSound(objects, sinceMs, untilMs, keys, filter)
    ensures Elements(Flat(Batches(keys, sinceMs, untilMs, filter))) == MatchingIn(objects, filter)
  {
    hide Flat, Batches, IsListing, KeysCover, InWindow, Windowed;
    var batches := Batches(keys, sinceMs, untilMs, filter);
    FilteredHas(AllRecs(objects), filter);
    forall x ensures x in Flat(batches) <==> x in AllRecs(objects) && filter(x) {
      FlatHas(batches, x);
      if i :| 0 <= i < |batches| && x in batches[i] {
        BatchHas(keys, sinceMs, untilMs, filter, i, x);
        AllRecsHas(keys, x);
        SkippedHaveNone(objects, sinceMs, untilMs, keys, filter, x);
      }
      if x in AllRecs(objects) && filter(x) {
        SkippedHaveNone(objects, sinceMs, untilMs, keys, filter, x);
        AllRecsHas(keys, x);
        var i :| 0 <= i < |keys| && x in keys[i].recs;
        ListedInWindow(objects, sinceMs, untilMs, keys, filter, i, x);
        BatchHas(keys, sinceMs, untilMs, filter, i, x);
      }
    }
  }

  lemma ListedInWindow(objects: seq<Object>, sinceMs: int, untilMs: int, keys: seq<Object>, filter: Rec -> bool,
        i: nat, x: Rec)
    requires ArchiveSound(objects, sinceMs, untilMs, keys, filter)
    requires i < |keys| && x in keys[i].recs && filter(x)
    ensures InWindow(x, sinceMs, untilMs)
  {
    ListingHas(objects, sinceMs, untilMs, keys, keys[i]);
    hide IsListing;
    KeyCovers(objects, keys[i], x);
  }

  /** For which archives the reader, cut at its limit, misses only records no newer than all it
      returns, and none unless its answer is full. */
  lemma ArchivedMisses(objects: seq<Object>, sinceMs: int, untilMs: int, keys: seq<Object>, filter: Rec -> bool)
    requires ArchiveSound(objects, sinceMs, untilMs, keys, filter)
    ensures (forall limit ::
              MissesOlder(Archived(keys, sinceMs, untilMs, limit, filter), MatchingIn(objects, filter), limit))
            <==> Ordered(Batches(keys, sinceMs, untilMs, filter))
  {
    hide ArchiveSound, MatchingIn, Archived, Batches, Ordered, MissesOlder, Flat, Read;
    var batches, g := Batches(keys, sinceMs, untilMs, filter), MatchingIn(objects, filter);
    BatchesMatch(objects, sinceMs, untilMs, keys, filter);
    MissesOlderIffOrdered(batches);
    forall limit ensures Archived(keys, sinceMs, untilMs, limit, filter) == Read(batches, limit) {
      ArchivedIsRead(keys, sinceMs, untilMs, limit, filter);
    }
    if !Ordered(batches) {
      var limit :| !MissesOlder(Read(batches, limit), g, limit);
      assert !MissesOlder(Archived(keys, sinceMs, untilMs, limit, filter), g, limit);
    }
  }

  // ---------- the merge ----------

  lemma {:induction false} UnseenHas(seen: set<string>, archived: seq<Rec>)
    requires forall x, y :: x in archived && y in archived && x.id == y.id ==> x == y
    ensures forall x :: x in Unseen(seen, archived) <==> x in archived && x.id !in seen
    ensures Distinct(Unseen(seen, archived))
    decreases archived
  {
    if archived != [] {
      var r, rest := archived[0], archived[1..];
      assert archived == [r] + rest;
      UnseenHas(seen, rest);
      UnseenHas(seen + {r.id}, rest);
    }
  }

  lemma MergeHas(live: seq<Rec>, archived: seq<Rec>, f: set<Rec>, g: set<Rec>)
    requires (forall x :: x in live ==> x in f) && (forall x :: x in archived ==> x in g) && IdsIdentify(f, g) &&
             Distinct(live)
    ensures forall x :: x in live + Unseen(Ids(live), archived) <==> x in live || x in archived
    ensures Distinct(live + Unseen(Ids(live), archived))
  {
    var added := Unseen(Ids(live), archived);
    UnseenHas(Ids(live), archived);
    forall x ensures x in live + added <==> x in live || x in archived {
      if x in archived && x.id in Ids(live) {
        var y :| y in live && y.id == x.id;
        assert x in f + g && y in f + g;
      }
    }
    forall x | x in live ensures x !in added {
      assert x.id in Ids(live);
    }
    DistinctConcat(live, added);
  }

  lemma MergeSuffices(live: seq<Rec>, archived: seq<Rec>, f: set<Rec>, g: set<Rec>, k: nat)
    requires Suffices(live, f, k) && Suffices(archived, g, k) && IdsIdentify(f, g) && Distinct(live)
    ensures Suffices(live + Unseen(Ids(live), archived), f + g, k)
    ensures Distinct(live + Unseen(Ids(live), archived))
  {
    var out := live + Unseen(Ids(live), archived);
    MergeHas(live, archived, f, g);
    forall u | u in f + g && u !in out ensures |Newer(out, u.ns)| >= k {
      if u in f {
        SubsetCount(Newer(live, u.ns), Newer(out, u.ns));
      } else {
        SubsetCount(Newer(archived, u.ns), Newer(out, u.ns));
      }
    }
  }

  /** The ring holds its matching records in time order, and ids name records. */
  ghost predicate RingSound(ring: seq<Rec>, filter: Rec -> bool, g: set<Rec>) {
    InTimeOrder(Filtered(ring, filter)) && Distinct(ring) && IdsIdentify(Elements(Filtered(ring, filter)), g)
  }

  function Answer(ring: seq<Rec>, sinceMs: int, untilMs: int, limit: int, keys: seq<Object>,
        filter: Rec -> bool): seq<Rec> {
    Merged(NewestOf(ring, filter, LimitOf(limit)), Archived(keys, sinceMs, untilMs, limit, filter), limit)
  }

  /** The answer is the `k` newest matching records of ring and archive together. */
  ghost predicate AnswersUnion(ring: seq<Rec>, objects: seq<Object>, sinceMs: int, untilMs: int, limit: int,
        keys: seq<Object>, filter: Rec -> bool) {
    IsTopK(Answer(ring, sinceMs, untilMs, limit, keys, filter),
      Elements(Filtered(ring, filter)) + MatchingIn(objects, filter), LimitOf(limit))
  }

  lemma ReaderAnswers(ring: seq<Rec>, objects: seq<Object>, sinceMs: int, untilMs: int, limit: int, keys: seq<Object>,
        filter: Rec -> bool)
    requires RingSound(ring, filter, MatchingIn(objects, filter))
    requires Suffices(Archived(keys, sinceMs, untilMs, limit, filter), MatchingIn(objects, filter), LimitOf(limit))
    ensures AnswersUnion(ring, objects, sinceMs, untilMs, limit, keys, filter)
  {
    hide Filtered, NewestOf, Archived, InTimeOrder, Unseen, Suffices, MatchingIn;
    var f, g, k := Elements(Filtered(ring, filter)), MatchingIn(objects, filter), LimitOf(limit);
    var live, archived := NewestOf(ring, filter, k), Archived(keys, sinceMs, untilMs, limit, filter);
    RingIsTopK(ring, filter, k);
    CoversSuffices(live, f, k);
    MergeSuffices(live, archived, f, g, k);
    var all := live + Unseen(Ids(live), archived);
    SortSuffices(all, f + g, k);
    CutIsTopK(StableSort(all, NewestFirst), f + g, k);
  }

  lemma EmptyRing(filter: Rec -> bool, g: set<Rec>)
    requires IdsIdentify({}, g)
    ensures RingSound([], filter, g) && Elements(Filtered([], filter)) + g == g
    ensures forall k: nat :: NewestOf([], filter, k) == []
  {
    assert Elements(Filtered([], filter)) == {};
  }

  lemma EmptyAnswer(objects: seq<Object>, sinceMs: int, untilMs: int, limit: int, keys: seq<Object>,
        filter: Rec -> bool)
    ensures Answer([], sinceMs, untilMs, limit, keys, filter) ==
              Merged([], Archived(keys, sinceMs, untilMs, limit, filter), limit)
    ensures AnswersUnion([], objects, sinceMs, untilMs, limit, keys, filter) <==>
              IsTopK(Answer([], sinceMs, untilMs, limit, keys, filter), MatchingIn(objects, filter), LimitOf(limit))
  {
    hide Archived, Merged, IsTopK, MatchingIn;
    assert Elements(Filtered([], filter)) == {};
    assert {} + MatchingIn(objects, filter) == MatchingIn(objects, filter);
  }

  /** With an empty ring the answer is the reader's, each record once. */
  lemma LoneReaderSuffices(read: seq<Rec>, g: set<Rec>, limit: int)
    requires IdsIdentify({}, g) && forall x :: x in read ==> x in g
    requires IsTopK(Merged([], read, limit), g, LimitOf(limit))
    ensures Suffices(read, g, LimitOf(limit))
  {
    var k, all, out := LimitOf(limit), [] + Unseen(Ids([]), read), Merged([], read, limit);
    MergeHas([], read, {}, g);
    SortedNewestFirst(all);
    forall u | u in g && u !in read ensures |Newer(read, u.ns)| >= k {
      assert forall x :: x in out ==> x in read;
      DistinctCount(out);
      SubsetCount(Elements(out), Newer(read, u.ns));
    }
  }

  lemma ReaderFinds(objects: seq<Object>, sinceMs: int, untilMs: int, limit: int, keys: seq<Object>,
        filter: Rec -> bool)
    requires ArchiveSound(objects, sinceMs, untilMs, keys, filter)
    ensures forall x :: x in Archived(keys, sinceMs, untilMs, limit, filter) ==> x in MatchingIn(objects, filter)
  {
    hide ArchiveSound, MatchingIn, Archived, Batches, Flat, StopsAt, Read;
    var batches := Batches(keys, sinceMs, untilMs, filter);
    BatchesMatch(objects, sinceMs, untilMs, keys, filter);
    ArchivedIsRead(keys, sinceMs, untilMs, limit, filter);
    var m := Stop(batches, limit);
    ReadIs(batches, limit, m);
    FlatSplit(batches, m);
  }

  /** For one limit: the query is right for every ring exactly when what the reader returns
      suffices. */
  lemma RightIffReaderSuffices(objects: seq<Object>, sinceMs: int, untilMs: int, limit: int, keys: seq<Object>,
        filter: Rec -> bool)
    requires ArchiveSound(objects, sinceMs, untilMs, keys, filter) && IdsIdentify({}, MatchingIn(objects, filter))
    ensures (forall ring :: RingSound(ring, filter, MatchingIn(objects, filter)) ==>
              AnswersUnion(ring, objects, sinceMs, untilMs, limit, keys, filter))
            <==> Suffices(Archived(keys, sinceMs, untilMs, limit, filter), MatchingIn(objects, filter), LimitOf(limit))
  {
    hide ArchiveSound, MatchingIn, RingSound, Archived, IdsIdentify, Answer, Suffices, IsTopK, AnswersUnion;
    var read, g := Archived(keys, sinceMs, untilMs, limit, filter), MatchingIn(objects, filter);
    if Suffices(read, g, LimitOf(limit)) {
      forall ring | RingSound(ring, filter, g)
        ensures AnswersUnion(ring, objects, sinceMs, untilMs, limit, keys, filter)
      {
        ReaderAnswers(ring, objects, sinceMs, untilMs, limit, keys, filter);
      }
    } else {
      EmptyRing(filter, g);
      ReaderFinds(objects, sinceMs, untilMs, limit, keys, filter);
      EmptyAnswer(objects, sinceMs, untilMs, limit, keys, filter);
      if AnswersUnion([], objects, sinceMs, untilMs, limit, keys, filter) {
        LoneReaderSuffices(read, g, limit);
        assert false;
      }
    }
  }

  /** For every limit and every ring in time order the answer is the `k` newest of the union. */
  ghost predicate AlwaysRight(objects: seq<Object>, sinceMs: int, untilMs: int, keys: seq<Object>,
        filter: Rec -> bool) {
    forall ring, limit :: RingSound(ring, filter, MatchingIn(objects, filter)) ==>
      AnswersUnion(ring, objects, sinceMs, untilMs, limit, keys, filter)
  }

  lemma RightForLimit(objects: seq<Object>, sinceMs: int, untilMs: int, limit: int, keys: seq<Object>,
        filter: Rec -> bool)
    requires ArchiveSound(objects, sinceMs, untilMs, keys, filter)
    requires limit <= 0 ||
             (Ordered(Batches(keys, sinceMs, untilMs, filter)) && Uncrowded(Batches(keys, sinceMs, untilMs, filter)))
    ensures Suffices(Archived(keys, sinceMs, untilMs, limit, filter), MatchingIn(objects, filter), LimitOf(limit))
  {
    hide ArchiveSound, MatchingIn, Archived, Batches, Ordered, Uncrowded, Suffices, Read, Flat;
    var batches := Batches(keys, sinceMs, untilMs, filter);
    BatchesMatch(objects, sinceMs, untilMs, keys, filter);
    ArchivedIsRead(keys, sinceMs, untilMs, limit, filter);
    if limit <= 0 {
      UnlimitedSuffices(batches, limit, LimitOf(limit));
    } else {
      UncrowdedSuffices(batches, limit);
    }
  }

  /** Exactly which archives, as listed, answer every query with this filter right: those whose
      batches are in order and do not crowd a record out. */
  lemma QueryIsTopKIff(objects: seq<Object>, sinceMs: int, untilMs: int, keys: seq<Object>, filter: Rec -> bool)
    requires ArchiveSound(objects, sinceMs, untilMs, keys, filter) && IdsIdentify({}, MatchingIn(objects, filter))
    ensures AlwaysRight(objects, sinceMs, untilMs, keys, filter) <==>
              var batches := Batches(keys, sinceMs, untilMs, filter);
              Ordered(batches) && Uncrowded(batches)
  {
    hide ArchiveSound, MatchingIn, RingSound, Archived, Batches, Ordered, Uncrowded, Suffices, AnswersUnion,
           IdsIdentify, Read, Flat;
    var batches, g := Batches(keys, sinceMs, untilMs, filter), MatchingIn(objects, filter);
    if Ordered(batches) && Uncrowded(batches) {
      forall ring, limit | RingSound(ring, filter, g)
        ensures AnswersUnion(ring, objects, sinceMs, untilMs, limit, keys, filter)
      {
        RightForLimit(objects, sinceMs, untilMs, limit, keys, filter);
        ReaderAnswers(ring, objects, sinceMs, untilMs, limit, keys, filter);
      }
    } else {
      BatchesMatch(objects, sinceMs, untilMs, keys, filter);
      SufficesIffUncrowded(batches);
      var k: nat :| 0 < k && !Suffices(Read(batches, k), Elements(Flat(batches)), k);
      ArchivedIsRead(keys, sinceMs, untilMs, k, filter);
      RightIffReaderSuffices(objects, sinceMs, untilMs, k, keys, filter);
    }
  }

  // ---------- what is reported ----------

  /** The reported number is how many of the returned records have one of the ids. */
  lemma {:induction false} CountIs(s: seq<Rec>, ids: set<string>)
    requires Distinct(s)
    ensures CountIn(s, ids) == |set x | x in s && x.id in ids|
  {
    if s == [] {
      assert (set x | x in s && x.id in ids) == {};
    } else {
      var front, last := s[..|s| - 1], s[|s| - 1];
      CountIs(front, ids);
      CountStep(front, last, ids);
      assert s == front + [last] && last !in front;
    }
  }

  lemma CountStep(front: seq<Rec>, last: Rec, ids: set<string>)
    requires last !in front
    ensures |set x | x in front + [last] && x.id in ids| ==
              |set x | x in front && x.id in ids| + if last.id in ids then 1 else 0
  {
    var before := set x | x in front && x.id in ids;
    assert (set x | x in front + [last] && x.id in ids) == before + if last.id in ids then {last} else {};
  }

  /** Of the records returned, those reported as archived are exactly those the live answer
      did not already hold. */
  lemma ReportsArchived(live: seq<Rec>, archived: seq<Rec>, out: seq<Rec>, f: set<Rec>, g: set<Rec>)
    requires Distinct(out) && IdsIdentify(f, g)
    requires (forall x :: x in live ==> x in f) && (forall x :: x in archived ==> x in g)
    requires forall x :: x in out ==> x in live || x in Unseen(Ids(live), archived)
    ensures CountIn(out, Ids(Unseen(Ids(live), archived))) == |set x | x in out && x !in live|
  {
    var added := Unseen(Ids(live), archived);
    UnseenHas(Ids(live), archived);
    CountIs(out, Ids(added));
    forall x | x in out ensures x.id in Ids(added) <==> x !in live {
      if x in live {
        assert x.id in Ids(live);
      }
    }
    assert (set x | x in out && x.id in Ids(added)) == (set x | x in out && x !in live);
  }

  // ---------- the answer is determined ----------

  /** Whatever is newer than the `i`-th of an answer comes before it there. */
  lemma NewerComesBefore(t: seq<Rec>, f: set<Rec>, k: nat, i: nat, x: Rec)
    requires IsTopK(t, f, k) && x in f
    requires if i < |t| then x.ns > t[i].ns else |t| < k
    ensures exists j :: 0 <= j < |t| && j < i && t[j] == x
  {
    assert x in t;
    var j :| 0 <= j < |t| && t[j] == x;
    assert j < i;
  }

  lemma NotOlder(s: seq<Rec>, t: seq<Rec>, f: set<Rec>, k: nat, i: nat)
    requires IsTopK(s, f, k) && IsTopK(t, f, k) && i < |s|
    ensures i < |t| && s[i].ns <= t[i].ns
  {
    if i >= |t| || s[i].ns > t[i].ns {
      var head, short := s[..i + 1], if i >= |t| then t else t[..i];
      DistinctCount(head);
      forall x | x in head ensures x in short {
        var h :| 0 <= h <= i && s[h] == x;
        NewerComesBefore(t, f, k, i, x);
        var j :| 0 <= j < |t| && j < i && t[j] == x;
        assert short[j] == x;
      }
      DistinctCount(short);
      SubsetCount(Elements(head), Elements(short));
      assert false;
    }
  }

  /** Any two answers that are the `k` newest show the same times. */
  lemma TopKTimesUnique(s: seq<Rec>, t: seq<Rec>, f: set<Rec>, k: nat)
    requires IsTopK(s, f, k) && IsTopK(t, f, k)
    ensures |s| == |t| && forall i :: 0 <= i < |s| ==> s[i].ns == t[i].ns
  {
    if |s| > 0 { NotOlder(s, t, f, k, |s| - 1); }
    if |t| > 0 { NotOlder(t, s, f, k, |t| - 1); }
    forall i | 0 <= i < |s| ensures s[i].ns == t[i].ns {
      NotOlder(s, t, f, k, i);
      NotOlder(t, s, f, k, i);
    }
  }

  // ---------- what is read ----------

  /** The listing names exactly the objects whose range meets the window; others are not fetched. */
  lemma ListsWhatMeetsWindow(objects: seq<Object>, sinceMs: int, untilMs: int, keys: seq<Object>, o: Object)
    requires IsListing(objects, sinceMs, untilMs, keys)
    ensures o in keys <==> o in objects && o.endMs >= sinceMs && (untilMs <= 0 || o.startMs <= untilMs)
  {
    ListingHas(objects, sinceMs, untilMs, keys, o);
  }

  /** What the reader returns lies in the window, passes the filter, and comes from a listed object. */
  lemma ReturnsFromWindow(keys: seq<Object>, sinceMs: int, untilMs: int, limit: int, filter: Rec -> bool, x: Rec)
    requires x in Archived(keys, sinceMs, untilMs, limit, filter)
    ensures x.ns / 1_000_000 >= sinceMs && (untilMs > 0 ==> x.ns / 1_000_000 <= untilMs) && filter(x)
    ensures exists i :: 0 <= i < |keys| && x in keys[i].recs
  {
    hide Batches, Flat, StopsAt, Read, Archived;
    var batches := Batches(keys, sinceMs, untilMs, filter);
    ArchivedIsRead(keys, sinceMs, untilMs, limit, filter);
    var m := Stop(batches, limit);
    ReadIs(batches, limit, m);
    assert x in StableSort(Flat(batches[m..]), NewestFirst);
    FromHas(batches, m, x);
    var i :| m <= i < |batches| && x in batches[i];
    BatchHas(keys, sinceMs, untilMs, filter, i, x);
  }

  /** The scan takes whole objects from the newest on, and none once the limit is reached. */
  lemma ScansNoFurther(keys: seq<Object>, sinceMs: int, untilMs: int, limit: int, filter: Rec -> bool)
    returns (m: nat)
    ensures m <= |keys|
    ensures var batches := Batches(keys, sinceMs, untilMs, filter);
            && Scanned(keys, sinceMs, untilMs, limit, filter, 0) == Flat(batches[m..])
            && (m < |keys| && limit > 0 ==> |Flat(batches[m + 1..])| < limit)
            && (m > 0 ==> 0 < limit <= |Flat(batches[m..])|)
  {
    hide Batches, Flat;
    var batches := Batches(keys, sinceMs, untilMs, filter);
    m := Stop(batches, limit);
    CutIs(batches, limit, m);
    ScannedIsCut(keys, sinceMs, untilMs, limit, filter, 0);
  }
}
