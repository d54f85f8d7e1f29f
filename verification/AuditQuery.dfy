/** Bounded queries over the in-state ring and the archive: newest first, at most `k`,
    although both sources are cut and the archive scan stops early. */
module AuditQuery {
  import opened Options
  import opened Sequences
  import opened Sorting

  /** An audit entry or an event, created at `ns` nanoseconds. */
  datatype Rec = Rec(id: string, ns: int, body: string)

  /** An archived object whose key covers [startMs, endMs]. */
  datatype Object = Object(startMs: int, endMs: int, recs: seq<Rec>)

  const DEFAULT_LIMIT := 100

  function UnixMilli(r: Rec): int {
    r.ns / 1_000_000
  }

  function NewestFirst(r: Rec): int {
    -r.ns
  }

  function StartOf(o: Object): int {
    o.startMs
  }

  function LimitOf(limit: int): (k: nat)
    ensures 0 < k
  {
    if limit <= 0 then DEFAULT_LIMIT else limit
  }

  /** The part of every request's filter that the proofs rely on: the window. */
  ghost predicate Windowed(filter: Rec -> bool, sinceMs: int, untilMs: int) {
    && (forall r :: filter(r) && sinceMs > 0 ==> UnixMilli(r) >= sinceMs)
    && (forall r :: filter(r) && untilMs > 0 ==> UnixMilli(r) <= untilMs)
  }

  predicate InWindow(r: Rec, sinceMs: int, untilMs: int) {
    !(UnixMilli(r) < sinceMs || (untilMs > 0 && UnixMilli(r) > untilMs))
  }

  function Filtered(s: seq<Rec>, filter: Rec -> bool): seq<Rec> {
    if s == [] then [] else
      var rest := Filtered(s[..|s| - 1], filter);
      if filter(s[|s| - 1]) then rest + [s[|s| - 1]] else rest
  }

  function AllRecs(objects: seq<Object>): seq<Rec> {
    if objects == [] then [] else AllRecs(objects[..|objects| - 1]) + objects[|objects| - 1].recs
  }

  // ---------- the answers ----------

  ghost predicate NewestFirstOrder(s: seq<Rec>) {
    forall i, j :: 0 <= i < j < |s| ==> s[i].ns >= s[j].ns
  }

  /** `s` may miss a record of `f` only if it holds at least `k` that are all as new. */
  ghost predicate Covers(s: seq<Rec>, f: set<Rec>, k: nat) {
    && Distinct(s)
    && (forall x :: x in s ==> x in f)
    && (forall u :: u in f && u !in s ==> |s| >= k && forall x :: x in s ==> x.ns >= u.ns)
  }

  /** `s` lists the `k` newest records of `f`, newest first. */
  ghost predicate IsTopK(s: seq<Rec>, f: set<Rec>, k: nat) {
    Covers(s, f, k) && |s| <= k && NewestFirstOrder(s)
  }

  // ---------- the ring ----------

  /** `state.QueryAudit`: from the end of the ring, at most `k` that satisfy the filter. */
  function NewestOf(ring: seq<Rec>, filter: Rec -> bool, k: nat): (out: seq<Rec>)
    ensures |out| <= k
  {
    if ring == [] || k == 0 then []
    else
      var last := ring[|ring| - 1];
      if filter(last) then [last] + NewestOf(ring[..|ring| - 1], filter, k - 1)
      else NewestOf(ring[..|ring| - 1], filter, k)
  }

  method QueryRing(ring: seq<Rec>, filter: Rec -> bool, limit: int) returns (out: seq<Rec>)
    ensures out == NewestOf(ring, filter, LimitOf(limit))
  {
    var k := LimitOf(limit);
    out := [];
    var i := |ring|;
    assert ring[..i] == ring;
    while i > 0 && |out| < k
      invariant 0 <= i <= |ring| && |out| <= k
      invariant out + NewestOf(ring[..i], filter, k - |out|) == NewestOf(ring, filter, k)
    {
      assert ring[..i][..i - 1] == ring[..i - 1];
      i := i - 1;
      if filter(ring[i]) {
        assert out + ([ring[i]] + NewestOf(ring[..i], filter, k - |out| - 1)) ==
                 (out + [ring[i]]) + NewestOf(ring[..i], filter, k - |out| - 1);
        out := out + [ring[i]];
      }
    }
    assert NewestOf(ring[..i], filter, k - |out|) == [];
  }

  ghost predicate InTimeOrder(s: seq<Rec>) {
    forall i, j :: 0 <= i < j < |s| ==> s[i].ns <= s[j].ns
  }

  lemma {:induction false} FilteredHas(s: seq<Rec>, filter: Rec -> bool)
    ensures forall x :: x in Filtered(s, filter) <==> x in s && filter(x)
  {
    if s != [] {
      FilteredHas(s[..|s| - 1], filter);
      assert s == s[..|s| - 1] + [s[|s| - 1]];
    }
  }

  /** The newest record put in front of the `k - 1` newest of the others. */
  lemma NewestInFront(last: Rec, rest: seq<Rec>, f: set<Rec>, k: nat)
    requires IsTopK(rest, f, k) && last !in f
    requires forall x :: x in f ==> x.ns <= last.ns
    ensures IsTopK([last] + rest, f + {last}, k + 1)
  {
    DistinctConcat([last], rest);
  }

  lemma {:induction false} RingIsTopK(ring: seq<Rec>, filter: Rec -> bool, k: nat)
    requires InTimeOrder(Filtered(ring, filter)) && Distinct(ring)
    ensures IsTopK(NewestOf(ring, filter, k), Elements(Filtered(ring, filter)), k)
  {
    hide IsTopK, InTimeOrder;
    if ring == [] || k == 0 {
      NothingIsTopK(Elements(Filtered(ring, filter)), k);
    } else {
      var front, last := ring[..|ring| - 1], ring[|ring| - 1];
      FrontInTimeOrder(ring, filter);
      if filter(last) {
        RingIsTopK(front, filter, k - 1);
        LastIsNewest(ring, filter);
        FilteredHas(front, filter);
        assert last !in front;
        NewestInFront(last, NewestOf(front, filter, k - 1), Elements(Filtered(front, filter)), k - 1);
        assert Elements(Filtered(ring, filter)) == Elements(Filtered(front, filter)) + {last};
      } else {
        RingIsTopK(front, filter, k);
      }
    }
  }

  lemma NothingIsTopK(f: set<Rec>, k: nat)
    requires f == {} || k == 0
    ensures IsTopK([], f, k)
  {
  }

  lemma FrontInTimeOrder(ring: seq<Rec>, filter: Rec -> bool)
    requires ring != [] && InTimeOrder(Filtered(ring, filter))
    ensures InTimeOrder(Filtered(ring[..|ring| - 1], filter))
  {
    var f, g := Filtered(ring, filter), Filtered(ring[..|ring| - 1], filter);
    assert forall i :: 0 <= i < |g| ==> g[i] == f[i];
  }

  lemma {:induction false} LastIsNewest(ring: seq<Rec>, filter: Rec -> bool)
    requires ring != [] && filter(ring[|ring| - 1]) && InTimeOrder(Filtered(ring, filter))
    ensures forall x :: x in ring[..|ring| - 1] && filter(x) ==> x.ns <= ring[|ring| - 1].ns
  {
    var f, g := Filtered(ring, filter), Filtered(ring[..|ring| - 1], filter);
    FilteredHas(ring[..|ring| - 1], filter);
    forall x | x in ring[..|ring| - 1] && filter(x) ensures x.ns <= ring[|ring| - 1].ns {
      var i :| 0 <= i < |g| && g[i] == x;
      assert f[i] == x && f[|f| - 1] == ring[|ring| - 1];
    }
  }

  /** The query walks the matching records from the last to the first. */
  lemma {:induction false} NewestOfIs(ring: seq<Rec>, filter: Rec -> bool, k: nat)
    ensures var f := Filtered(ring, filter);
            && |NewestOf(ring, filter, k)| == (if |f| < k then |f| else k)
            && forall i :: 0 <= i < |NewestOf(ring, filter, k)| ==> NewestOf(ring, filter, k)[i] == f[|f| - 1 - i]
  {
    if ring != [] && k != 0 {
      NewestOfIs(ring[..|ring| - 1], filter, k - 1);
      NewestOfIs(ring[..|ring| - 1], filter, k);
    }
  }

  lemma {:induction false} FilteredFits(ring: seq<Rec>, filter: Rec -> bool)
    ensures |Filtered(ring, filter)| <= |ring|
  {
    if ring != [] {
      FilteredFits(ring[..|ring| - 1], filter);
    }
  }

  ghost predicate AnswersTopK(ring: seq<Rec>, filter: Rec -> bool, k: nat) {
    IsTopK(NewestOf(ring, filter, k), Elements(Filtered(ring, filter)), k)
  }

  /** The ring query returns the newest records for every limit exactly when the matching
      records lie in the ring in time order. */
  lemma RingQueryNeedsOrder(ring: seq<Rec>, filter: Rec -> bool)
    requires Distinct(ring)
    ensures (forall k: nat :: AnswersTopK(ring, filter, k)) <==> InTimeOrder(Filtered(ring, filter))
  {
    hide IsTopK, InTimeOrder;
    if InTimeOrder(Filtered(ring, filter)) {
      forall k: nat ensures AnswersTopK(ring, filter, k) {
        RingIsTopK(ring, filter, k);
      }
    }
    if forall k: nat :: AnswersTopK(ring, filter, k) {
      assert AnswersTopK(ring, filter, |ring|);
      TopKMeansOrdered(ring, filter);
    }
  }

  lemma {:induction false} TopKMeansOrdered(ring: seq<Rec>, filter: Rec -> bool)
    requires IsTopK(NewestOf(ring, filter, |ring|), Elements(Filtered(ring, filter)), |ring|)
    ensures InTimeOrder(Filtered(ring, filter))
  {
    NewestOfIs(ring, filter, |ring|);
    FilteredFits(ring, filter);
    ReversedOrder(Filtered(ring, filter), NewestOf(ring, filter, |ring|));
  }

  lemma ReversedOrder(f: seq<Rec>, n: seq<Rec>)
    requires |n| == |f| && forall i :: 0 <= i < |n| ==> n[i] == f[|f| - 1 - i]
    requires NewestFirstOrder(n)
    ensures InTimeOrder(f)
  {
    forall i, j | 0 <= i < j < |f| ensures f[i].ns <= f[j].ns {
      assert n[|f| - 1 - j] == f[j] && n[|f| - 1 - i] == f[i];
    }
  }

  /** The order is needed: an older record that enters the ring late hides a newer one. */
  lemma LateRecordHidesNewer(newer: Rec, older: Rec, filter: Rec -> bool)
    requires older.ns < newer.ns && filter(newer) && filter(older)
    ensures var ring := [newer, older];
            NewestOf(ring, filter, 1) == [older] && !IsTopK([older], Elements(Filtered(ring, filter)), 1)
  {
    var ring := [newer, older];
    assert ring[..1] == [newer] && NewestOf(ring[..1], filter, 0) == [];
    FilteredHas(ring, filter);
    assert newer in Elements(Filtered(ring, filter)) && older in [older];
  }

  // ---------- the archive ----------

  /** Objects whose key range misses the window are skipped; oldest first. */
  function Overlapping(objects: seq<Object>, sinceMs: int, untilMs: int): seq<Object> {
    if objects == [] then [] else
      var rest, o := Overlapping(objects[..|objects| - 1], sinceMs, untilMs), objects[|objects| - 1];
      if o.endMs < sinceMs || (untilMs > 0 && o.startMs > untilMs) then rest else rest + [o]
  }

  /** What `listOverlapping` may return: the objects that meet the window by start, those with
      equal starts in any order. */
  ghost predicate IsListing(objects: seq<Object>, sinceMs: int, untilMs: int, keys: seq<Object>) {
    multiset(keys) == multiset(Overlapping(objects, sinceMs, untilMs)) && SortedBy(keys, StartOf)
  }

  /** `listOverlapping`. */
  method ListOverlapping(objects: seq<Object>, sinceMs: int, untilMs: int) returns (out: seq<Object>)
    ensures IsListing(objects, sinceMs, untilMs, out)
  {
    out := [];
    for i := 0 to |objects|
      invariant out == Overlapping(objects[..i], sinceMs, untilMs)
    {
      assert objects[..i + 1][..i] == objects[..i];
      var o := objects[i];
      if o.endMs < sinceMs {
        continue;
      }
      if untilMs > 0 && o.startMs > untilMs {
        continue;
      }
      out := out + [o];
    }
    assert objects[..|objects|] == objects;
    StableSortPermutes(out, StartOf);
    StableSortSorted(out, StartOf);
    out := StableSort(out, StartOf);
  }

  predicate Keeps(r: Rec, sinceMs: int, untilMs: int, keep: Rec -> bool) {
    InWindow(r, sinceMs, untilMs) && keep(r)
  }

  function Kept(recs: seq<Rec>, sinceMs: int, untilMs: int, keep: Rec -> bool): seq<Rec> {
    Filtered(recs, r => Keeps(r, sinceMs, untilMs, keep))
  }

  /** `scan`: objects newest first until `limit` records are kept; `limit <= 0` reads all. */
  function Scanned(objects: seq<Object>, sinceMs: int, untilMs: int, limit: int, keep: Rec -> bool,
        kept: nat): seq<Rec> {
    if objects == [] || (limit > 0 && kept >= limit) then [] else
      var xs := Kept(objects[|objects| - 1].recs, sinceMs, untilMs, keep);
      xs + Scanned(objects[..|objects| - 1], sinceMs, untilMs, limit, keep, kept + |xs|)
  }

  /** One object decoded and fed line by line to `emit`. */
  method ScanObject(recs: seq<Rec>, sinceMs: int, untilMs: int, keep: Rec -> bool) returns (out: seq<Rec>, kept: nat)
    ensures out == Kept(recs, sinceMs, untilMs, keep) && kept == |out|
  {
    out, kept := [], 0;
    for i := 0 to |recs|
      invariant out == Kept(recs[..i], sinceMs, untilMs, keep) && kept == |out|
    {
      assert recs[..i + 1][..i] == recs[..i];
      var ms := UnixMilli(recs[i]);
      if ms < sinceMs || (untilMs > 0 && ms > untilMs) {
        continue;
      }
      if !keep(recs[i]) {
        continue;
      }
      out, kept := out + [recs[i]], kept + 1;
    }
    assert recs[..|recs|] == recs;
  }

  lemma ScannedNext(keys: seq<Object>, i: nat, sinceMs: int, untilMs: int, limit: int, keep: Rec -> bool, out: seq<Rec>)
    requires 0 < i <= |keys| && !(limit > 0 && |out| >= limit)
    ensures var xs := Kept(keys[i - 1].recs, sinceMs, untilMs, keep);
            out + Scanned(keys[..i], sinceMs, untilMs, limit, keep, |out|) ==
            (out + xs) + Scanned(keys[..i - 1], sinceMs, untilMs, limit, keep, |out + xs|)
  {
    hide Kept;
    assert keys[..i][..i - 1] == keys[..i - 1];
  }

  method Scan(objects: seq<Object>, sinceMs: int, untilMs: int, limit: int, keep: Rec -> bool)
    returns (out: seq<Rec>, keys: seq<Object>)
    ensures IsListing(objects, sinceMs, untilMs, keys)
    ensures out == Scanned(keys, sinceMs, untilMs, limit, keep, 0)
  {
    keys := ListOverlapping(objects, sinceMs, untilMs);
    out := [];
    var kept, i := 0, |keys|;
    assert keys[..i] == keys;
    while i > 0
      invariant 0 <= i <= |keys| && kept == |out|
      invariant out + Scanned(keys[..i], sinceMs, untilMs, limit, keep, kept) ==
                  Scanned(keys, sinceMs, untilMs, limit, keep, 0)
    {
      hide IsListing, Kept;
      if limit > 0 && kept >= limit {
        return;
      }
      ScannedNext(keys, i, sinceMs, untilMs, limit, keep, out);
      i := i - 1;
      var xs, n := ScanObject(keys[i].recs, sinceMs, untilMs, keep);
      out, kept := out + xs, kept + n;
    }
  }

  function CapSlice(s: seq<Rec>, limit: int): seq<Rec> {
    if limit > 0 && |s| > limit then s[..limit] else s
  }

  /** What the reader returns when its objects are listed as `keys`. */
  function Archived(keys: seq<Object>, sinceMs: int, untilMs: int, limit: int, keep: Rec -> bool): seq<Rec> {
    CapSlice(StableSort(Scanned(keys, sinceMs, untilMs, limit, keep, 0), NewestFirst), limit)
  }

  /** `Reader.Audit`, and `Reader.Events` alike. */
  method ReadArchive(objects: seq<Object>, sinceMs: int, untilMs: int, limit: int, keep: Rec -> bool)
    returns (out: seq<Rec>, keys: seq<Object>)
    ensures IsListing(objects, sinceMs, untilMs, keys)
    ensures out == Archived(keys, sinceMs, untilMs, limit, keep)
  {
    out, keys := Scan(objects, sinceMs, untilMs, limit, keep);
    out := StableSort(out, NewestFirst);
    out := CapSlice(out, limit);
  }

  // ---------- the merge ----------

  /** Archived records whose id has not been seen, first come first kept. */
  function Unseen(seen: set<string>, archived: seq<Rec>): seq<Rec>
    decreases archived
  {
    if archived == [] then [] else
      var r := archived[0];
      if r.id in seen then Unseen(seen, archived[1..]) else [r] + Unseen(seen + {r.id}, archived[1..])
  }

  function Ids(s: seq<Rec>): set<string> {
    set r | r in s :: r.id
  }

  function Merged(live: seq<Rec>, archived: seq<Rec>, limit: int): seq<Rec> {
    CapSlice(StableSort(live + Unseen(Ids(live), archived), NewestFirst), LimitOf(limit))
  }

  function CountIn(s: seq<Rec>, ids: set<string>): nat {
    if s == [] then 0 else CountIn(s[..|s| - 1], ids) + if s[|s| - 1].id in ids then 1 else 0
  }

  method IdsOf(s: seq<Rec>) returns (seen: set<string>)
    ensures seen == Ids(s)
  {
    seen := {};
    for i := 0 to |s|
      invariant seen == Ids(s[..i])
    {
      seen := seen + {s[i].id};
      assert s[..i + 1] == s[..i] + [s[i]];
    }
    assert s[..|s|] == s;
  }

  /** The second loop of `mergeAudit`: what the archive adds, and its ids. */
  method AddUnseen(ids: set<string>, archived: seq<Rec>) returns (added: seq<Rec>, fromArchive: set<string>)
    ensures added == Unseen(ids, archived) && fromArchive == Ids(added)
  {
    var seen := ids;
    added, fromArchive := [], {};
    for i := 0 to |archived|
      invariant Unseen(ids, archived) == added + Unseen(seen, archived[i..])
      invariant fromArchive == Ids(added)
    {
      var r := archived[i];
      assert archived[i..][1..] == archived[i + 1..];
      if r.id in seen {
        continue;
      }
      seen, fromArchive := seen + {r.id}, fromArchive + {r.id};
      assert added + ([r] + Unseen(seen, archived[i + 1..])) == (added + [r]) + Unseen(seen, archived[i + 1..]);
      added := added + [r];
    }
  }

  /** `mergeAudit`, and `mergeEvents` alike. */
  method Merge(live: seq<Rec>, archived: seq<Rec>, limit: int) returns (out: seq<Rec>, n: nat)
    ensures out == Merged(live, archived, limit)
    ensures n == CountIn(out, Ids(Unseen(Ids(live), archived)))
  {
    hide Unseen;
    var seen := IdsOf(live);
    var added, fromArchive := AddUnseen(seen, archived);
    out := StableSort(live + added, NewestFirst);
    out := CapSlice(out, LimitOf(limit));
    n := 0;
    for i := 0 to |out|
      invariant n == CountIn(out[..i], fromArchive)
    {
      assert out[..i + 1][..i] == out[..i];
      if out[i].id in fromArchive {
        n := n + 1;
      }
    }
    assert out[..|out|] == out;
  }

  /** `QueryAudit` and `ListEvents` past their permission checks; the archive is absent when
      it was not asked for or is not configured. */
  method Query(ring: seq<Rec>, archive: Option<seq<Object>>, sinceMs: int, untilMs: int, limit: int,
        filter: Rec -> bool)
    returns (out: seq<Rec>, n: nat, keys: seq<Object>)
    ensures archive.None? ==> out == NewestOf(ring, filter, LimitOf(limit)) && n == 0
    ensures archive.Some? ==>
              && IsListing(archive.value, sinceMs, untilMs, keys)
              && var live, archived := NewestOf(ring, filter, LimitOf(limit)),
                   Archived(keys, sinceMs, untilMs, limit, filter);
              out == Merged(live, archived, limit) && n == CountIn(out, Ids(Unseen(Ids(live), archived)))
  {
    hide IsListing, Archived;
    out := QueryRing(ring, filter, limit);
    n, keys := 0, [];
    if archive.Some? {
      var archived;
      archived, keys := ReadArchive(archive.value, sinceMs, untilMs, limit, filter);
      out, n := Merge(out, archived, limit);
    }
  }

  /** Without a limit of its own a request gets at most 100 records. */
  lemma HundredByDefault(ring: seq<Rec>, filter: Rec -> bool, limit: int)
    ensures var n, k := |Filtered(ring, filter)|, if limit > 0 then limit else 100;
            |NewestOf(ring, filter, LimitOf(limit))| == if n < k then n else k
  {
    NewestOfIs(ring, filter, LimitOf(limit));
  }
}
