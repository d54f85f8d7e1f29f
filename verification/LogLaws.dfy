/** What the log queries promise, told of times alone: the one-shot query keeps the newest lines
    within its bounds, and streaming holds no line back longer than it has to. */
module LogLaws {
  import opened Options
  import opened Sorting
  import opened LogFollow

  /** Both bounds are inclusive; one that is not given excludes nothing. */
  predicate Within(q: Query, time: int) {
    (q.since == None || q.since.value <= time) && (q.until == None || time <= q.until.value)
  }

  function CountWithin(q: Query, lines: seq<Line>): nat {
    |set i | 0 <= i < |lines| && Within(q, lines[i].time)|
  }

  lemma AtKeyOne(front: seq<Line>, l: Line, time: int)
    ensures AtKey(front + [l], LineTime, time) ==
              if l.time == time then AtKey(front, LineTime, time) + [l] else AtKey(front, LineTime, time)
  {
    assert (front + [l])[..|front|] == front;
  }

  lemma {:induction false} KeptAt(q: Query, lines: seq<Line>, time: int)
    ensures AtKey(Kept(q, lines), LineTime, time) == if Within(q, time) then AtKey(lines, LineTime, time) else []
  {
    hide AtKey;
    if lines != [] {
      var front, l := lines[..|lines| - 1], lines[|lines| - 1];
      KeptAt(q, front, time);
      AtKeyOne(Kept(q, front), l, time);
      AtKeyOne(front, l, time);
      assert lines == front + [l];
    } else {
      AtKeyNothing(time);
    }
  }

  lemma AtKeyNothing(time: int)
    ensures AtKey([], LineTime, time) == []
  {
  }

  lemma {:induction false} KeptCount(q: Query, lines: seq<Line>)
    ensures |Kept(q, lines)| == CountWithin(q, lines)
  {
    var all := set i | 0 <= i < |lines| && Within(q, lines[i].time);
    if lines == [] {
      assert all == {};
    } else {
      var n := |lines| - 1;
      KeptCount(q, lines[..n]);
      var before := set i | 0 <= i < n && Within(q, lines[..n][i].time);
      assert all == before + if Within(q, lines[n].time) then {n} else {};
    }
  }

  lemma {:induction false} AtKeyHas(s: seq<Line>, time: int, x: Line)
    ensures x in AtKey(s, LineTime, time) <==> x in s && x.time == time
  {
    AtKeyMembers(s, LineTime, time, x);
  }

  /** `t` is the end of `s`. */
  predicate IsSuffix<T(==)>(t: seq<T>, s: seq<T>) {
    |t| <= |s| && s[|s| - |t|..] == t
  }

  /** One time, when a sorted list is cut in two. */
  lemma CutAt(sorted: seq<Line>, cut: nat, time: int)
    requires cut <= |sorted| && SortedBy(sorted, LineTime)
    ensures IsSuffix(AtKey(sorted[cut..], LineTime, time), AtKey(sorted, LineTime, time))
    ensures AtKey(sorted[cut..], LineTime, time) == AtKey(sorted, LineTime, time) ||
            forall l :: l in sorted[cut..] ==> l.time >= time
  {
    var head, sent := AtKey(sorted[..cut], LineTime, time), AtKey(sorted[cut..], LineTime, time);
    assert sorted == sorted[..cut] + sorted[cut..];
    AtKeyConcat(sorted[..cut], sorted[cut..], LineTime, time);
    hide AtKey;
    if head != [] {
      assert head[0] in head;
      AtKeyHas(sorted[..cut], time, head[0]);
      var i :| 0 <= i < cut && sorted[i] == head[0];
      forall l | l in sorted[cut..] ensures l.time >= time {
        var j :| cut <= j < |sorted| && sorted[j] == l;
        assert LineTime(sorted[i]) <= LineTime(sorted[j]);
      }
    } else {
      assert AtKey(sorted, LineTime, time) == head + sent == sent;
    }
  }

  /** One time, in the answer of the one-shot query. */
  ghost predicate NewestAt(q: Query, lines: seq<Line>, sent: seq<Line>, time: int) {
    if Within(q, time) then
      && IsSuffix(AtKey(sent, LineTime, time), AtKey(lines, LineTime, time))
      && (AtKey(sent, LineTime, time) == AtKey(lines, LineTime, time) || forall l :: l in sent ==> l.time >= time)
    else AtKey(sent, LineTime, time) == []
  }

  lemma CollectAt(q: Query, lines: seq<Line>, time: int)
    ensures NewestAt(q, lines, Collected(q, lines), time)
  {
    hide StableSort, Kept, AtKey;
    var kept := Kept(q, lines);
    var sorted, sent := StableSort(kept, LineTime), Collected(q, lines);
    var cut := |sorted| - |sent|;
    assert sent == sorted[cut..];
    StableSortSorted(kept, LineTime);
    StableSortStable(kept, LineTime, time);
    KeptAt(q, lines, time);
    CutAt(sorted, cut, time);
  }

  lemma CollectFits(q: Query, lines: seq<Line>)
    ensures var sent, limit := Collected(q, lines), if q.limit == 0 then 1000 else q.limit;
            && (forall i, j :: 0 <= i < j < |sent| ==> sent[i].time <= sent[j].time)
            && |sent| == (if CountWithin(q, lines) < limit then CountWithin(q, lines) else limit)
  {
    hide StableSort, Kept;
    var sorted, sent := StableSort(Kept(q, lines), LineTime), Collected(q, lines);
    StableSortSorted(Kept(q, lines), LineTime);
    KeptCount(q, lines);
    forall i, j | 0 <= i < j < |sent| ensures sent[i].time <= sent[j].time {
      var cut := |sorted| - |sent|;
      assert sent[i] == sorted[cut + i] && sent[j] == sorted[cut + j];
      assert LineTime(sorted[cut + i]) <= LineTime(sorted[cut + j]);
    }
  }

  /** The one-shot query: sorted by time, nothing from outside the bounds, as many lines as there
      are within them up to the limit (1000 if none is given). Each time has its lines in arrival
      order, the latest of them if not all; and where a line within the bounds is left out, all
      that is sent is at least as new. */
  lemma CollectIsNewest(q: Query, lines: seq<Line>)
    ensures var sent, limit := Collected(q, lines), if q.limit == 0 then 1000 else q.limit;
            && (forall i, j :: 0 <= i < j < |sent| ==> sent[i].time <= sent[j].time)
            && |sent| == (if CountWithin(q, lines) < limit then CountWithin(q, lines) else limit)
            && (forall l :: l in sent ==> l in lines && Within(q, l.time))
            && forall time :: NewestAt(q, lines, sent, time)
  {
    hide Collected, AtKey;
    var sent := Collected(q, lines);
    CollectFits(q, lines);
    forall time ensures NewestAt(q, lines, sent, time) {
      CollectAt(q, lines, time);
    }
    forall l | l in sent ensures l in lines && Within(q, l.time) {
      AtKeyHas(sent, l.time, l);
      AtKeyHas(lines, l.time, l);
      assert NewestAt(q, lines, sent, l.time);
    }
  }

  // ---------- streaming ----------

  lemma RunNext(es: seq<Event>, e: Event)
    ensures Run(es + [e]) == Step(Run(es), e)
  {
    assert (es + [e])[..|es|] == es;
  }

  /** The lines a flush sends and keeps. */
  lemma FlushSplits(s: Session, all: bool, now: int)
    ensures var t := Flushed(s, all, now);
            && s.sent <= t.sent && t.open == s.open
            && (!all ==> forall l :: l in t.sent[|s.sent|..] <==> l in s.buf && l.time <= now - 500_000_000)
            && (!all ==> forall l :: l in t.buf <==> l in s.buf && l.time > now - 500_000_000)
            && (all ==> t.buf == [] && forall l :: l in t.sent[|s.sent|..] <==> l in s.buf)
  {
    hide StableSort;
    var sorted := StableSort(s.buf, LineTime);
    StableSortMembers(s.buf, LineTime);
    StableSortSorted(s.buf, LineTime);
    var n := Ready(sorted, all, now - REORDER_WINDOW);
    ReadySplits(sorted, n, all, now - 500_000_000);
    assert (s.sent + sorted[..n])[|s.sent|..] == sorted[..n];
    assert sorted[..|sorted|] == sorted;
  }

  /** What each event of a run sends. A line is sent by a tick exactly when it is half a second old
      by then; the end of the streams sends all; an arrival and a client that goes away send
      nothing. */
  lemma SendsInTime(es: seq<Event>, e: Event)
    requires Run(es).open
    ensures var s, t := Run(es), Run(es + [e]);
            && s.sent <= t.sent
            && (e.Arrive? ==> t == s.(buf := s.buf + [e.line]))
            && (e.Tick? ==> t.open && forall l :: l in t.buf <==> l in s.buf && l.time > e.now - 500_000_000)
            && (e.Tick? ==> forall l :: l in t.sent[|s.sent|..] <==> l in s.buf && l.time <= e.now - 500_000_000)
            && (e.Closed? ==> !t.open && t.buf == [] && forall l :: l in t.sent[|s.sent|..] <==> l in s.buf)
            && (e.Cancelled? ==> !t.open && t.sent == s.sent)
  {
    hide Flushed, Run;
    RunNext(es, e);
    match e
    case Tick(now) => FlushSplits(Run(es), false, now);
    case Closed(now) => FlushSplits(Run(es), true, now);
    case _ =>
  }

  lemma ReadySplits(sorted: seq<Line>, n: nat, all: bool, cutoff: int)
    requires SortedBy(sorted, LineTime) && n <= |sorted|
    requires forall i :: 0 <= i < n ==> all || sorted[i].time <= cutoff
    requires n < |sorted| ==> !all && cutoff < sorted[n].time
    ensures !all ==> forall l :: l in sorted[..n] <==> l in sorted && l.time <= cutoff
    ensures !all ==> forall l :: l in sorted[n..] <==> l in sorted && l.time > cutoff
    ensures all ==> n == |sorted|
  {
    forall i | n <= i < |sorted| ensures !all ==> sorted[i].time > cutoff {
      assert i > n ==> LineTime(sorted[n]) <= LineTime(sorted[i]);
    }
    forall l | l in sorted ensures l in sorted[..n] || l in sorted[n..] {
      var i :| 0 <= i < |sorted| && sorted[i] == l;
      assert if i < n then sorted[..n][i] == l else sorted[n..][i - n] == l;
    }
  }

  /** After its end a session sends nothing, whatever still comes. */
  lemma EndedStaysQuiet(es: seq<Event>, e: Event)
    requires !Run(es).open
    ensures Run(es + [e]) == Run(es)
  {
    RunNext(es, e);
  }
}
