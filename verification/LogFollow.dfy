/** `zt logs`: the one-shot merge (`collect`) and the streaming merge (`follow`) of the
    log lines of several nodes. Times are nanoseconds. */
module LogFollow {
  import opened Options
  import opened Sorting

  const REORDER_WINDOW := 500_000_000
  const DEFAULT_LOG_LIMIT := 1000

  datatype Line = Line(time: int, text: string)

  function LineTime(l: Line): int { l.time }

  // ---------- follow: the specification ----------

  /** What the select loop of `follow` can receive; `now` is the clock when it does. */
  datatype Event =
    | Arrive(line: Line, now: int)
    | Tick(now: int)
    | Closed(now: int)    // every node stream ended
    | Cancelled(now: int) // the client went away

  datatype Session = Session(buf: seq<Line>, sent: seq<Line>, open: bool)

  /** How many leading lines of `buf` the flush loop sends. */
  function Ready(buf: seq<Line>, all: bool, cutoff: int): (n: nat)
    ensures n <= |buf|
    ensures forall i :: 0 <= i < n ==> all || buf[i].time <= cutoff
    ensures n < |buf| ==> !all && cutoff < buf[n].time
  {
    if buf == [] || (!all && cutoff < buf[0].time) then 0 else 1 + Ready(buf[1..], all, cutoff)
  }

  lemma ReadyIs(buf: seq<Line>, all: bool, cutoff: int, n: nat)
    requires n <= |buf| && (forall i :: 0 <= i < n ==> all || buf[i].time <= cutoff)
    requires n < |buf| ==> !all && cutoff < buf[n].time
    ensures Ready(buf, all, cutoff) == n
  {
  }

  function Flushed(s: Session, all: bool, now: int): Session {
    var sorted := StableSort(s.buf, LineTime);
    var n := Ready(sorted, all, now - REORDER_WINDOW);
    s.(sent := s.sent + sorted[..n], buf := sorted[n..])
  }

  function Step(s: Session, e: Event): Session {
    if !s.open then s else
    match e
    case Arrive(line, _) => s.(buf := s.buf + [line])
    case Tick(now) => Flushed(s, false, now)
    case Closed(now) => Flushed(s, true, now).(open := false)
    case Cancelled(_) => s.(open := false)
  }

  function Run(es: seq<Event>): Session {
    if es == [] then Session([], [], true) else Step(Run(es[..|es| - 1]), es[|es| - 1])
  }

  /** The lines the loop took from the channel, in that order. */
  function Received(es: seq<Event>): seq<Line> {
    if es == [] then [] else
      var front, e := es[..|es| - 1], es[|es| - 1];
      if Run(front).open && e.Arrive? then Received(front) + [e.line] else Received(front)
  }

  /** What would have been sent if the session were closed now. */
  function Ahead(s: Session): seq<Line> {
    s.sent + StableSort(s.buf, LineTime)
  }

  // ---------- follow: properties of every run ----------

  lemma SplitAhead(s: seq<Line>, sorted: seq<Line>, n: nat)
    requires n <= |sorted| && SortedBy(sorted, LineTime)
    ensures (s + sorted[..n]) + StableSort(sorted[n..], LineTime) == s + sorted
  {
    TailIsFixed(sorted, n, LineTime);
    assert sorted == sorted[..n] + sorted[n..];
  }

  lemma FlushKeepsAhead(s: Session, all: bool, now: int)
    ensures Ahead(Flushed(s, all, now)) == Ahead(s)
    ensures s.sent <= Flushed(s, all, now).sent
    ensures all ==> Flushed(s, all, now).buf == []
  {
    var sorted := StableSort(s.buf, LineTime);
    StableSortSorted(s.buf, LineTime);
    SplitAhead(s.sent, sorted, Ready(sorted, all, now - REORDER_WINDOW));
  }

  lemma StepKeepsOrderAtKeys(s: Session, received: seq<Line>, line: Line)
    requires SameOrderAtKeys(Ahead(s), received, LineTime)
    ensures SameOrderAtKeys(Ahead(s.(buf := s.buf + [line])), received + [line], LineTime)
  {
    var t := s.(buf := s.buf + [line]);
    forall k ensures AtKey(Ahead(t), LineTime, k) == AtKey(received + [line], LineTime, k) {
      assert AtKey(Ahead(s), LineTime, k) == AtKey(received, LineTime, k);
      AtKeyConcat(s.sent, StableSort(s.buf, LineTime), LineTime, k);
      AtKeyConcat(s.sent, StableSort(t.buf, LineTime), LineTime, k);
      StableSortStable(s.buf, LineTime, k);
      StableSortStable(t.buf, LineTime, k);
      AtKeyConcat(s.buf, [line], LineTime, k);
      AtKeyConcat(received, [line], LineTime, k);
    }
  }

  /** In every run, whatever the clock does, lines of equal time keep their arrival order
      and no line is lost or repeated. */
  lemma {:induction false} RunIsStable(es: seq<Event>)
    ensures SameOrderAtKeys(Ahead(Run(es)), Received(es), LineTime)
  {
    if es != [] {
      var front, e := es[..|es| - 1], es[|es| - 1];
      RunIsStable(front);
      var s := Run(front);
      if s.open {
        match e
        case Arrive(line, _) => StepKeepsOrderAtKeys(s, Received(front), line);
        case Tick(now) => FlushKeepsAhead(s, false, now);
        case Closed(now) => FlushKeepsAhead(s, true, now);
        case Cancelled(_) =>
      }
    }
  }

  lemma FlushLosesNothing(s: Session, all: bool, now: int)
    ensures multiset(Flushed(s, all, now).sent) + multiset(Flushed(s, all, now).buf) ==
            multiset(s.sent) + multiset(s.buf)
  {
    var sorted := StableSort(s.buf, LineTime);
    StableSortPermutes(s.buf, LineTime);
    var n := Ready(sorted, all, now - REORDER_WINDOW);
    assert sorted == sorted[..n] + sorted[n..];
  }

  lemma {:induction false} RunLosesNothing(es: seq<Event>)
    ensures multiset(Run(es).sent) + multiset(Run(es).buf) == multiset(Received(es))
  {
    if es != [] {
      var front, e := es[..|es| - 1], es[|es| - 1];
      RunLosesNothing(front);
      var s := Run(front);
      if s.open {
        match e
        case Arrive(line, _) =>
        case Tick(now) => FlushLosesNothing(s, false, now);
        case Closed(now) => FlushLosesNothing(s, true, now);
        case Cancelled(_) =>
      }
    }
  }

  /** No line arrived with a time before that of a line already sent. */
  predicate NoStragglers(es: seq<Event>) {
    es == [] ||
    var front, e := es[..|es| - 1], es[|es| - 1];
    var s := Run(front);
    NoStragglers(front) &&
    (s.open && e.Arrive? && s.sent != [] ==> s.sent[|s.sent| - 1].time <= e.line.time)
  }

  lemma AheadSorted(s: Session)
    ensures SortedBy(Ahead(s), LineTime) <==>
            SortedBy(s.sent, LineTime) && (forall x, y :: x in s.sent && y in s.buf ==> LineTime(x) <= LineTime(y))
  {
    StableSortSorted(s.buf, LineTime);
    StableSortMembers(s.buf, LineTime);
    SortedConcat(s.sent, StableSort(s.buf, LineTime), LineTime);
  }

  lemma ArriveKeepsSorted(s: Session, line: Line)
    ensures SortedBy(Ahead(s.(buf := s.buf + [line])), LineTime) <==>
            SortedBy(Ahead(s), LineTime) && (s.sent != [] ==> s.sent[|s.sent| - 1].time <= line.time)
  {
    AheadSorted(s);
    AheadSorted(s.(buf := s.buf + [line]));
    if s.sent != [] && SortedBy(s.sent, LineTime) {
      var last := s.sent[|s.sent| - 1];
      assert last in s.sent && line in s.buf + [line];
      forall x | x in s.sent ensures LineTime(x) <= LineTime(last) {
        var i :| 0 <= i < |s.sent| && s.sent[i] == x;
      }
    }
    assert forall y :: y in s.buf ==> y in s.buf + [line];
  }

  lemma {:induction false} SortedIffNoStragglers(es: seq<Event>)
    ensures SortedBy(Ahead(Run(es)), LineTime) <==> NoStragglers(es)
  {
    if es != [] {
      var front, e := es[..|es| - 1], es[|es| - 1];
      SortedIffNoStragglers(front);
      var s := Run(front);
      if s.open {
        match e
        case Arrive(line, _) => ArriveKeepsSorted(s, line);
        case Tick(now) => FlushKeepsAhead(s, false, now);
        case Closed(now) => FlushKeepsAhead(s, true, now);
        case Cancelled(_) =>
      }
    }
  }

  /** Exactly when streaming refines sorting: what has been sent, followed by what is still
      buffered, is the stable sort by time of everything received, if and only if no
      straggler arrived. Then what was sent so far is a prefix of that sort, and all of it
      once the node streams have closed. */
  lemma FollowSortsIffNoStragglers(es: seq<Event>)
    ensures Ahead(Run(es)) == StableSort(Received(es), LineTime) <==> NoStragglers(es)
    ensures NoStragglers(es) ==> Run(es).sent <= StableSort(Received(es), LineTime)
    ensures es != [] && Run(es[..|es| - 1]).open && es[|es| - 1].Closed? ==>
              (Run(es).sent == StableSort(Received(es), LineTime) <==> NoStragglers(es))
  {
    RunIsStable(es);
    SortedIffNoStragglers(es);
    if NoStragglers(es) {
      IsStableSort(Received(es), Ahead(Run(es)), LineTime);
    } else {
      StableSortSorted(Received(es), LineTime);
    }
    if es != [] && Run(es[..|es| - 1]).open && es[|es| - 1].Closed? {
      FlushKeepsAhead(Run(es[..|es| - 1]), true, es[|es| - 1].now);
    }
  }

  // ---------- punctual runs ----------

  /** The clock never goes back and every line is dequeued at most the reorder window after
      its timestamp. */
  ghost predicate Punctual(es: seq<Event>) {
    && (forall i, j :: 0 <= i < j < |es| ==> es[i].now <= es[j].now)
    && (forall i :: 0 <= i < |es| && es[i].Arrive? ==> es[i].now - REORDER_WINDOW <= es[i].line.time)
  }

  lemma {:induction false} SentIsOld(es: seq<Event>, now: int)
    requires Punctual(es) && (forall i :: 0 <= i < |es| ==> es[i].now <= now)
    requires Run(es).open
    ensures forall l :: l in Run(es).sent ==> l.time <= now - REORDER_WINDOW
  {
    if es != [] {
      var front, e := es[..|es| - 1], es[|es| - 1];
      SentIsOld(front, now);
    }
  }

  lemma {:induction false} PunctualHasNoStragglers(es: seq<Event>)
    requires Punctual(es)
    ensures NoStragglers(es)
  {
    if es != [] {
      var front, e := es[..|es| - 1], es[|es| - 1];
      PunctualHasNoStragglers(front);
      if Run(front).open {
        SentIsOld(front, e.now);
      }
    }
  }

  /** In a punctual run that ends because the node streams ended, `follow` sends exactly the
      stable sort by time of all lines received. */
  lemma PunctualFollowSorts(es: seq<Event>)
    requires Punctual(es) && es != []
    requires Run(es[..|es| - 1]).open && es[|es| - 1].Closed?
    ensures Run(es).sent == StableSort(Received(es), LineTime)
  {
    PunctualHasNoStragglers(es);
    FollowSortsIffNoStragglers(es);
  }

  // ---------- collect: the one-shot form ----------

  datatype Query = Query(since: Option<int>, until: Option<int>, limit: nat)

  predicate InWindow(q: Query, l: Line) {
    && (q.since.Some? ==> q.since.value <= l.time)
    && (q.until.Some? ==> l.time <= q.until.value)
  }

  function Kept(q: Query, lines: seq<Line>): (r: seq<Line>)
    ensures |r| <= |lines|
  {
    if lines == [] then [] else
      var front, l := lines[..|lines| - 1], lines[|lines| - 1];
      if InWindow(q, l) then Kept(q, front) + [l] else Kept(q, front)
  }

  function Collected(q: Query, lines: seq<Line>): seq<Line> {
    var sorted := StableSort(Kept(q, lines), LineTime);
    var limit := if q.limit == 0 then DEFAULT_LOG_LIMIT else q.limit;
    if |sorted| > limit then sorted[|sorted| - limit..] else sorted
  }

  /** `filterByTime`: compacts the slice in place and returns the length kept. */
  method FilterByTime(lines: array<Line>, q: Query) returns (n: nat)
    modifies lines
    ensures n <= lines.Length
    ensures lines[..n] == Kept(q, old(lines[..]))
  {
    n := 0;
    ghost var was := lines[..];
    for i := 0 to lines.Length
      invariant n <= i
      invariant lines[..n] == Kept(q, was[..i])
      invariant lines[i..] == was[i..]
    {
      assert was[..i + 1][..i] == was[..i];
      assert lines[i] == lines[i..][0] == was[i];
      if InWindow(q, lines[i]) {
        lines[n] := lines[i];
        n := n + 1;
      }
      assert lines[i + 1..] == was[i..][1..];
    }
    assert was[..lines.Length] == was;
  }

  /** `collect`, after every node stream was drained into `lines`. */
  method Collect(lines: array<Line>, q: Query) returns (sent: seq<Line>)
    modifies lines
    ensures sent == Collected(q, old(lines[..]))
  {
    var n := FilterByTime(lines, q);
    sent := StableSort(lines[..n], LineTime);
    var limit := q.limit;
    if limit == 0 {
      limit := DEFAULT_LOG_LIMIT;
    }
    if |sent| > limit {
      sent := sent[|sent| - limit..];
    }
  }

  lemma {:induction false} WideWindowKeepsAll(q: Query, lines: seq<Line>)
    requires forall l :: l in lines ==> InWindow(q, l)
    ensures Kept(q, lines) == lines
  {
    if lines != [] {
      assert lines[|lines| - 1] in lines;
      WideWindowKeepsAll(q, lines[..|lines| - 1]);
    }
  }

  /** A punctual `follow` sends what `collect` would have sent for the same arrivals, as long
      as they all lie in the window and the limit does not cut them. */
  lemma FollowMatchesCollect(es: seq<Event>, q: Query)
    requires Punctual(es) && es != []
    requires Run(es[..|es| - 1]).open && es[|es| - 1].Closed?
    requires forall l :: l in Received(es) ==> InWindow(q, l)
    requires |Received(es)| <= if q.limit == 0 then DEFAULT_LOG_LIMIT else q.limit
    ensures Run(es).sent == Collected(q, Received(es))
  {
    WideWindowKeepsAll(q, Received(es));
    PunctualFollowSorts(es);
  }

  // ---------- follow: the loop ----------

  class Follower {
    var buf: seq<Line>
    var sent: seq<Line>
    var open: bool

    ghost function View(): Session reads this { Session(buf, sent, open) }

    constructor ()
      ensures View() == Session([], [], true)
    {
      buf, sent, open := [], [], true;
    }

    method Flush(all: bool, now: int)
      modifies this
      ensures View() == old(Flushed(View(), all, now))
    {
      hide StableSort, Ready;
      buf := StableSort(buf, LineTime);
      ghost var sorted, before := buf, sent;
      var cutoff := now - REORDER_WINDOW;
      var i := 0;
      while i < |buf| && (all || buf[i].time <= cutoff)
        invariant i <= |buf| && buf == sorted && open == old(open)
        invariant sent == before + sorted[..i]
        invariant forall j :: 0 <= j < i ==> all || sorted[j].time <= cutoff
      {
        sent := sent + [buf[i]];
        i := i + 1;
      }
      ReadyIs(sorted, all, cutoff, i);
      buf := buf[i..];
    }

    method Follow(events: seq<Event>)
      requires View() == Session([], [], true)
      modifies this
      ensures View() == Run(events)
    {
      var k := 0;
      while k < |events|
        invariant k <= |events|
        invariant View() == Run(events[..k])
      {
        assert events[..k + 1][..k] == events[..k];
        if open {
          match events[k] {
            case Arrive(line, _) => buf := buf + [line];
            case Tick(now) => Flush(false, now);
            case Closed(now) => Flush(true, now); open := false;
            case Cancelled(_) => open := false;
          }
        }
        k := k + 1;
      }
      assert events[..k] == events;
    }
  }
}
