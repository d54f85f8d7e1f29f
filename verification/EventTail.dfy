/** `events --follow`: polling the newest events with a cursor, printing each once. */
module EventTail {
  import opened Sequences
  import opened AuditQuery

  /** The state of the loop; `printed` is the output so far. */
  datatype Tail = Tail(cursorMs: int, seen: set<string>, printed: seq<Rec>)

  const START := Tail(0, {}, [])

  function Print(t: Tail, e: Rec): Tail {
    if e.id in t.seen then t else
      var ms := UnixMilli(e);
      Tail(if ms > t.cursorMs then ms else t.cursorMs,
           (if ms > t.cursorMs then {} else t.seen) + {e.id},
           t.printed + [e])
  }

  function PrintAll(t: Tail, es: seq<Rec>): Tail {
    if es == [] then t else Print(PrintAll(t, es[..|es| - 1]), es[|es| - 1])
  }

  predicate Older(r: Rec, cursorMs: int) {
    cursorMs > 0 && UnixMilli(r) < cursorMs
  }

  /** What the server checks: the request's own filter, and the cursor once there is one. */
  function Since(matches: Rec -> bool, cursorMs: int): Rec -> bool {
    r => matches(r) && !Older(r, cursorMs)
  }

  function PollOnce(t: Tail, ring: seq<Rec>, matches: Rec -> bool, limit: int): Tail {
    PrintAll(t, Reversed(NewestOf(ring, Since(matches, t.cursorMs), LimitOf(limit))))
  }

  class Follower {
    var cursorMs: int
    var seen: set<string>
    var printed: seq<Rec>
    var sinceMs: int // of the request; 0 is none beyond what `matches` holds

    function View(): Tail
      reads this
    {
      Tail(cursorMs, seen, printed)
    }

    constructor ()
      ensures View() == START && sinceMs == 0
    {
      cursorMs, seen, printed, sinceMs := 0, {}, [], 0;
    }

    /** The body of the inner loop. */
    method PrintOnce(e: Rec)
      modifies this`cursorMs, this`seen, this`printed
      ensures View() == Print(old(View()), e) && cursorMs >= old(cursorMs)
    {
      if e.id in seen {
        return;
      }
      var ms := UnixMilli(e);
      if ms > cursorMs {
        cursorMs := ms;
        seen := {};
      }
      seen := seen + {e.id};
      printed := printed + [e];
    }

    /** One turn of the loop; `ring` is what the store holds when the poll arrives. */
    method Poll(ring: seq<Rec>, matches: Rec -> bool, limit: int)
      requires sinceMs == if cursorMs > 0 then cursorMs else 0
      modifies this
      ensures View() == PollOnce(old(View()), ring, matches, limit)
      ensures sinceMs == if cursorMs > 0 then cursorMs else 0
    {
      hide Print, Since, NewestOf, Older;
      ghost var start := View();
      var events := QueryRing(ring, Since(matches, sinceMs), limit);
      SinceAgrees(matches, sinceMs, start.cursorMs, ring, LimitOf(limit));
      ghost var oldestFirst := Reversed(events);
      var i := |events|;
      while i > 0
        invariant 0 <= i <= |events| && sinceMs == old(sinceMs)
        invariant cursorMs >= old(cursorMs)
        invariant View() == PrintAll(start, oldestFirst[..|events| - i])
      {
        i := i - 1;
        var e := events[i];
        assert oldestFirst[..|events| - i][..|events| - i - 1] == oldestFirst[..|events| - i - 1];
        PrintOnce(e);
      }
      assert oldestFirst[..|events|] == oldestFirst;
      if cursorMs > 0 {
        sinceMs := cursorMs;
      }
    }
  }

  lemma {:induction false} SinceAgrees(matches: Rec -> bool, since: int, cursor: int, ring: seq<Rec>, k: nat)
    requires since == if cursor > 0 then cursor else 0
    ensures NewestOf(ring, Since(matches, since), k) == NewestOf(ring, Since(matches, cursor), k)
  {
    if ring != [] && k != 0 {
      SinceAgrees(matches, since, cursor, ring[..|ring| - 1], k - 1);
      SinceAgrees(matches, since, cursor, ring[..|ring| - 1], k);
    }
  }

  // ---------- a run of appends and polls ----------

  /** At one poll: everything appended so far, and how much of it has left the ring. */
  datatype Moment = Moment(log: seq<Rec>, dropped: nat)

  /** The log only grows and the ring only moves on; times are positive and in append order,
      ids are unique. */
  ghost predicate Run(polls: seq<Moment>) {
    && (forall i :: 0 <= i < |polls| ==> Logged(polls[i]))
    && (forall i :: 0 < i < |polls| ==> Follows(polls[i - 1], polls[i]))
  }

  ghost predicate Logged(m: Moment) {
    && m.dropped <= |m.log|
    && (forall r :: r in m.log ==> UnixMilli(r) > 0)
    && (forall i, j :: 0 <= i < j < |m.log| ==>
         UnixMilli(m.log[i]) <= UnixMilli(m.log[j]) && m.log[i].id != m.log[j].id)
  }

  ghost predicate Follows(a: Moment, b: Moment) {
    a.log <= b.log && a.dropped <= b.dropped
  }

  function Tailed(polls: seq<Moment>, matches: Rec -> bool, limit: int): Tail
    requires forall i :: 0 <= i < |polls| ==> polls[i].dropped <= |polls[i].log|
  {
    if polls == [] then START else
      var m := polls[|polls| - 1];
      PollOnce(Tailed(polls[..|polls| - 1], matches, limit), m.log[m.dropped..], matches, limit)
  }

  // ---------- what it should print ----------

  function Max(a: int, b: int): int {
    if a < b then b else a
  }

  function Matching(m: Moment, matches: Rec -> bool): seq<Rec> {
    Filtered(m.log, matches)
  }

  /** The first matching event one poll can still reach: in the ring, and among the newest. */
  function Reach(m: Moment, matches: Rec -> bool, limit: int): (lo: nat)
    requires m.dropped <= |m.log|
    ensures lo <= |Matching(m, matches)|
  {
    FilteredSplit(m.log, m.dropped, matches);
    Max(|Filtered(m.log[..m.dropped], matches)|, |Matching(m, matches)| - LimitOf(limit))
  }

  function Polled(polls: seq<Moment>, matches: Rec -> bool): nat {
    if polls == [] then 0 else |Matching(polls[|polls| - 1], matches)|
  }

  /** Each poll prints the matching events that were appended since the poll before it, less
      those already out of its reach. */
  function Expected(polls: seq<Moment>, matches: Rec -> bool, limit: int): seq<Rec>
    requires forall i :: 0 <= i < |polls| ==> polls[i].dropped <= |polls[i].log|
  {
    if polls == [] then [] else
      var front, m := polls[..|polls| - 1], polls[|polls| - 1];
      var all, from := Matching(m, matches), Max(Polled(front, matches), Reach(m, matches, limit));
      Expected(front, matches, limit) + if from <= |all| then all[from..] else []
  }

  /** A poll that skips an event no earlier poll has seen. */
  ghost predicate Cuts(polls: seq<Moment>, matches: Rec -> bool, limit: int, i: nat)
    requires i < |polls| && polls[i].dropped <= |polls[i].log|
  {
    Reach(polls[i], matches, limit) > Polled(polls[..i], matches)
  }

  // ---------- filtering a log ----------

  lemma {:induction false} FilteredConcat(a: seq<Rec>, b: seq<Rec>, f: Rec -> bool)
    ensures Filtered(a + b, f) == Filtered(a, f) + Filtered(b, f)
  {
    if b == [] {
      assert a + b == a;
    } else {
      assert (a + b)[..|a + b| - 1] == a + b[..|b| - 1];
      FilteredConcat(a, b[..|b| - 1], f);
    }
  }

  lemma FilteredSplit(s: seq<Rec>, n: nat, f: Rec -> bool)
    requires n <= |s|
    ensures |Filtered(s[..n], f)| <= |Filtered(s, f)| && Filtered(s[n..], f) == Filtered(s, f)[|Filtered(s[..n], f)|..]
  {
    assert s == s[..n] + s[n..];
    FilteredConcat(s[..n], s[n..], f);
  }

  ghost predicate MsOrdered(s: seq<Rec>) {
    forall i, j :: 0 <= i < j < |s| ==> UnixMilli(s[i]) <= UnixMilli(s[j])
  }

  ghost predicate IdsUnique(s: seq<Rec>) {
    forall i, j :: 0 <= i < j < |s| ==> s[i].id != s[j].id
  }

  lemma {:induction false} FilteredKeeps(s: seq<Rec>, f: Rec -> bool)
    requires MsOrdered(s) && IdsUnique(s)
    ensures MsOrdered(Filtered(s, f)) && IdsUnique(Filtered(s, f))
  {
    if s != [] {
      var front := s[..|s| - 1];
      FilteredKeeps(front, f);
      FilteredHas(front, f);
      var g := Filtered(front, f);
      forall i | 0 <= i < |g| ensures UnixMilli(g[i]) <= UnixMilli(s[|s| - 1]) && g[i].id != s[|s| - 1].id {
        assert g[i] in front;
      }
    }
  }

  /** In time order, the events at or after the cursor are a suffix. */
  lemma {:induction false} SinceIsSuffix(s: seq<Rec>, matches: Rec -> bool, cursor: int) returns (b: nat)
    requires MsOrdered(s)
    ensures b <= |Filtered(s, matches)| && Filtered(s, Since(matches, cursor)) == Filtered(s, matches)[b..]
    ensures forall i :: 0 <= i < b ==> Older(Filtered(s, matches)[i], cursor)
    ensures forall i :: b <= i < |Filtered(s, matches)| ==> !Older(Filtered(s, matches)[i], cursor)
  {
    if s == [] {
      b := 0;
    } else if cursor > 0 && UnixMilli(s[|s| - 1]) < cursor {
      b := |Filtered(s, matches)|;
      AllOlder(s, matches, cursor);
    } else {
      var front, last := s[..|s| - 1], s[|s| - 1];
      b := SinceIsSuffix(front, matches, cursor);
      assert matches(last) ==> (Filtered(front, matches) + [last])[b..] == Filtered(front, matches)[b..] + [last];
    }
  }

  lemma AllOlder(s: seq<Rec>, matches: Rec -> bool, cursor: int)
    requires MsOrdered(s) && s != [] && cursor > 0 && UnixMilli(s[|s| - 1]) < cursor
    ensures Filtered(s, Since(matches, cursor)) == []
    ensures forall x :: x in Filtered(s, matches) ==> UnixMilli(x) < cursor
  {
    FilteredHas(s, matches);
    forall x | x in s ensures UnixMilli(x) < cursor {
      var i :| 0 <= i < |s| && s[i] == x;
      assert i == |s| - 1 || UnixMilli(s[i]) <= UnixMilli(s[|s| - 1]);
    }
    NoneFiltered(s, Since(matches, cursor));
  }

  lemma {:induction false} NoneFiltered(s: seq<Rec>, f: Rec -> bool)
    requires forall x :: x in s ==> !f(x)
    ensures Filtered(s, f) == []
  {
    if s != [] {
      NoneFiltered(s[..|s| - 1], f);
      assert s[|s| - 1] in s;
    }
  }

  // ---------- printing ----------

  /** The loop's own state agrees with what it has printed. */
  ghost predicate Agrees(t: Tail) {
    && (t.printed == [] ==> t.cursorMs == 0 && t.seen == {})
    && (t.printed != [] ==> t.cursorMs > 0 && UnixMilli(t.printed[|t.printed| - 1]) == t.cursorMs)
    && (forall x :: x in t.printed ==> UnixMilli(x) <= t.cursorMs)
    && (forall x :: x in t.printed && UnixMilli(x) == t.cursorMs ==> x.id in t.seen)
    && (forall id :: id in t.seen ==> exists x :: x in t.printed && x.id == id)
  }

  lemma {:induction false} PrintSeen(t: Tail, es: seq<Rec>)
    requires forall e :: e in es ==> e.id in t.seen
    ensures PrintAll(t, es) == t
  {
    if es != [] {
      PrintSeen(t, es[..|es| - 1]);
      assert es[|es| - 1] in es;
    }
  }

  lemma PrintOne(t: Tail, e: Rec)
    requires Agrees(t) && UnixMilli(e) >= t.cursorMs && UnixMilli(e) > 0
    requires forall x :: x in t.printed ==> x.id != e.id
    ensures Agrees(Print(t, e)) && Print(t, e).printed == t.printed + [e] && Print(t, e).cursorMs == UnixMilli(e)
  {
    assert e.id !in t.seen;
    var t' := Print(t, e);
    assert e in t'.printed;
    forall id | id in t'.seen ensures exists x :: x in t'.printed && x.id == id {
      if id != e.id {
        var x :| x in t.printed && x.id == id;
        assert x in t'.printed;
      }
    }
  }

  /** Events not printed yet, in order, none before the cursor. */
  ghost predicate Fresh(t: Tail, es: seq<Rec>) {
    && MsOrdered(es) && IdsUnique(es)
    && (forall e :: e in es ==> UnixMilli(e) >= t.cursorMs && UnixMilli(e) > 0)
    && (forall x, e :: x in t.printed && e in es ==> x.id != e.id)
  }

  lemma {:induction false} PrintNew(t: Tail, es: seq<Rec>)
    requires Agrees(t) && Fresh(t, es)
    ensures Agrees(PrintAll(t, es)) && PrintAll(t, es).printed == t.printed + es
    ensures PrintAll(t, es).cursorMs == if es == [] then t.cursorMs else UnixMilli(es[|es| - 1])
  {
    hide Agrees, Print, Fresh;
    if es != [] {
      var front, last := es[..|es| - 1], es[|es| - 1];
      FreshFront(t, es);
      FreshLast(t, es);
      PrintNew(t, front);
      PrintOne(PrintAll(t, front), last);
    }
  }

  lemma FreshFront(t: Tail, es: seq<Rec>)
    requires Fresh(t, es) && es != []
    ensures Fresh(t, es[..|es| - 1])
  {
    FrontOrdered(es);
    var front := es[..|es| - 1];
    forall e | e in front ensures e in es {
    }
    hide MsOrdered, IdsUnique;
  }

  lemma FreshLast(t: Tail, es: seq<Rec>)
    requires Fresh(t, es) && es != []
    ensures var front, last := es[..|es| - 1], es[|es| - 1];
            && UnixMilli(last) > 0
            && UnixMilli(last) >= (if front == [] then t.cursorMs else UnixMilli(front[|front| - 1]))
            && forall x :: x in t.printed + front ==> x.id != last.id
  {
    FrontOrdered(es);
    assert es[|es| - 1] in es;
    hide MsOrdered, IdsUnique;
  }

  lemma FrontOrdered(es: seq<Rec>)
    requires MsOrdered(es) && IdsUnique(es) && es != []
    ensures var front, last := es[..|es| - 1], es[|es| - 1];
            && MsOrdered(front) && IdsUnique(front)
            && (front != [] ==> UnixMilli(front[|front| - 1]) <= UnixMilli(last))
            && forall x :: x in front ==> x.id != last.id
  {
    var front, last := es[..|es| - 1], es[|es| - 1];
    forall x | x in front ensures x.id != last.id {
      var i :| 0 <= i < |front| && front[i] == x;
      assert es[i] == x;
    }
  }

  lemma {:induction false} PrintSplit(t: Tail, a: seq<Rec>, b: seq<Rec>)
    ensures PrintAll(t, a + b) == PrintAll(PrintAll(t, a), b)
  {
    if b == [] {
      assert a + b == a;
    } else {
      assert (a + b)[..|a + b| - 1] == a + b[..|b| - 1];
      PrintSplit(t, a, b[..|b| - 1]);
    }
  }

  // ---------- one poll ----------

  /** The response, oldest first, is the part of the matching log within reach and at or after
      the cursor. */
  lemma PollSees(m: Moment, matches: Rec -> bool, limit: int, cursor: int) returns (lo: nat)
    requires m.dropped <= |m.log| && Logged(m)
    ensures Reach(m, matches, limit) <= lo <= |Matching(m, matches)|
    ensures Reversed(NewestOf(m.log[m.dropped..], Since(matches, cursor), LimitOf(limit))) == Matching(m, matches)[lo..]
    ensures forall i :: Reach(m, matches, limit) <= i < lo ==> Older(Matching(m, matches)[i], cursor)
    ensures forall i :: lo <= i < |Matching(m, matches)| ==> !Older(Matching(m, matches)[i], cursor)
  {
    hide Filtered, Logged, Since, NewestOf, MsOrdered, Older;
    var ring, all := m.log[m.dropped..], Matching(m, matches);
    FilteredSplit(m.log, m.dropped, matches);
    RingOrdered(m);
    var b := SinceIsSuffix(ring, matches, cursor);
    OldestFirst(ring, Since(matches, cursor), LimitOf(limit));
    lo := Window(all, |Filtered(m.log[..m.dropped], matches)|, b, LimitOf(limit), cursor);
  }

  lemma Window(all: seq<Rec>, gone: nat, b: nat, k: nat, cursor: int) returns (lo: nat)
    requires gone <= |all| && b <= |all[gone..]|
    requires forall i :: 0 <= i < b ==> Older(all[gone..][i], cursor)
    requires forall i :: b <= i < |all[gone..]| ==> !Older(all[gone..][i], cursor)
    ensures Max(gone, |all| - k) <= lo <= |all|
    ensures all[gone..][b..][Max(0, |all[gone..][b..]| - k)..] == all[lo..]
    ensures forall i :: Max(gone, |all| - k) <= i < lo ==> Older(all[i], cursor)
    ensures forall i :: lo <= i < |all| ==> !Older(all[i], cursor)
  {
    hide Older;
    lo := Max(gone + b, |all| - k);
    assert forall i :: gone <= i < |all| ==> all[i] == all[gone..][i - gone];
  }

  lemma RingOrdered(m: Moment)
    requires Logged(m)
    ensures MsOrdered(m.log[m.dropped..])
  {
  }

  lemma OldestFirst(ring: seq<Rec>, f: Rec -> bool, k: nat)
    ensures Reversed(NewestOf(ring, f, k)) == Filtered(ring, f)[Max(0, |Filtered(ring, f)| - k)..]
  {
    NewestOfIs(ring, f, k);
  }

  /** What holds between polls: the loop's state fits its output, the output comes from the
      first `hi` matching events, and of those within reach at or after the cursor none is
      missing from it. */
  ghost predicate Between(t: Tail, all: seq<Rec>, reach: nat, hi: nat) {
    && hi <= |all| && Agrees(t)
    && (forall x :: x in t.printed ==> x in all[..hi])
    && (forall i :: reach <= i < hi && UnixMilli(all[i]) >= t.cursorMs ==> all[i] in t.printed)
  }

  /** The next poll: the part of the response printed before is skipped, the rest is new. */
  lemma PollPrintsNew(t: Tail, all: seq<Rec>, reach: nat, hi: nat, lo: nat)
    requires Between(t, all, reach, hi) && MsOrdered(all) && IdsUnique(all)
    requires forall x :: x in all ==> UnixMilli(x) > 0
    requires reach <= lo <= |all|
    requires forall i :: reach <= i < lo ==> Older(all[i], t.cursorMs)
    requires forall i :: lo <= i < |all| ==> !Older(all[i], t.cursorMs)
    ensures var from := Max(hi, reach);
            && PrintAll(t, all[lo..]).printed == t.printed + (if from <= |all| then all[from..] else [])
            && Between(PrintAll(t, all[lo..]), all, reach, |all|)
  {
    hide Between, Agrees, MsOrdered, IdsUnique, Fresh;
    LowIsReached(t, all, reach, hi, lo);
    var cut := Max(Max(hi, reach), lo);
    assert all[lo..] == all[lo..cut] + all[cut..];
    PrintSplit(t, all[lo..cut], all[cut..]);
    OldSkipped(t, all, reach, hi, lo, cut);
    NewIsNew(t, all, reach, hi, cut);
    PrintNew(t, all[cut..]);
    AfterPoll(t, PrintAll(t, all[cut..]), all, reach, hi, cut);
  }

  lemma CursorIsPast(t: Tail, all: seq<Rec>, reach: nat, hi: nat, i: nat)
    requires Between(t, all, reach, hi) && MsOrdered(all) && hi <= i < |all|
    ensures !Older(all[i], t.cursorMs)
  {
    if t.cursorMs > 0 {
      var x := t.printed[|t.printed| - 1];
      assert x in t.printed;
      var j :| 0 <= j < hi && all[j] == x;
    }
  }

  /** The cursor never cuts off an event that was not printed. */
  lemma LowIsReached(t: Tail, all: seq<Rec>, reach: nat, hi: nat, lo: nat)
    requires Between(t, all, reach, hi) && MsOrdered(all)
    requires reach <= lo <= |all|
    requires forall i :: reach <= i < lo ==> Older(all[i], t.cursorMs)
    ensures hi <= |all| && (lo == reach || lo <= hi)
  {
    if lo > reach && lo > hi {
      CursorIsPast(t, all, reach, hi, lo - 1);
    }
  }

  lemma OldSkipped(t: Tail, all: seq<Rec>, reach: nat, hi: nat, lo: nat, cut: nat)
    requires Between(t, all, reach, hi) && reach <= lo <= cut <= |all| && (cut == lo || cut == hi)
    requires forall x :: x in all ==> UnixMilli(x) > 0
    requires forall i :: lo <= i < |all| ==> !Older(all[i], t.cursorMs)
    ensures PrintAll(t, all[lo..cut]) == t
  {
    forall e | e in all[lo..cut] ensures e.id in t.seen {
      var i :| lo <= i < cut && all[i] == e;
      assert e in all;
      OldIsSeen(t, all, reach, hi, i);
    }
    PrintSeen(t, all[lo..cut]);
  }

  lemma OldIsSeen(t: Tail, all: seq<Rec>, reach: nat, hi: nat, i: nat)
    requires Between(t, all, reach, hi) && reach <= i < hi
    requires !Older(all[i], t.cursorMs)
    requires UnixMilli(all[i]) > 0
    ensures all[i].id in t.seen
  {
    assert UnixMilli(all[i]) >= t.cursorMs;
    assert all[i] in t.printed;
  }

  lemma NewIsNew(t: Tail, all: seq<Rec>, reach: nat, hi: nat, cut: nat)
    requires hi <= cut <= |all| && Between(t, all, reach, hi) && MsOrdered(all) && IdsUnique(all)
    requires forall x :: x in all ==> UnixMilli(x) > 0
    ensures Agrees(t) && Fresh(t, all[cut..])
  {
    forall x, e | x in t.printed && e in all[cut..] ensures x.id != e.id && UnixMilli(x) <= UnixMilli(e) {
      var i :| 0 <= i < hi && all[i] == x;
      var j :| cut <= j < |all| && all[j] == e;
    }
    forall e | e in all[cut..] ensures UnixMilli(e) >= t.cursorMs && UnixMilli(e) > 0 {
      assert e in all;
      if t.printed != [] {
        assert t.printed[|t.printed| - 1] in t.printed;
      }
    }
  }

  lemma AfterPoll(t: Tail, t': Tail, all: seq<Rec>, reach: nat, hi: nat, cut: nat)
    requires Between(t, all, reach, hi) && Agrees(t') && cut == Max(hi, reach) <= |all|
    requires t'.printed == t.printed + all[cut..] && t'.cursorMs >= t.cursorMs
    ensures Between(t', all, reach, |all|)
  {
    forall i | reach <= i < |all| && UnixMilli(all[i]) >= t'.cursorMs ensures all[i] in t'.printed {
      if i < hi {
        assert all[i] in t.printed;
      } else {
        assert all[cut..][i - cut] == all[i];
      }
    }
    forall x | x in t'.printed ensures x in all {
      assert x in t.printed || x in all[cut..];
    }
    assert all[..|all|] == all;
  }

  // ---------- every run ----------

  lemma MatchingGrows(a: Moment, b: Moment, matches: Rec -> bool, limit: int)
    requires Logged(a) && Logged(b) && Follows(a, b)
    ensures Matching(a, matches) <= Matching(b, matches)
    ensures Reach(a, matches, limit) <= Reach(b, matches, limit)
  {
    FilteredPrefix(a.log, b.log, matches);
    FilteredPrefix(a.log[..a.dropped], b.log[..b.dropped], matches);
  }

  lemma FilteredPrefix(s: seq<Rec>, t: seq<Rec>, f: Rec -> bool)
    requires s <= t
    ensures Filtered(s, f) <= Filtered(t, f)
  {
    assert t == s + t[|s|..];
    FilteredConcat(s, t[|s|..], f);
  }

  lemma MatchingIsOrdered(m: Moment, matches: Rec -> bool)
    requires Logged(m)
    ensures MsOrdered(Matching(m, matches)) && IdsUnique(Matching(m, matches))
    ensures forall x :: x in Matching(m, matches) ==> UnixMilli(x) > 0
  {
    FilteredKeeps(m.log, matches);
    FilteredHas(m.log, matches);
  }

  /** Appends between two polls disturb nothing. */
  lemma BetweenAppends(t: Tail, all: seq<Rec>, all': seq<Rec>, reach: nat, reach': nat)
    requires Between(t, all, reach, |all|) && all <= all' && reach <= reach'
    ensures Between(t, all', reach', |all|)
  {
    assert all'[..|all|] == all[..|all|] == all;
  }

  lemma {:induction false} RunBetween(polls: seq<Moment>, matches: Rec -> bool, limit: int)
    requires Run(polls)
    ensures Tailed(polls, matches, limit).printed == Expected(polls, matches, limit)
    ensures polls != [] ==>
              var m := polls[|polls| - 1];
              Between(Tailed(polls, matches, limit), Matching(m, matches), Reach(m, matches, limit),
                |Matching(m, matches)|)
  {
    hide Between, Matching, Reach, PollOnce, Follows;
    if polls != [] {
      var front, m := polls[..|polls| - 1], polls[|polls| - 1];
      FrontRuns(polls);
      RunBetween(front, matches, limit);
      RunStep(polls, matches, limit, Tailed(front, matches, limit));
    }
  }

  lemma FrontRuns(polls: seq<Moment>)
    requires Run(polls) && polls != []
    ensures Run(polls[..|polls| - 1]) && Logged(polls[|polls| - 1])
    ensures |polls| > 1 ==> Logged(polls[|polls| - 2]) && Follows(polls[|polls| - 2], polls[|polls| - 1])
  {
    var front := polls[..|polls| - 1];
    forall i | 0 < i < |front| ensures Follows(front[i - 1], front[i]) {
      assert Follows(polls[i - 1], polls[i]);
    }
  }

  lemma RunStep(polls: seq<Moment>, matches: Rec -> bool, limit: int, t: Tail)
    requires Run(polls) && polls != []
    requires |polls| == 1 ==> t == START
    requires |polls| > 1 ==>
               var p := polls[|polls| - 2];
               Logged(p) && Between(t, Matching(p, matches), Reach(p, matches, limit), |Matching(p, matches)|)
    ensures var m := polls[|polls| - 1];
            Logged(m) &&
            var all, from := Matching(m, matches), Max(Polled(polls[..|polls| - 1], matches), Reach(m, matches, limit));
            var t' := PollOnce(t, m.log[m.dropped..], matches, limit);
            && t'.printed == t.printed + (if from <= |all| then all[from..] else [])
            && Between(t', all, Reach(m, matches, limit), |all|)
  {
    hide Matching, Reach, Between;
    var m := polls[|polls| - 1];
    FrontRuns(polls);
    var all, reach, hi := Matching(m, matches), Reach(m, matches, limit), Polled(polls[..|polls| - 1], matches);
    if |polls| > 1 {
      var p := polls[|polls| - 2];
      MatchingGrows(p, m, matches, limit);
      BetweenAppends(t, Matching(p, matches), all, Reach(p, matches, limit), reach);
    } else {
      StartIsBetween(all, reach);
    }
    MatchingIsOrdered(m, matches);
    var lo := PollSees(m, matches, limit, t.cursorMs);
    PollPrintsNew(t, all, reach, hi, lo);
  }

  lemma StartIsBetween(all: seq<Rec>, reach: nat)
    ensures Between(START, all, reach, 0)
  {
  }

  // ---------- each event once ----------

  /** `a` comes out of `b` by leaving elements out. */
  ghost predicate InOrder(a: seq<Rec>, b: seq<Rec>) {
    a == [] || (b != [] &&
      ((a[|a| - 1] == b[|b| - 1] && InOrder(a[..|a| - 1], b[..|b| - 1])) || InOrder(a, b[..|b| - 1])))
  }

  lemma {:induction false} InOrderLonger(a: seq<Rec>, b: seq<Rec>, c: seq<Rec>)
    requires InOrder(a, b)
    ensures InOrder(a, b + c)
  {
    if c == [] {
      assert b + c == b;
    } else {
      InOrderLonger(a, b, c[..|c| - 1]);
      assert (b + c)[..|b + c| - 1] == b + c[..|c| - 1];
    }
  }

  lemma {:induction false} InOrderBoth(a: seq<Rec>, b: seq<Rec>, c: seq<Rec>)
    requires InOrder(a, b)
    ensures InOrder(a + c, b + c)
  {
    if c == [] {
      assert b + c == b && a + c == a;
    } else {
      InOrderBoth(a, b, c[..|c| - 1]);
      assert (b + c)[..|b + c| - 1] == b + c[..|c| - 1];
      assert (a + c)[..|a + c| - 1] == a + c[..|c| - 1];
    }
  }

  lemma {:induction false} InOrderUnique(a: seq<Rec>, b: seq<Rec>)
    requires InOrder(a, b) && IdsUnique(b)
    ensures IdsUnique(a) && forall x :: x in a ==> x in b
    decreases |b|
  {
    if a != [] {
      var front, last := b[..|b| - 1], b[|b| - 1];
      assert b == front + [last];
      if a[|a| - 1] == last && InOrder(a[..|a| - 1], front) {
        InOrderUnique(a[..|a| - 1], front);
        LastIsApart(b);
        assert a == a[..|a| - 1] + [last];
      } else {
        InOrderUnique(a, front);
      }
    }
  }

  lemma LastIsApart(b: seq<Rec>)
    requires b != [] && IdsUnique(b)
    ensures forall x :: x in b[..|b| - 1] ==> x.id != b[|b| - 1].id
  {
  }

  ghost predicate NoneCut(polls: seq<Moment>, matches: Rec -> bool, limit: int)
    requires forall i :: 0 <= i < |polls| ==> polls[i].dropped <= |polls[i].log|
  {
    forall i :: 0 <= i < |polls| ==> !Cuts(polls, matches, limit, i)
  }

  lemma NoneCutFront(polls: seq<Moment>, matches: Rec -> bool, limit: int)
    requires Run(polls) && polls != []
    ensures NoneCut(polls, matches, limit) <==>
              NoneCut(polls[..|polls| - 1], matches, limit) && !Cuts(polls, matches, limit, |polls| - 1)
  {
    var front := polls[..|polls| - 1];
    forall i | 0 <= i < |front| ensures Cuts(front, matches, limit, i) <==> Cuts(polls, matches, limit, i) {
      assert front[..i] == polls[..i];
    }
    if NoneCut(polls, matches, limit) {
      forall i | 0 <= i < |front| ensures !Cuts(front, matches, limit, i) {
        assert !Cuts(polls, matches, limit, i);
      }
    }
  }

  lemma {:induction false} ExpectedIs(polls: seq<Moment>, matches: Rec -> bool, limit: int)
    requires Run(polls) && polls != []
    ensures InOrder(Expected(polls, matches, limit), Matching(polls[|polls| - 1], matches))
    ensures |Expected(polls, matches, limit)| <= Polled(polls, matches)
    ensures |Expected(polls, matches, limit)| == Polled(polls, matches) <==> NoneCut(polls, matches, limit)
  {
    hide InOrder, Matching, Reach, NoneCut, Follows;
    var front, m := polls[..|polls| - 1], polls[|polls| - 1];
    var all, hi := Matching(m, matches), Polled(front, matches);
    FrontRuns(polls);
    NoneCutFront(polls, matches, limit);
    if front == [] {
      NothingInOrder(front, matches, limit);
    } else {
      ExpectedIs(front, matches, limit);
      MatchingGrows(polls[|polls| - 2], m, matches, limit);
      assert all[..hi] == Matching(front[|front| - 1], matches);
    }
    assert InOrder(Expected(front, matches, limit), all[..hi]);
    InOrderStep(Expected(front, matches, limit), all, hi, Max(hi, Reach(m, matches, limit)));
  }

  lemma InOrderStep(a: seq<Rec>, all: seq<Rec>, hi: nat, from: nat)
    requires hi <= from <= |all| && InOrder(a, all[..hi])
    ensures InOrder(a + all[from..], all)
  {
    hide InOrder;
    assert all[..from] == all[..hi] + all[hi..from];
    InOrderLonger(a, all[..hi], all[hi..from]);
    InOrderBoth(a, all[..from], all[from..]);
    assert all == all[..from] + all[from..];
  }

  lemma NothingInOrder(front: seq<Moment>, matches: Rec -> bool, limit: int)
    requires front == []
    ensures InOrder([], []) && NoneCut(front, matches, limit)
  {
  }

  lemma {:induction false} WholeInOrder(a: seq<Rec>, b: seq<Rec>)
    requires InOrder(a, b)
    ensures |a| <= |b| && (|a| == |b| <==> a == b)
    decreases |b|
  {
    if a != [] {
      if a[|a| - 1] == b[|b| - 1] && InOrder(a[..|a| - 1], b[..|b| - 1]) {
        WholeInOrder(a[..|a| - 1], b[..|b| - 1]);
        assert a == a[..|a| - 1] + [a[|a| - 1]] && b == b[..|b| - 1] + [b[|b| - 1]];
      } else {
        WholeInOrder(a, b[..|b| - 1]);
      }
    }
  }

  /** Over every run of appends and polls, whatever has left the ring and whatever the limit:
      the output is the matching events that were new and within reach at each poll, in append
      order, none twice; and it is all of them exactly when no poll was cut short of an event
      not yet seen. */
  lemma TailPrintsEachOnce(polls: seq<Moment>, matches: Rec -> bool, limit: int)
    requires Run(polls) && polls != []
    ensures var printed, all := Tailed(polls, matches, limit).printed, Matching(polls[|polls| - 1], matches);
            && printed == Expected(polls, matches, limit)
            && InOrder(printed, all) && IdsUnique(printed)
            && (printed == all <==> NoneCut(polls, matches, limit))
  {
    hide InOrder, Expected, Tailed, NoneCut;
    var m := polls[|polls| - 1];
    RunBetween(polls, matches, limit);
    ExpectedIs(polls, matches, limit);
    FrontRuns(polls);
    MatchingIsOrdered(m, matches);
    InOrderUnique(Expected(polls, matches, limit), Matching(m, matches));
    WholeInOrder(Expected(polls, matches, limit), Matching(m, matches));
  }
}
