/** `events --follow` when events enter the log out of time order, as ids and times are taken
    before the replication round trip: what is then printed twice, and what never. */
module EventTailLate {
  import opened Sequences
  import opened AuditQuery
  import opened EventTail

  /** As `EventTail.Logged`, in any order of times. */
  ghost predicate Appended(m: Moment) {
    m.dropped <= |m.log| && IdsUnique(m.log) && forall r :: r in m.log ==> UnixMilli(r) > 0
  }

  ghost predicate AnyRun(polls: seq<Moment>) {
    && (forall i :: 0 <= i < |polls| ==> Appended(polls[i]))
    && (forall i :: 0 < i < |polls| ==> Follows(polls[i - 1], polls[i]))
  }

  /** What a poll is answered with, oldest first. */
  function Response(t: Tail, m: Moment, matches: Rec -> bool, limit: int): seq<Rec>
    requires m.dropped <= |m.log|
  {
    Reversed(NewestOf(m.log[m.dropped..], Since(matches, t.cursorMs), LimitOf(limit)))
  }

  // ---------- one response ----------

  /** An event past the cursor comes before `n`. */
  predicate Past(t: Tail, es: seq<Rec>, n: nat)
    requires n <= |es|
  {
    exists a :: 0 <= a < n && UnixMilli(es[a]) > t.cursorMs
  }

  /** The response holds an event printed before, behind one past the cursor: by then the loop
      has forgotten it. */
  ghost predicate Reprints(t: Tail, es: seq<Rec>) {
    exists b :: 0 <= b < |es| && es[b].id in t.seen && Past(t, es, b)
  }

  /** What the loop prints of a response. */
  function Shown(t: Tail, es: seq<Rec>): seq<Rec> {
    if es == [] then [] else
      var n := |es| - 1;
      Shown(t, es[..n]) + if es[n].id in t.seen && !Past(t, es, n) then [] else [es[n]]
  }

  function Ids(es: seq<Rec>): set<string> {
    set e | e in es :: e.id
  }

  /** Nothing in the response is before the cursor, and of it only events at the cursor are
      remembered. */
  ghost predicate AtOrAfter(t: Tail, es: seq<Rec>) {
    forall e :: e in es ==>
      UnixMilli(e) >= t.cursorMs && UnixMilli(e) > 0 && (e.id in t.seen ==> UnixMilli(e) == t.cursorMs)
  }

  /** The cursor is the latest time printed; all that was printed with that time is remembered. */
  ghost predicate Tracks(t: Tail) {
    && (forall x :: x in t.printed ==> UnixMilli(x) <= t.cursorMs)
    && (forall x :: x in t.printed && UnixMilli(x) == t.cursorMs ==> x.id in t.seen)
    && (forall id :: id in t.seen ==> exists x :: x in t.printed && x.id == id)
    && t.cursorMs >= 0 && (t.cursorMs == 0 ==> t.printed == [])
  }

  lemma UniqueFront(es: seq<Rec>)
    requires es != [] && IdsUnique(es)
    ensures IdsUnique(es[..|es| - 1]) && es[|es| - 1].id !in Ids(es[..|es| - 1])
  {
    LastIsApart(es);
  }

  lemma PastFront(t: Tail, es: seq<Rec>, n: nat)
    requires n <= |es| - 1
    ensures Past(t, es[..|es| - 1], n) == Past(t, es, n)
    ensures Past(t, es, n + 1) <==> Past(t, es, n) || UnixMilli(es[n]) > t.cursorMs
  {
    var front := es[..|es| - 1];
    if a :| 0 <= a < n && UnixMilli(es[a]) > t.cursorMs {
      assert front[a] == es[a];
    }
    if Past(t, es, n + 1) {
      var a :| 0 <= a < n + 1 && UnixMilli(es[a]) > t.cursorMs;
      assert a == n || Past(t, es, n);
    }
  }

  /** The loop over a response: as long as no event is past the cursor it remembers all it has
      seen; after that, only ids of this response. */
  lemma {:induction false} PrintAllShows(t: Tail, es: seq<Rec>)
    requires AtOrAfter(t, es) && IdsUnique(es)
    ensures var u := PrintAll(t, es);
            && u.printed == t.printed + Shown(t, es) && u.cursorMs >= t.cursorMs
            && (forall e :: e in es ==> UnixMilli(e) <= u.cursorMs)
            && (if Past(t, es, |es|) then u.seen <= Ids(es) && u.cursorMs > t.cursorMs
                else u.seen == t.seen + Ids(es) && u.cursorMs == t.cursorMs)
            && (u.cursorMs > t.cursorMs ==> exists e :: e in es && UnixMilli(e) == u.cursorMs)
            && (forall e :: e in es && UnixMilli(e) == u.cursorMs ==> e.id in u.seen)
  {
    hide IdsUnique;
    if es != [] {
      var front, last := es[..|es| - 1], es[|es| - 1];
      UniqueFront(es);
      assert es == front + [last];
      PrintAllShows(t, front);
      PastFront(t, es, |es| - 1);
    }
  }

  // ---------- one poll ----------

  lemma {:induction false} FilteredUnique(s: seq<Rec>, f: Rec -> bool)
    requires IdsUnique(s)
    ensures IdsUnique(Filtered(s, f))
  {
    if s != [] {
      var front := s[..|s| - 1];
      FilteredUnique(front, f);
      FilteredHas(front, f);
      LastIsApart(s);
      var g := Filtered(front, f);
      forall i | 0 <= i < |g| ensures g[i].id != s[|s| - 1].id {
        assert g[i] in front;
      }
    }
  }

  lemma UniqueIdentifies(s: seq<Rec>, x: Rec, y: Rec)
    requires IdsUnique(s) && x in s && y in s && x.id == y.id
    ensures x == y
  {
    var i :| 0 <= i < |s| && s[i] == x;
    var j :| 0 <= j < |s| && s[j] == y;
  }

  lemma UniqueSuffix(s: seq<Rec>, n: nat)
    requires n <= |s| && IdsUnique(s)
    ensures IdsUnique(s[n..]) && forall x :: x in s[n..] ==> x in s
  {
  }

  lemma ResponseHas(t: Tail, m: Moment, matches: Rec -> bool, limit: int)
    requires Appended(m)
    ensures var es := Response(t, m, matches, limit);
            IdsUnique(es) && forall e :: e in es ==> e in m.log && Since(matches, t.cursorMs)(e)
  {
    hide Older, NewestOf, Since, IdsUnique, Reversed, Filtered;
    var ring, f := m.log[m.dropped..], Since(matches, t.cursorMs);
    UniqueSuffix(m.log, m.dropped);
    OldestFirst(ring, f, LimitOf(limit));
    FilteredHas(ring, f);
    FilteredUnique(ring, f);
    var all := Filtered(ring, f);
    UniqueSuffix(all, Max(0, |all| - LimitOf(limit)));
  }

  lemma ResponseIsAtOrAfter(t: Tail, m: Moment, matches: Rec -> bool, limit: int)
    requires Appended(m) && Tracks(t) && forall x :: x in t.printed ==> x in m.log
    ensures IdsUnique(Response(t, m, matches, limit)) && AtOrAfter(t, Response(t, m, matches, limit))
    ensures forall e :: e in Response(t, m, matches, limit) ==> e in m.log && matches(e)
  {
    var es := Response(t, m, matches, limit);
    hide Response, IdsUnique;
    ResponseHas(t, m, matches, limit);
    forall e | e in es && e.id in t.seen ensures UnixMilli(e) == t.cursorMs {
      var x :| x in t.printed && x.id == e.id;
      UniqueIdentifies(m.log, x, e);
    }
  }

  lemma {:induction false} ShownHas(t: Tail, es: seq<Rec>)
    requires IdsUnique(es)
    ensures IdsUnique(Shown(t, es)) && forall e :: e in Shown(t, es) ==> e in es
    ensures forall e :: e in es && e.id !in t.seen ==> e in Shown(t, es)
    ensures (exists e :: e in Shown(t, es) && e.id in t.seen) <==> Reprints(t, es)
  {
    if es != [] {
      var n := |es| - 1;
      var front := es[..n];
      UniqueFront(es);
      assert es == front + [es[n]];
      ShownHas(t, front);
      ReprintsFront(t, es);
      ShownLast(t, es);
    }
  }

  lemma ShownLast(t: Tail, es: seq<Rec>)
    requires es != [] && IdsUnique(es)
    requires var f := Shown(t, es[..|es| - 1]);
             IdsUnique(f) && forall e :: e in f ==> e in es[..|es| - 1]
    ensures IdsUnique(Shown(t, es))
  {
    UniqueFront(es);
    var f := Shown(t, es[..|es| - 1]);
    forall i | 0 <= i < |f| ensures f[i].id != es[|es| - 1].id {
      assert f[i] in f;
    }
  }

  lemma ReprintsFront(t: Tail, es: seq<Rec>)
    requires es != []
    ensures var n := |es| - 1;
            Reprints(t, es) <==> Reprints(t, es[..n]) || (es[n].id in t.seen && Past(t, es, n))
  {
    var n := |es| - 1;
    var front := es[..n];
    forall b | 0 <= b < n ensures Past(t, front, b) == Past(t, es, b) && front[b] == es[b] {
      PastFront(t, es, b);
    }
    hide Past;
    if Reprints(t, es) {
      var b :| 0 <= b < |es| && es[b].id in t.seen && Past(t, es, b);
      assert b < n ==> front[b].id in t.seen && Past(t, front, b);
    }
    if Reprints(t, front) {
      var b :| 0 <= b < n && front[b].id in t.seen && Past(t, front, b);
      assert es[b].id in t.seen && Past(t, es, b);
    }
  }

  lemma Remembered(t: Tail, es: seq<Rec>, e: Rec)
    requires Tracks(t) && IdsUnique(es) && e in es
    ensures exists x :: x in t.printed + Shown(t, es) && x.id == e.id
  {
    hide Shown, IdsUnique, Reprints;
    ShownHas(t, es);
    if e.id in t.seen {
      var x :| x in t.printed && x.id == e.id;
      assert x in t.printed + Shown(t, es);
    } else {
      assert e in t.printed + Shown(t, es);
    }
  }

  lemma TracksAfter(t: Tail, es: seq<Rec>)
    requires Tracks(t) && AtOrAfter(t, es) && IdsUnique(es)
    ensures Tracks(PrintAll(t, es)) && PrintAll(t, es).printed == t.printed + Shown(t, es)
  {
    hide PrintAll, Shown, IdsUnique, Reprints, Past;
    var u := PrintAll(t, es);
    PrintAllShows(t, es);
    ShownHas(t, es);
    assert forall x :: x in u.printed <==> x in t.printed || x in Shown(t, es);
    forall id | id in u.seen ensures exists x :: x in u.printed && x.id == id {
      if id in Ids(es) {
        var e :| e in es && e.id == id;
        Remembered(t, es, e);
      } else {
        var x :| x in t.printed && x.id == id;
        assert x in u.printed;
      }
    }
    assert Shown(t, es) != [] ==> Shown(t, es)[0] in Shown(t, es);
  }

  /** One poll prints nothing twice exactly when its response does not bring back a remembered
      event behind one past the cursor. */
  lemma PollRepeatsIff(t: Tail, es: seq<Rec>, log: seq<Rec>)
    requires Tracks(t) && AtOrAfter(t, es) && IdsUnique(es) && IdsUnique(log) && IdsUnique(t.printed)
    requires (forall x :: x in t.printed ==> x in log) && forall e :: e in es ==> e in log
    ensures IdsUnique(PrintAll(t, es).printed) <==> !Reprints(t, es)
  {
    hide PrintAll, Shown, IdsUnique, Reprints, Tracks;
    TracksAfter(t, es);
    ShownHas(t, es);
    var shown := Shown(t, es);
    if Reprints(t, es) {
      var e :| e in shown && e.id in t.seen;
      SeenWasPrinted(t, e);
      var x :| x in t.printed && x.id == e.id;
      TwiceInConcat(t.printed, shown, x, e);
    } else {
      forall x, e | x in t.printed && e in shown ensures x.id != e.id {
        if x.id == e.id {
          UniqueIdentifies(log, x, e);
          PrintedIsSeen(t, x, es);
          assert false;
        }
      }
      UniqueConcat(t.printed, shown);
    }
  }

  lemma SeenWasPrinted(t: Tail, e: Rec)
    requires Tracks(t) && e.id in t.seen
    ensures exists x :: x in t.printed && x.id == e.id
  {
  }

  lemma PrintedIsSeen(t: Tail, x: Rec, es: seq<Rec>)
    requires Tracks(t) && x in t.printed && x in es && AtOrAfter(t, es)
    ensures x.id in t.seen
  {
  }

  lemma TwiceInConcat(s: seq<Rec>, t: seq<Rec>, x: Rec, y: Rec)
    requires x in s && y in t && x.id == y.id
    ensures !IdsUnique(s + t)
  {
    var i :| 0 <= i < |s| && s[i] == x;
    var j :| 0 <= j < |t| && t[j] == y;
    assert (s + t)[i].id == (s + t)[|s| + j].id;
  }

  lemma UniqueConcat(s: seq<Rec>, t: seq<Rec>)
    requires IdsUnique(s) && IdsUnique(t) && forall x, y :: x in s && y in t ==> x.id != y.id
    ensures IdsUnique(s + t)
  {
    forall i, j | 0 <= i < j < |s + t| ensures (s + t)[i].id != (s + t)[j].id {
      if i < |s| <= j {
        assert (s + t)[i] in s && (s + t)[j] in t;
      }
    }
  }

  // ---------- every run ----------

  lemma FrontOfRun(polls: seq<Moment>)
    requires AnyRun(polls) && polls != []
    ensures AnyRun(polls[..|polls| - 1]) && Appended(polls[|polls| - 1])
    ensures |polls| > 1 ==> Appended(polls[|polls| - 2]) && Follows(polls[|polls| - 2], polls[|polls| - 1])
  {
    var front := polls[..|polls| - 1];
    forall i | 0 < i < |front| ensures Follows(front[i - 1], front[i]) {
      assert Follows(polls[i - 1], polls[i]);
    }
  }

  /** The poll `i` prints something again. */
  ghost predicate RepeatsAt(polls: seq<Moment>, matches: Rec -> bool, limit: int, i: nat)
    requires AnyRun(polls) && i < |polls|
  {
    var t := Tailed(polls[..i], matches, limit);
    Reprints(t, Response(t, polls[i], matches, limit))
  }

  /** The loop's state before the last poll, and that poll. */
  lemma {:induction false} TailTracks(polls: seq<Moment>, matches: Rec -> bool, limit: int)
    requires AnyRun(polls)
    ensures Tracks(Tailed(polls, matches, limit))
    ensures forall x :: x in Tailed(polls, matches, limit).printed ==>
              polls != [] && x in polls[|polls| - 1].log && matches(x)
  {
    hide Tracks, Response, Shown, IdsUnique, AtOrAfter, Reprints;
    if polls != [] {
      var front, m := polls[..|polls| - 1], polls[|polls| - 1];
      FrontOfRun(polls);
      TailTracks(front, matches, limit);
      var t := Tailed(front, matches, limit);
      NextPoll(t, m, matches, limit);
    } else {
      StartTracks();
    }
  }

  lemma StartTracks()
    ensures Tracks(START)
  {
  }

  lemma NextPoll(t: Tail, m: Moment, matches: Rec -> bool, limit: int)
    requires Appended(m) && Tracks(t) && forall x :: x in t.printed ==> x in m.log
    ensures var es, u := Response(t, m, matches, limit), PollOnce(t, m.log[m.dropped..], matches, limit);
            && u == PrintAll(t, es) && Tracks(u) && u.printed == t.printed + Shown(t, es)
            && (forall x :: x in u.printed ==> x in t.printed || (x in m.log && matches(x)))
            && (IdsUnique(t.printed) ==> (IdsUnique(u.printed) <==> !Reprints(t, es)))
  {
    hide Tracks, Shown, IdsUnique, Reprints, AtOrAfter, PrintAll, NewestOf;
    var es := Response(t, m, matches, limit);
    ResponseIsAtOrAfter(t, m, matches, limit);
    TracksAfter(t, es);
    ShownHas(t, es);
    if IdsUnique(t.printed) {
      PollRepeatsIff(t, es, m.log);
    }
  }

  /** For every run, whatever the order of times, the ring and the limit: nothing is printed
      twice exactly when no poll brings back a remembered event behind one past the cursor. */
  lemma {:induction false} TailRepeatsIff(polls: seq<Moment>, matches: Rec -> bool, limit: int)
    requires AnyRun(polls)
    ensures IdsUnique(Tailed(polls, matches, limit).printed) <==>
              forall i :: 0 <= i < |polls| ==> !RepeatsAt(polls, matches, limit, i)
  {
    hide Tracks, Response, Shown, IdsUnique, Reprints, PollOnce;
    if polls != [] {
      var n := |polls| - 1;
      var front, m := polls[..n], polls[n];
      FrontOfRun(polls);
      TailRepeatsIff(front, matches, limit);
      TailTracks(front, matches, limit);
      var t := Tailed(front, matches, limit);
      NextPoll(t, m, matches, limit);
      forall i | 0 <= i < n ensures RepeatsAt(front, matches, limit, i) == RepeatsAt(polls, matches, limit, i) {
        assert front[..i] == polls[..i];
      }
      assert polls[..n] == front;
      assert RepeatsAt(polls, matches, limit, n) == Reprints(t, Response(t, m, matches, limit));
      hide RepeatsAt;
      if !IdsUnique(t.printed) {
        StaysRepeated(t.printed, Shown(t, Response(t, m, matches, limit)));
        var i :| 0 <= i < n && RepeatsAt(front, matches, limit, i);
        assert RepeatsAt(polls, matches, limit, i);
      }
    } else {
      NothingPrinted();
    }
  }

  lemma NothingPrinted()
    ensures IdsUnique(START.printed)
  {
  }

  lemma StaysRepeated(s: seq<Rec>, t: seq<Rec>)
    requires !IdsUnique(s)
    ensures !IdsUnique(s + t)
  {
    var i, j :| 0 <= i < j < |s| && s[i].id == s[j].id;
    assert (s + t)[i].id == (s + t)[j].id;
  }

  // ---------- runs in which no poll is cut ----------

  /** No poll is cut: all that was appended since the one before is still in the ring, and the
      ring's matching events fit the limit. */
  ghost predicate Unhurried(polls: seq<Moment>, matches: Rec -> bool, limit: int)
    requires AnyRun(polls)
  {
    && (forall i :: 0 <= i < |polls| ==> |Filtered(polls[i].log[polls[i].dropped..], matches)| <= LimitOf(limit))
    && (forall i :: 0 <= i < |polls| ==> polls[i].dropped <= Seen(polls, i))
  }

  /** How much of the log was there at the poll before. */
  function Seen(polls: seq<Moment>, i: nat): nat
    requires i < |polls|
  {
    if i == 0 then 0 else |polls[i - 1].log|
  }

  /** The latest time among events; 0 if there is none. */
  function Latest(s: seq<Rec>): int {
    if s == [] then 0 else Max(Latest(s[..|s| - 1]), UnixMilli(s[|s| - 1]))
  }

  /** The matching events that an earlier poll could see. */
  function Before(polls: seq<Moment>, matches: Rec -> bool): seq<Rec> {
    if polls == [] then [] else Matching(polls[|polls| - 1], matches)
  }

  /** Each poll prints the new matching events but those older than one seen before. */
  function Timely(polls: seq<Moment>, matches: Rec -> bool): seq<Rec>
    requires AnyRun(polls)
  {
    if polls == [] then [] else
      var n := |polls| - 1;
      FrontOfRun(polls);
      SeenFits(polls, n);
      Timely(polls[..n], matches) +
      Filtered(polls[n].log[Seen(polls, n)..], Since(matches, Latest(Before(polls[..n], matches))))
  }

  lemma SeenFits(polls: seq<Moment>, i: nat)
    requires AnyRun(polls) && i < |polls|
    ensures Seen(polls, i) <= |polls[i].log|
    ensures i > 0 ==> polls[i].log[..Seen(polls, i)] == polls[i - 1].log
  {
    assert i > 0 ==> Follows(polls[i - 1], polls[i]);
  }

  /** A matching event first seen by the poll `i` is older than one seen before. */
  ghost predicate Late(polls: seq<Moment>, matches: Rec -> bool, i: nat)
    requires AnyRun(polls) && i < |polls|
  {
    SeenFits(polls, i);
    exists e :: e in polls[i].log[Seen(polls, i)..] && matches(e) && UnixMilli(e) < Latest(Before(polls[..i], matches))
  }

  lemma {:induction false} LatestIs(s: seq<Rec>)
    ensures forall x :: x in s ==> UnixMilli(x) <= Latest(s)
    ensures Latest(s) >= 0 && (Latest(s) > 0 ==> exists x :: x in s && UnixMilli(x) == Latest(s))
  {
    if s != [] {
      LatestIs(s[..|s| - 1]);
      assert s == s[..|s| - 1] + [s[|s| - 1]];
    }
  }

  lemma LatestIsIt(s: seq<Rec>, c: int)
    requires c >= 0 && forall x :: x in s ==> UnixMilli(x) <= c
    requires c > 0 ==> exists x :: x in s && UnixMilli(x) == c
    ensures Latest(s) == c
  {
    LatestIs(s);
  }

  /** After a poll that was not cut: the cursor is the latest matching time, and what has that
      time was printed. */
  ghost predicate CaughtUp(t: Tail, all: seq<Rec>) {
    && t.cursorMs == Latest(all)
    && (forall x :: x in t.printed ==> x in all)
    && (forall x :: x in all && UnixMilli(x) == t.cursorMs ==> x in t.printed)
  }

  lemma {:induction false} SinceOf(s: seq<Rec>, matches: Rec -> bool, cursor: int)
    ensures |Filtered(s, Since(matches, cursor))| <= |Filtered(s, matches)|
    ensures |Filtered(s, Since(matches, cursor))| == |Filtered(s, matches)| <==>
              forall e :: e in s && matches(e) ==> !Older(e, cursor)
    ensures (forall e :: e in s && matches(e) ==> !Older(e, cursor)) ==>
              Filtered(s, Since(matches, cursor)) == Filtered(s, matches)
  {
    hide Older;
    if s != [] {
      SinceOf(s[..|s| - 1], matches, cursor);
      assert s == s[..|s| - 1] + [s[|s| - 1]];
    }
  }

  /** An uncut response: remembered events first, then the new ones. */
  lemma UncutResponse(t: Tail, m: Moment, matches: Rec -> bool, limit: int, n: nat)
    requires Appended(m) && m.dropped <= n <= |m.log|
    requires |Filtered(m.log[m.dropped..], matches)| <= LimitOf(limit)
    ensures var f := Since(matches, t.cursorMs);
            Response(t, m, matches, limit) == Filtered(m.log[m.dropped..n], f) + Filtered(m.log[n..], f)
  {
    hide NewestOf, Filtered, Since, Reversed;
    var ring, f := m.log[m.dropped..], Since(matches, t.cursorMs);
    OldestFirst(ring, f, LimitOf(limit));
    SinceOf(ring, matches, t.cursorMs);
    assert ring == m.log[m.dropped..n] + m.log[n..];
    FilteredConcat(m.log[m.dropped..n], m.log[n..], f);
  }

  lemma {:induction false} ShowsUnseen(t: Tail, es: seq<Rec>)
    requires forall e :: e in es ==> e.id !in t.seen
    ensures Shown(t, es) == es
  {
    if es != [] {
      ShowsUnseen(t, es[..|es| - 1]);
      assert es[|es| - 1] in es;
    }
  }

  /** What an uncut poll finds again it has remembered, and what is new it has not. */
  lemma OldAndNew(t: Tail, m: Moment, matches: Rec -> bool, n: nat)
    requires Appended(m) && m.dropped <= n <= |m.log| && Tracks(t)
    requires CaughtUp(t, Filtered(m.log[..n], matches))
    ensures var f := Since(matches, t.cursorMs);
            && (forall e :: e in Filtered(m.log[m.dropped..n], f) ==> e.id in t.seen)
            && (forall e :: e in Filtered(m.log[n..], f) ==> e.id !in t.seen)
  {
    hide Filtered, IdsUnique, Latest;
    var f, before := Since(matches, t.cursorMs), Filtered(m.log[..n], matches);
    FilteredHas(m.log[m.dropped..n], f);
    FilteredHas(m.log[n..], f);
    FilteredHas(m.log[..n], matches);
    LatestIs(before);
    forall e | e in Filtered(m.log[m.dropped..n], f) ensures e.id in t.seen {
      assert e in m.log[..n];
      AtCursor(t, before, e);
    }
    forall e | e in Filtered(m.log[n..], f) ensures e.id !in t.seen {
      if e.id in t.seen {
        SeenWasPrinted(t, e);
        var x :| x in t.printed && x.id == e.id;
        ApartAt(m.log, n, x, e);
        assert false;
      }
    }
  }

  lemma AtCursor(t: Tail, all: seq<Rec>, e: Rec)
    requires Tracks(t) && CaughtUp(t, all) && e in all && !Older(e, t.cursorMs) && UnixMilli(e) <= Latest(all)
    requires UnixMilli(e) > 0 || t.cursorMs > 0
    ensures e.id in t.seen
  {
  }

  lemma ApartAt(s: seq<Rec>, n: nat, x: Rec, y: Rec)
    requires IdsUnique(s) && n <= |s| && x in s[..n] && y in s[n..]
    ensures x.id != y.id
  {
    var i :| 0 <= i < n && s[i] == x;
    var j :| 0 <= j < |s| - n && s[n..][j] == y;
    assert s[n + j] == y;
  }

  /** The new matching events that an uncut poll prints. */
  lemma NewOnes(t: Tail, m: Moment, matches: Rec -> bool, n: nat)
    requires Appended(m) && m.dropped <= n <= |m.log| && Tracks(t)
    requires CaughtUp(t, Filtered(m.log[..n], matches))
    ensures var news := Filtered(m.log[n..], Since(matches, t.cursorMs));
            && IdsUnique(news) && AtOrAfter(t, news)
            && (forall e :: e in news <==> e in m.log[n..] && matches(e) && !Older(e, t.cursorMs))
            && Shown(t, news) == news
  {
    hide CaughtUp, Filtered, Shown, IdsUnique, Tracks;
    var f := Since(matches, t.cursorMs);
    OldAndNew(t, m, matches, n);
    UniqueSuffix(m.log, n);
    FilteredUnique(m.log[n..], f);
    FilteredHas(m.log[n..], f);
    ShowsUnseen(t, Filtered(m.log[n..], f));
  }

  lemma UncutPoll(t: Tail, m: Moment, matches: Rec -> bool, limit: int, n: nat)
    requires Appended(m) && m.dropped <= n <= |m.log| && Tracks(t)
    requires CaughtUp(t, Filtered(m.log[..n], matches))
    requires |Filtered(m.log[m.dropped..], matches)| <= LimitOf(limit)
    ensures var u, news := PollOnce(t, m.log[m.dropped..], matches, limit),
              Filtered(m.log[n..], Since(matches, t.cursorMs));
            u == PrintAll(t, news) && Tracks(u) && u.printed == t.printed + news
  {
    hide CaughtUp, Filtered, Since, Shown, IdsUnique, Tracks, AtOrAfter, PrintAll, NewestOf;
    var f := Since(matches, t.cursorMs);
    var again, news := Filtered(m.log[m.dropped..n], f), Filtered(m.log[n..], f);
    UncutResponse(t, m, matches, limit, n);
    OldAndNew(t, m, matches, n);
    PrintSplit(t, again, news);
    PrintSeen(t, again);
    NewOnes(t, m, matches, n);
    TracksAfter(t, news);
  }

  lemma CatchesUp(t: Tail, m: Moment, matches: Rec -> bool, n: nat)
    requires Appended(m) && m.dropped <= n <= |m.log| && Tracks(t)
    requires CaughtUp(t, Filtered(m.log[..n], matches))
    requires var news := Filtered(m.log[n..], Since(matches, t.cursorMs)); PrintAll(t, news).printed == t.printed + news
    ensures CaughtUp(PrintAll(t, Filtered(m.log[n..], Since(matches, t.cursorMs))), Matching(m, matches))
  {
    hide Filtered, Since, Shown, IdsUnique, AtOrAfter, PrintAll, Latest;
    var before, news, all := Filtered(m.log[..n], matches), Filtered(m.log[n..], Since(matches, t.cursorMs)),
                               Matching(m, matches);
    var u := PrintAll(t, news);
    NewOnes(t, m, matches, n);
    PrintAllShows(t, news);
    FilteredHas(m.log[..n], matches);
    FilteredHas(m.log, matches);
    assert m.log == m.log[..n] + m.log[n..];
    assert forall x :: x in all <==> x in before || (x in m.log[n..] && matches(x));
    LatestIs(before);
    LatestIsIt(all, u.cursorMs);
    assert forall x :: x in u.printed <==> x in t.printed || x in news;
  }

  lemma UnhurriedFront(polls: seq<Moment>, matches: Rec -> bool, limit: int)
    requires AnyRun(polls) && polls != [] && Unhurried(polls, matches, limit)
    ensures AnyRun(polls[..|polls| - 1]) && Unhurried(polls[..|polls| - 1], matches, limit)
  {
    hide Filtered;
    var n := |polls| - 1;
    FrontOfRun(polls);
    hide AnyRun;
    forall i | 0 <= i < n ensures Seen(polls[..n], i) == Seen(polls, i) && polls[..n][i] == polls[i] {
    }
  }

  lemma UnhurriedLast(polls: seq<Moment>, matches: Rec -> bool, limit: int)
    requires AnyRun(polls) && polls != [] && Unhurried(polls, matches, limit)
    ensures var n := |polls| - 1;
            && Appended(polls[n]) && polls[n].dropped <= Seen(polls, n) <= |polls[n].log|
            && |Filtered(polls[n].log[polls[n].dropped..], matches)| <= LimitOf(limit)
            && Filtered(polls[n].log[..Seen(polls, n)], matches) == Before(polls[..n], matches)
  {
    hide Filtered, Appended, Follows;
    var n := |polls| - 1;
    FrontOfRun(polls);
    SeenFits(polls, n);
    assert polls[n].dropped <= Seen(polls, n);
    hide Unhurried, AnyRun;
    SeenIsBefore(polls, matches);
  }

  lemma SeenIsBefore(polls: seq<Moment>, matches: Rec -> bool)
    requires polls != []
    requires var n := |polls| - 1;
             Seen(polls, n) <= |polls[n].log| && (n > 0 ==> polls[n].log[..Seen(polls, n)] == polls[n - 1].log)
    ensures var n := |polls| - 1;
            Filtered(polls[n].log[..Seen(polls, n)], matches) == Before(polls[..n], matches)
  {
    hide Filtered;
    if |polls| == 1 {
      NothingFiltered(matches);
    }
  }

  lemma NothingFiltered(f: Rec -> bool)
    ensures Filtered([], f) == []
  {
  }

  lemma {:induction false} UnhurriedTail(polls: seq<Moment>, matches: Rec -> bool, limit: int)
    requires AnyRun(polls) && Unhurried(polls, matches, limit)
    ensures Tailed(polls, matches, limit).printed == Timely(polls, matches)
    ensures CaughtUp(Tailed(polls, matches, limit), Before(polls, matches))
    ensures IdsUnique(Timely(polls, matches))
  {
    hide Filtered, Since, IdsUnique, PollOnce, CaughtUp, Unhurried, Tracks, PrintAll, Follows;
    if polls == [] {
      NothingCaughtUp();
      NothingPrinted();
    } else {
      var n := |polls| - 1;
      var front, m := polls[..n], polls[n];
      UnhurriedFront(polls, matches, limit);
      UnhurriedLast(polls, matches, limit);
      UnhurriedTail(front, matches, limit);
      TailTracks(front, matches, limit);
      var t := Tailed(front, matches, limit);
      UncutPoll(t, m, matches, limit, Seen(polls, n));
      CatchesUp(t, m, matches, Seen(polls, n));
      PrintsApart(t, m, matches, Seen(polls, n));
      CaughtUpAt(t, Before(front, matches));
    }
  }

  lemma CaughtUpAt(t: Tail, all: seq<Rec>)
    requires CaughtUp(t, all)
    ensures t.cursorMs == Latest(all)
  {
  }

  lemma NothingCaughtUp()
    ensures CaughtUp(START, [])
  {
  }

  lemma PrintsApart(t: Tail, m: Moment, matches: Rec -> bool, n: nat)
    requires Appended(m) && m.dropped <= n <= |m.log| && Tracks(t) && IdsUnique(t.printed)
    requires CaughtUp(t, Filtered(m.log[..n], matches))
    ensures IdsUnique(t.printed + Filtered(m.log[n..], Since(matches, t.cursorMs)))
  {
    var news := Filtered(m.log[n..], Since(matches, t.cursorMs));
    NewOnes(t, m, matches, n);
    FilteredHas(m.log[..n], matches);
    hide Filtered, Since, IdsUnique;
    forall x, e | x in t.printed && e in news ensures x.id != e.id {
      ApartAt(m.log, n, x, e);
    }
    UniqueConcat(t.printed, news);
  }

  /** The last poll lets nothing late slip exactly when it prints all that is new and matches. */
  lemma LateIff(polls: seq<Moment>, matches: Rec -> bool)
    requires AnyRun(polls) && polls != []
    ensures var n := |polls| - 1;
            Seen(polls, n) <= |polls[n].log| &&
            var added, c := polls[n].log[Seen(polls, n)..], Latest(Before(polls[..n], matches));
            && |Filtered(added, Since(matches, c))| <= |Filtered(added, matches)|
            && (!Late(polls, matches, n) <==> |Filtered(added, Since(matches, c))| == |Filtered(added, matches)|)
            && (!Late(polls, matches, n) ==> Filtered(added, Since(matches, c)) == Filtered(added, matches))
  {
    hide Filtered, Since, AnyRun, Latest;
    var n := |polls| - 1;
    SeenFits(polls, n);
    var added, before := polls[n].log[Seen(polls, n)..], Before(polls[..n], matches);
    LatestIs(before);
    FrontOfRun(polls);
    PositiveTimes(polls[n], Seen(polls, n));
    SinceOf(added, matches, Latest(before));
    assert forall e :: e in added ==> (Older(e, Latest(before)) <==> UnixMilli(e) < Latest(before));
  }

  lemma PositiveTimes(m: Moment, n: nat)
    requires Appended(m) && n <= |m.log|
    ensures forall e :: e in m.log[n..] ==> UnixMilli(e) > 0
  {
  }

  lemma {:induction false} TimelyIsAll(polls: seq<Moment>, matches: Rec -> bool)
    requires AnyRun(polls)
    ensures |Timely(polls, matches)| <= |Before(polls, matches)|
    ensures Timely(polls, matches) == Before(polls, matches) <==>
              forall i :: 0 <= i < |polls| ==> !Late(polls, matches, i)
  {
    hide Filtered, Since, AnyRun, Late;
    if polls != [] {
      var n := |polls| - 1;
      FrontOfRun(polls);
      TimelyIsAll(polls[..n], matches);
      LateIff(polls, matches);
      AllIsOldAndNew(polls, matches);
      LateInFront(polls, matches);
      var added, c := polls[n].log[Seen(polls, n)..], Latest(Before(polls[..n], matches));
      SameParts(Timely(polls[..n], matches), Before(polls[..n], matches), Filtered(added, Since(matches, c)),
        Filtered(added, matches));
    }
  }

  lemma LateInFront(polls: seq<Moment>, matches: Rec -> bool)
    requires AnyRun(polls) && polls != []
    ensures var n := |polls| - 1;
            AnyRun(polls[..n]) && forall i :: 0 <= i < n ==> Late(polls[..n], matches, i) == Late(polls, matches, i)
  {
    var n := |polls| - 1;
    FrontOfRun(polls);
    hide AnyRun;
    forall i | 0 <= i < n ensures Late(polls[..n], matches, i) == Late(polls, matches, i) {
      assert polls[..n][..i] == polls[..i];
      assert Seen(polls[..n], i) == Seen(polls, i);
    }
  }

  lemma AllIsOldAndNew(polls: seq<Moment>, matches: Rec -> bool)
    requires AnyRun(polls) && polls != []
    ensures var n := |polls| - 1;
            Seen(polls, n) <= |polls[n].log| &&
            Before(polls, matches) == Before(polls[..n], matches) + Filtered(polls[n].log[Seen(polls, n)..], matches)
  {
    hide AnyRun;
    var n := |polls| - 1;
    SeenFits(polls, n);
    var log, k := polls[n].log, Seen(polls, n);
    assert log == log[..k] + log[k..];
    FilteredConcat(log[..k], log[k..], matches);
  }

  lemma SameParts(a: seq<Rec>, a': seq<Rec>, b: seq<Rec>, b': seq<Rec>)
    requires |a| <= |a'| && |b| <= |b'|
    ensures |a + b| <= |a' + b'|
    ensures a + b == a' + b' <==> |b| == |b'| && a == a' && b == b'
  {
    if a + b == a' + b' {
      assert |a| == |a'| && |b| == |b'|;
      assert a == (a + b)[..|a|] && a' == (a' + b')[..|a|];
      assert b == (a + b)[|a|..] && b' == (a' + b')[|a|..];
    }
  }

  /** For every run without a cut poll, in whatever order times come: each matching event is
      printed at most once, in append order, at the first poll that sees it, unless it is older
      than one an earlier poll could see; then never. So the output is complete exactly when no
      event is late. */
  lemma LateIsNeverPrinted(polls: seq<Moment>, matches: Rec -> bool, limit: int)
    requires AnyRun(polls) && polls != [] && Unhurried(polls, matches, limit)
    ensures var printed := Tailed(polls, matches, limit).printed;
            && printed == Timely(polls, matches) && IdsUnique(printed)
            && (printed == Matching(polls[|polls| - 1], matches) <==>
                  forall i :: 0 <= i < |polls| ==> !Late(polls, matches, i))
  {
    hide AnyRun, Unhurried, Timely, Late, IdsUnique, CaughtUp, Tailed;
    UnhurriedTail(polls, matches, limit);
    TimelyIsAll(polls, matches);
  }

  // ---------- two runs ----------

  lemma NewestOfLast(front: seq<Rec>, last: Rec, f: Rec -> bool, k: nat)
    requires k > 0
    ensures NewestOf(front + [last], f, k) ==
            if f(last) then [last] + NewestOf(front, f, k - 1) else NewestOf(front, f, k)
  {
    assert (front + [last])[..|front|] == front;
  }

  lemma PrintLast(t: Tail, front: seq<Rec>, last: Rec)
    ensures PrintAll(t, front + [last]) == Print(PrintAll(t, front), last)
  {
    assert (front + [last])[..|front|] == front;
  }

  lemma Nothing(t: Tail, ring: seq<Rec>, f: Rec -> bool)
    ensures PrintAll(t, []) == t && NewestOf(ring, f, 0) == [] && forall k: nat :: NewestOf([], f, k) == []
  {
  }

  lemma PollOne(t: Tail, ring: seq<Rec>, matches: Rec -> bool, limit: int, a: Rec)
    requires NewestOf(ring, Since(matches, t.cursorMs), LimitOf(limit)) == [a]
    ensures PollOnce(t, ring, matches, limit) == Print(t, a)
  {
    hide NewestOf, Print;
    Nothing(t, ring, matches);
    PrintLast(t, [], a);
    assert Reversed([a]) == [] + [a];
  }

  lemma PollTwo(t: Tail, ring: seq<Rec>, matches: Rec -> bool, limit: int, b: Rec, a: Rec)
    requires NewestOf(ring, Since(matches, t.cursorMs), LimitOf(limit)) == [b, a]
    ensures PollOnce(t, ring, matches, limit) == Print(Print(t, a), b)
  {
    hide NewestOf, Print;
    Nothing(t, ring, matches);
    PrintLast(t, [a], b);
    PrintLast(t, [], a);
    assert Reversed([b, a]) == [a] + [b] && [] + [a] == [a];
  }

  lemma TwoPolls(a: Moment, b: Moment, matches: Rec -> bool, limit: int)
    requires a.dropped <= |a.log| && b.dropped <= |b.log|
    ensures var t := PollOnce(START, a.log[a.dropped..], matches, limit);
            Tailed([a, b], matches, limit) == PollOnce(t, b.log[b.dropped..], matches, limit)
  {
    hide PollOnce;
    assert [a, b][..1] == [a] && [a][..0] == [];
    assert Tailed([a], matches, limit) == PollOnce(Tailed([], matches, limit), a.log[a.dropped..], matches, limit);
  }

  /** One event, and then one that is older: the second is never printed. */
  lemma OlderIsMissed(c: Rec, e: Rec, matches: Rec -> bool)
    requires 0 < UnixMilli(e) < UnixMilli(c) && c.id != e.id && matches(c) && matches(e)
    ensures var polls := [Moment([c], 0), Moment([c, e], 0)];
            AnyRun(polls) && Tailed(polls, matches, 0).printed == [c]
  {
    hide UnixMilli, NewestOf, PollOnce, Tailed;
    var polls := [Moment([c], 0), Moment([c, e], 0)];
    TwoPolls(polls[0], polls[1], matches, 0);
    assert [] + [c] == [c] && [c] + [e] == [c, e];
    Nothing(START, [], Since(matches, 0));
    NewestOfLast([], c, Since(matches, 0), 100);
    PollOne(START, [c], matches, 0, c);
    SecondIsOld(Print(START, c), c, e, matches);
  }

  lemma SecondIsOld(t: Tail, c: Rec, e: Rec, matches: Rec -> bool)
    requires 0 < UnixMilli(e) < UnixMilli(c) && matches(c) && t.cursorMs == UnixMilli(c)
    ensures PollOnce(t, [c, e], matches, 0) == Print(t, c)
  {
    hide UnixMilli, NewestOf, PollOnce, Print;
    var s := Since(matches, t.cursorMs);
    assert [] + [c] == [c] && [c] + [e] == [c, e];
    Nothing(t, [], s);
    NewestOfLast([c], e, s, 100);
    NewestOfLast([], c, s, 100);
    assert NewestOf([c], s, 100) == [c] + [];
    assert Older(e, t.cursorMs) && !s(e);
    assert NewestOf([c, e], s, 100) == NewestOf([c], s, 100) == [c];
    PollOne(t, [c, e], matches, 0, c);
  }

  /** A limit that cuts the first response, and an older event behind a newer one: the older is
      printed, then the newer, then the older again. */
  lemma CutAndLateRepeats(f: Rec, e: Rec, g: Rec, matches: Rec -> bool)
    requires 0 < UnixMilli(g) < UnixMilli(e) < UnixMilli(f) && f.id != e.id && f.id != g.id && e.id != g.id
    requires matches(f) && matches(e) && matches(g)
    ensures var m := Moment([f, e, g], 0);
            AnyRun([m, m]) && Tailed([m, m], matches, 2).printed == [e, g, f, e]
  {
    hide UnixMilli, NewestOf, PollOnce, Tailed;
    var m := Moment([f, e, g], 0);
    TwoPolls(m, m, matches, 2);
    FirstTwo(f, e, g, matches);
    var t := Tail(UnixMilli(e), {e.id, g.id}, [e, g]);
    var s := Since(matches, t.cursorMs);
    assert [f, e] + [g] == [f, e, g] && [f] + [e] == [f, e] && [] + [f] == [f];
    Nothing(t, [], s);
    NewestOfLast([f, e], g, s, 2);
    NewestOfLast([f], e, s, 2);
    NewestOfLast([], f, s, 1);
    assert NewestOf(m.log, s, 2) == [e, f];
    PollTwo(t, m.log, matches, 2, e, f);
  }

  lemma FirstTwo(f: Rec, e: Rec, g: Rec, matches: Rec -> bool)
    requires 0 < UnixMilli(g) < UnixMilli(e) && e.id != g.id && matches(e) && matches(g)
    ensures PollOnce(START, [f, e, g], matches, 2) == Tail(UnixMilli(e), {e.id, g.id}, [e, g])
  {
    hide UnixMilli, NewestOf, PollOnce;
    var s := Since(matches, 0);
    assert [f, e] + [g] == [f, e, g] && [f] + [e] == [f, e];
    Nothing(START, [f], s);
    NewestOfLast([f, e], g, s, 2);
    NewestOfLast([f], e, s, 1);
    assert NewestOf([f, e, g], s, 2) == [g, e];
    PollTwo(START, [f, e, g], matches, 2, g, e);
  }
}
