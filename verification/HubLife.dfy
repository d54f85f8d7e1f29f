/** One subscription from its subscribe to its close, whatever happens to it. */
module HubLife {
  import opened WatchHub

  /** What can happen to a subscription. */
  datatype Op = Offering(c: Change) | Receiving | Draining | Closing

  function After(s: Sub, op: Op): Sub {
    match op
    case Offering(c) => Offered(s, c)
    case Receiving => s.(signal := false)
    case Draining => s.(pending := {})
    case Closing => s.(pending := {}, closed := true)
  }

  function Life(kinds: set<Kind>, ops: seq<Op>): Sub {
    if ops == [] then Sub(kinds, {}, false, false) else After(Life(kinds, ops[..|ops| - 1]), ops[|ops| - 1])
  }

  /** The offer `i` counts: of a subscribed kind (any, if none is named), and not after the close. */
  ghost predicate Counts(kinds: set<Kind>, ops: seq<Op>, i: nat)
    requires i < |ops|
  {
    ops[i].Offering? && (kinds == {} || ops[i].c.kind in kinds) && Closing !in ops[..i]
  }

  ghost predicate PendingSince(kinds: set<Kind>, ops: seq<Op>, c: Change) {
    exists i :: 0 <= i < |ops| && Counts(kinds, ops, i) && ops[i].c == c && Uncleared(ops[i..])
  }

  predicate Uncleared(ops: seq<Op>) {
    Draining !in ops && Closing !in ops
  }

  ghost predicate SignalledSince(kinds: set<Kind>, ops: seq<Op>) {
    exists i :: 0 <= i < |ops| && Counts(kinds, ops, i) && Receiving !in ops[i..]
  }

  lemma CountsFront(kinds: set<Kind>, ops: seq<Op>, i: nat)
    requires i < |ops| - 1
    ensures Counts(kinds, ops[..|ops| - 1], i) == Counts(kinds, ops, i)
    ensures forall op :: op in ops[i..] <==> op in ops[..|ops| - 1][i..] || op == ops[|ops| - 1]
  {
    var front := ops[..|ops| - 1];
    assert front[..i] == ops[..i] && front[i] == ops[i];
    assert ops[i..] == front[i..] + [ops[|ops| - 1]];
  }

  /** Over its whole life: pending are exactly the changes of subscribed kinds offered before the
      close and since the last drain, and the signal is up exactly if there was such an offer since
      the last receive. */
  lemma {:induction false} LifeIs(kinds: set<Kind>, ops: seq<Op>)
    ensures var s := Life(kinds, ops);
            && s.kinds == kinds && (s.closed <==> Closing in ops)
            && (forall c :: c in s.pending <==> PendingSince(kinds, ops, c))
            && (s.signal <==> SignalledSince(kinds, ops))
  {
    if ops != [] {
      var n := |ops| - 1;
      var front, op := ops[..n], ops[n];
      LifeIs(kinds, front);
      assert ops == front + [op];
      LastCounts(kinds, ops);
      forall c ensures c in Life(kinds, ops).pending <==> PendingSince(kinds, ops, c) {
        PendingNext(kinds, ops, c);
      }
      SignalNext(kinds, ops);
    }
  }

  lemma LastCounts(kinds: set<Kind>, ops: seq<Op>)
    requires ops != []
    ensures var n := |ops| - 1;
            && (Counts(kinds, ops, n) <==>
                  ops[n].Offering? && (kinds == {} || ops[n].c.kind in kinds) && Closing !in ops[..n])
            && ops[n..] == [ops[n]]
  {
  }

  lemma PendingNext(kinds: set<Kind>, ops: seq<Op>, c: Change)
    requires ops != []
    ensures var n := |ops| - 1;
            PendingSince(kinds, ops, c) <==>
              || (Counts(kinds, ops, n) && ops[n].c == c)
              || (PendingSince(kinds, ops[..n], c) && ops[n] != Draining && ops[n] != Closing)
  {
    var n := |ops| - 1;
    var front := ops[..n];
    hide Counts;
    LastCounts(kinds, ops);
    OfferingOnly(kinds, ops);
    if i :| 0 <= i < |ops| && Counts(kinds, ops, i) && ops[i].c == c && Uncleared(ops[i..]) {
      if i < n {
        CountsFront(kinds, ops, i);
        assert front[i] == ops[i];
      }
    }
    if i :| 0 <= i < n && Counts(kinds, front, i) && front[i].c == c && Uncleared(front[i..]) {
      CountsFront(kinds, ops, i);
      assert front[i] == ops[i];
    }
    if Counts(kinds, ops, n) {
      assert ops[n..] == [ops[n]];
    }
  }

  lemma OfferingOnly(kinds: set<Kind>, ops: seq<Op>)
    ensures forall i :: 0 <= i < |ops| && Counts(kinds, ops, i) ==> ops[i].Offering?
  {
  }

  lemma SignalNext(kinds: set<Kind>, ops: seq<Op>)
    requires ops != []
    ensures var n := |ops| - 1;
            SignalledSince(kinds, ops) <==>
              Counts(kinds, ops, n) || (SignalledSince(kinds, ops[..n]) && ops[n] != Receiving)
  {
    var n := |ops| - 1;
    var front := ops[..n];
    hide Counts;
    LastCounts(kinds, ops);
    OfferingOnly(kinds, ops);
    if i :| 0 <= i < |ops| && Counts(kinds, ops, i) && Receiving !in ops[i..] {
      if i < n {
        CountsFront(kinds, ops, i);
      }
    }
    if i :| 0 <= i < n && Counts(kinds, front, i) && Receiving !in front[i..] {
      CountsFront(kinds, ops, i);
    }
    if Counts(kinds, ops, n) {
      assert ops[n..] == [ops[n]];
    }
  }
}
