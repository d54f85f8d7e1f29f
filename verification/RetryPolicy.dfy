/** The executor's retry-then-park policy, for one assignment. */
module RetryPolicy {

  const MAX_ATTEMPTS := 3

  /** `failCount[id]` and `failHash[id]`; absent entries read as 0 and "". */
  datatype Retry = Retry(count: nat, hash: string)

  /** What a bring-up meets when the assignment is not parked. */
  datatype Tried = NoPayload | Withheld | RuntimeFailed | Started

  /** One call of `bringUp`. */
  datatype Visit = Visit(hash: string, tried: Tried)

  datatype Outcome = Skipped | Waiting | Failed | Succeeded

  /** A changed configuration starts the counter again. */
  function Reset(r: Retry, hash: string): Retry {
    if r.hash != "" && r.hash != hash then Retry(0, "") else r
  }

  predicate Parked(r: Retry, hash: string) {
    Reset(r, hash).count >= MAX_ATTEMPTS
  }

  function After(r: Retry, v: Visit): Retry {
    var q := Reset(r, v.hash);
    if Parked(r, v.hash) then q else
    match v.tried
    case NoPayload => Retry(q.count + 1, v.hash)
    case RuntimeFailed => Retry(q.count + 1, v.hash)
    case Withheld => q
    case Started => Retry(0, "")
  }

  function OutcomeOf(r: Retry, v: Visit): Outcome {
    if Parked(r, v.hash) then Skipped else
    match v.tried
    case NoPayload => Failed
    case RuntimeFailed => Failed
    case Withheld => Waiting
    case Started => Succeeded
  }

  function RetryAfter(visits: seq<Visit>): Retry {
    if visits == [] then Retry(0, "") else After(RetryAfter(visits[..|visits| - 1]), visits[|visits| - 1])
  }

  /** What happened at each visit, as an observer of the node would note it. */
  datatype Entry = Entry(hash: string, outcome: Outcome)

  function Log(visits: seq<Visit>): (log: seq<Entry>)
    ensures |log| == |visits|
    ensures visits != [] ==> log[|log| - 1].hash == visits[|visits| - 1].hash
  {
    if visits == [] then [] else
      var front, v := visits[..|visits| - 1], visits[|visits| - 1];
      Log(front) + [Entry(v.hash, OutcomeOf(RetryAfter(front), v))]
  }

  /** Failed bring-ups since the last success or change of hash. */
  function Streak(log: seq<Entry>): nat {
    if log == [] then 0 else
      var front, e := log[..|log| - 1], log[|log| - 1];
      var before := if front != [] && front[|front| - 1].hash == e.hash then Streak(front) else 0;
      match e.outcome
      case Succeeded => 0
      case Failed => before + 1
      case _ => before
  }

  lemma StreakStep(front: seq<Entry>, e: Entry)
    ensures var before := if front != [] && front[|front| - 1].hash == e.hash then Streak(front) else 0;
            Streak(front + [e]) ==
              match e.outcome
              case Succeeded => 0
              case Failed => before + 1
              case _ => before
  {
    assert (front + [e])[..|front|] == front;
  }

  ghost predicate NonEmptyHashes(visits: seq<Visit>) {
    forall i :: 0 <= i < |visits| ==> visits[i].hash != ""
  }

  lemma {:induction false} CounterStep(r: Retry, log: seq<Entry>, v: Visit)
    requires v.hash != "" && r.count == Streak(log) <= MAX_ATTEMPTS
    requires r.count > 0 ==> log != [] && r.hash == log[|log| - 1].hash != ""
    requires r.count == 0 ==> r.hash == ""
    ensures After(r, v).count == Streak(log + [Entry(v.hash, OutcomeOf(r, v))]) <= MAX_ATTEMPTS
    ensures After(r, v).count > 0 ==> After(r, v).hash == v.hash
    ensures After(r, v).count == 0 ==> After(r, v).hash == ""
  {
    var e := Entry(v.hash, OutcomeOf(r, v));
    StreakStep(log, e);
    var before := if log != [] && log[|log| - 1].hash == e.hash then Streak(log) else 0;
    assert before == Reset(r, v.hash).count;
  }

  /** The counter is the streak, and belongs to the hash seen last. */
  lemma {:induction false} CounterIsStreak(visits: seq<Visit>)
    requires NonEmptyHashes(visits)
    ensures RetryAfter(visits).count == Streak(Log(visits)) <= MAX_ATTEMPTS
    ensures RetryAfter(visits).count > 0 ==> visits != [] && RetryAfter(visits).hash == visits[|visits| - 1].hash
    ensures RetryAfter(visits).count == 0 ==> RetryAfter(visits).hash == ""
  {
    if visits != [] {
      var front, v := visits[..|visits| - 1], visits[|visits| - 1];
      CounterIsStreak(front);
      CounterStep(RetryAfter(front), Log(front), v);
    }
  }

  /** Retry then park, over every run of visits with non-empty hashes: never more than three
      failed bring-ups since the last success or change of hash, and a visit is skipped, with
      nothing tried, exactly when there were three and the hash is still the same. */
  lemma {:induction false} ParksAfterThree(visits: seq<Visit>, v: Visit)
    requires NonEmptyHashes(visits) && v.hash != ""
    ensures Streak(Log(visits)) <= 3
    ensures OutcomeOf(RetryAfter(visits), v) == Skipped <==>
              Streak(Log(visits)) == 3 && visits[|visits| - 1].hash == v.hash
  {
    CounterIsStreak(visits);
  }

  /** The hash of the last failed bring-up, "" when there was none. */
  function LastFailedHash(log: seq<Entry>): string {
    if log == [] then ""
    else if log[|log| - 1].outcome == Failed then log[|log| - 1].hash
    else LastFailedHash(log[..|log| - 1])
  }

  /** Whatever the hashes, the state remembers the last failure or nothing. */
  lemma {:induction false} RemembersLastFailure(visits: seq<Visit>)
    ensures RetryAfter(visits).count > 0 ==> RetryAfter(visits).hash == LastFailedHash(Log(visits))
    ensures RetryAfter(visits).count == 0 ==> RetryAfter(visits).hash == ""
  {
    if visits != [] {
      var front := visits[..|visits| - 1];
      RemembersLastFailure(front);
      assert Log(visits)[..|visits| - 1] == Log(front);
    }
  }

  /** After any run, empty hashes included: an assignment that is parked under one hash is freed
      by another exactly when its last failed bring-up had a hash that was not empty. */
  lemma ChangeFreesIffHashKnown(visits: seq<Visit>, v: Visit, changed: Visit)
    requires OutcomeOf(RetryAfter(visits), v) == Skipped && changed.hash != v.hash
    ensures OutcomeOf(RetryAfter(visits), changed) != Skipped <==> LastFailedHash(Log(visits)) != ""
  {
    RemembersLastFailure(visits);
  }

  lemma OneMoreVisit(visits: seq<Visit>, v: Visit)
    ensures RetryAfter(visits + [v]) == After(RetryAfter(visits), v)
    ensures Log(visits + [v]) == Log(visits) + [Entry(v.hash, OutcomeOf(RetryAfter(visits), v))]
  {
    assert (visits + [v])[..|visits|] == visits;
  }

  /** With an empty configuration hash the assignment stays parked after its hash changes. */
  lemma EmptyHashParksForever() returns (visits: seq<Visit>)
    ensures Streak(Log(visits)) == MAX_ATTEMPTS && visits != [] && visits[|visits| - 1].hash == ""
    ensures OutcomeOf(RetryAfter(visits), Visit("h", Started)) == Skipped
  {
    hide RetryAfter, Log, Streak;
    var v, e := Visit("", RuntimeFailed), Entry("", Failed);
    NoVisits();
    OneMoreVisit([], v);
    StreakStep([], e);
    OneMoreVisit([v], v);
    StreakStep([e], e);
    OneMoreVisit([v, v], v);
    StreakStep([e, e], e);
    assert [] + [v] == [v] && [v] + [v] == [v, v] && [] + [e] == [e] && [e] + [e] == [e, e];
    visits := [v, v] + [v];
  }

  lemma NoVisits()
    ensures RetryAfter([]) == Retry(0, "") && Log([]) == [] && Streak([]) == 0
  {
  }
}
