/** Retry then park, over runs of reconciles against a runtime that may fail and change. */
module ReconcileRuns {
  import opened Options
  import opened ReconcileSpec
  import opened RetryPolicy

  /** One reconcile that listed its containers: where it ended, what it called and reported. */
  datatype Round = Round(p: Pass, after: World, calls: seq<Call>, observed: map<Id, Observed>)

  ghost predicate IsRound(r: Round) {
    Reconciled(r.p, r.after, r.calls, r.observed)
  }

  ghost predicate SameRetries(w: World, w': World) {
    forall id :: RetryOf(w', id) == RetryOf(w, id)
  }

  /** The reconciles of one executor since it was made. Between two of them anything may happen
      to the containers and to the assignments; the retry state is the executor's own. */
  ghost predicate RunOf(rounds: seq<Round>) {
    && (forall i :: 0 <= i < |rounds| ==> IsRound(rounds[i]))
    && (rounds != [] ==> forall id :: RetryOf(rounds[0].p.before, id) == Retry(0, ""))
    && (forall i :: 0 < i < |rounds| ==> SameRetries(rounds[i - 1].after, rounds[i].p.before))
  }

  /** How a report reads. */
  function OutcomeShown(obs: Option<Observed>): Outcome {
    match obs
    case None => Skipped
    case Some(ObsFailed) => Failed
    case Some(ObsPending) => Waiting
    case Some(ObsRunning(_)) => Succeeded
    case Some(ObsStopped(_)) => Skipped
  }

  /** What the node reported about the bring-ups of one assignment, reconcile by reconcile. */
  function Reported(rounds: seq<Round>, id: Id): seq<Entry> {
    if rounds == [] then [] else
      var rest, r := Reported(rounds[..|rounds| - 1], id), rounds[|rounds| - 1];
      if Missing(r.p, id) then rest + [Entry(Wants(r.p)[id].hash, OutcomeShown(Lookup(r.observed, id)))] else rest
  }

  function Visits(rounds: seq<Round>, id: Id): seq<Visit> {
    if rounds == [] then [] else
      var rest, r := Visits(rounds[..|rounds| - 1], id), rounds[|rounds| - 1];
      if Missing(r.p, id) then rest + [VisitOf(r.p, id, r.calls)] else rest
  }

  lemma FrontIsRun(rounds: seq<Round>)
    requires RunOf(rounds) && rounds != []
    ensures RunOf(rounds[..|rounds| - 1]) && IsRound(rounds[|rounds| - 1])
    ensures |rounds| > 1 ==> SameRetries(rounds[|rounds| - 2].after, rounds[|rounds| - 1].p.before)
  {
    var front := rounds[..|rounds| - 1];
    forall i | 0 < i < |front| ensures SameRetries(front[i - 1].after, front[i].p.before) {
      assert SameRetries(rounds[i - 1].after, rounds[i].p.before);
    }
  }

  /** The report of one bring-up shows what the policy makes of the calls. */
  lemma ReportShowsOutcome(r: Round, id: Id)
    requires IsRound(r) && Missing(r.p, id)
    ensures OutcomeShown(Lookup(r.observed, id)) == OutcomeOf(RetryOf(r.p.before, id), VisitOf(r.p, id, r.calls))
    ensures RetryOf(r.after, id) == After(RetryOf(r.p.before, id), VisitOf(r.p, id, r.calls))
  {
    hide Picks, Fresh, KeepsOthers, KeepsLabels, NewContainers, Justified, RemovalsFirst, StopsInOrder, LaunchesFit;
    hide RemovesObsolete, StartsEligible, LaunchOf, LeaseWithholds, New, Adopted, AllOk;
    assert Reports(r.p, r.after, Wants(r.p).Keys, r.calls, r.observed);
    assert ReportsBringUp(r.p, r.after, id, LaunchOf(r.calls, id), Lookup(r.observed, id));
    assert RetriesFollow(r.p, r.after, Wants(r.p).Keys, r.calls);
  }

  lemma NotMissingKeeps(r: Round, id: Id)
    requires IsRound(r) && !Missing(r.p, id)
    ensures RetryOf(r.after, id) == RetryOf(r.p.before, id)
  {
    assert RetriesFollow(r.p, r.after, Wants(r.p).Keys, r.calls);
  }

  /** The state an executor is in when its next reconcile begins. */
  function RetryNow(rounds: seq<Round>, id: Id): Retry {
    if rounds == [] then Retry(0, "") else RetryOf(rounds[|rounds| - 1].after, id)
  }

  lemma BeginsWith(rounds: seq<Round>, id: Id)
    requires RunOf(rounds) && rounds != []
    ensures RetryOf(rounds[|rounds| - 1].p.before, id) == RetryNow(rounds[..|rounds| - 1], id)
  {
    FrontIsRun(rounds);
  }

  /** The executor's counters are those of the policy run on the visits, and its reports are
      that run's log. */
  lemma {:induction false} RunFollowsPolicy(rounds: seq<Round>, id: Id)
    requires RunOf(rounds)
    ensures RetryNow(rounds, id) == RetryAfter(Visits(rounds, id))
    ensures Reported(rounds, id) == Log(Visits(rounds, id))
  {
    hide IsRound, Missing, VisitOf, RetryOf, After, OutcomeOf;
    if rounds != [] {
      var front, r := rounds[..|rounds| - 1], rounds[|rounds| - 1];
      FrontIsRun(rounds);
      BeginsWith(rounds, id);
      RunFollowsPolicy(front, id);
      if Missing(r.p, id) {
        ReportShowsOutcome(r, id);
        HashOfVisit(r, id);
        var vs := Visits(front, id) + [VisitOf(r.p, id, r.calls)];
        assert vs[..|vs| - 1] == Visits(front, id);
      } else {
        NotMissingKeeps(r, id);
      }
    }
  }

  lemma HashOfVisit(r: Round, id: Id)
    requires Missing(r.p, id)
    ensures id in Wants(r.p) && VisitOf(r.p, id, r.calls).hash == Wants(r.p)[id].hash
  {
  }

  /** Every bring-up the run needed was of an assignment with a configuration hash. */
  ghost predicate HashesKnown(rounds: seq<Round>, id: Id) {
    forall i :: 0 <= i < |rounds| && Missing(rounds[i].p, id) ==> Wants(rounds[i].p)[id].hash != ""
  }

  lemma {:induction false} VisitsKnown(rounds: seq<Round>, id: Id)
    requires HashesKnown(rounds, id)
    ensures NonEmptyHashes(Visits(rounds, id))
  {
    if rounds != [] {
      VisitsKnown(rounds[..|rounds| - 1], id);
    }
  }

  /** Three failed bring-ups were reported since the last success or change of hash, and the
      assignment still has the hash they had. */
  predicate Exhausted(log: seq<Entry>, hash: string) {
    log != [] && Streak(log) == 3 && log[|log| - 1].hash == hash
  }

  /** Retry then park. Over every run of reconciles, whatever runtime calls fail and whatever
      happens to containers and assignments in between, with configuration hashes that are not
      empty: at most three failed bring-ups of an assignment are reported since its last success
      or change of hash; and the next reconcile that has to bring it up launches it exactly when
      there is a payload, no lease in the way, and the three have not been used up under the
      same hash. A launch is reported RUNNING exactly when all its calls succeeded, and otherwise
      FAILED. */
  lemma RunParksAfterThree(rounds: seq<Round>, id: Id)
    requires RunOf(rounds) && HashesKnown(rounds, id)
    ensures Streak(Reported(rounds, id)) <= 3
    ensures rounds != [] ==>
              var front, r := rounds[..|rounds| - 1], rounds[|rounds| - 1];
              var launch := LaunchOf(r.calls, id);
              && (launch != [] <==>
                    && Missing(r.p, id) && id in r.p.frame.runtime
                    && !LeaseWithholds(id, r.p.nodeId, r.p.frame.runtime[id])
                    && !Exhausted(Reported(front, id), Wants(r.p)[id].hash))
              && (launch != [] ==>
                    && IsWholeLaunch(launch) && id in r.observed
                    && (if AllOk(launch) then r.observed[id].ObsRunning? else r.observed[id] == ObsFailed))
              && (Missing(r.p, id) && Exhausted(Reported(front, id), Wants(r.p)[id].hash) ==>
                    id !in r.observed && forall k :: k in r.calls && k.id == id ==> !IsLaunch(k.op))
  {
    RunFollowsPolicy(rounds, id);
    VisitsKnown(rounds, id);
    CounterIsStreak(Visits(rounds, id));
    if rounds != [] {
      var front, r := rounds[..|rounds| - 1], rounds[|rounds| - 1];
      FrontIsRun(rounds);
      BeginsWith(rounds, id);
      RunFollowsPolicy(front, id);
      FrontKnown(rounds, id);
      VisitsKnown(front, id);
      RoundLaunches(r, id);
      if Missing(r.p, id) {
        HashOfVisit(r, id);
        ParksAfterThree(Visits(front, id), VisitOf(r.p, id, r.calls));
        ExhaustedIsSkipped(front, r, id);
      }
    }
  }

  lemma FrontKnown(rounds: seq<Round>, id: Id)
    requires HashesKnown(rounds, id) && rounds != []
    ensures HashesKnown(rounds[..|rounds| - 1], id)
    ensures Missing(rounds[|rounds| - 1].p, id) ==> Wants(rounds[|rounds| - 1].p)[id].hash != ""
  {
  }

  lemma ExhaustedIsSkipped(front: seq<Round>, r: Round, id: Id)
    requires Missing(r.p, id) && Wants(r.p)[id].hash != "" && NonEmptyHashes(Visits(front, id))
    requires Reported(front, id) == Log(Visits(front, id)) && RetryOf(r.p.before, id) == RetryAfter(Visits(front, id))
    ensures Exhausted(Reported(front, id), Wants(r.p)[id].hash) <==> Skips(r.p, id)
  {
    ParksAfterThree(Visits(front, id), VisitOf(r.p, id, r.calls));
  }

  lemma {:induction false} LaunchOfHas(calls: seq<Call>, id: Id, k: Call)
    ensures k in LaunchOf(calls, id) <==> k in calls && k.id == id && IsLaunch(k.op)
  {
    if calls != [] {
      LaunchOfHas(calls[..|calls| - 1], id, k);
      assert calls == calls[..|calls| - 1] + [calls[|calls| - 1]];
    }
  }

  /** One reconcile launches exactly the eligible assignments. */
  lemma RoundLaunches(r: Round, id: Id)
    requires IsRound(r)
    ensures var launch := LaunchOf(r.calls, id);
            && (launch != [] <==> Eligible(r.p, id))
            && (launch != [] ==>
                  && IsWholeLaunch(launch) && id in r.observed
                  && (if AllOk(launch) then r.observed[id].ObsRunning? else r.observed[id] == ObsFailed))
            && (launch == [] ==> forall k :: k in r.calls && k.id == id ==> !IsLaunch(k.op))
            && (Missing(r.p, id) && Skips(r.p, id) ==> id !in r.observed)
  {
    assert LaunchesFit(r.p, Wants(r.p).Keys, r.calls);
    if Missing(r.p, id) {
      assert Reports(r.p, r.after, Wants(r.p).Keys, r.calls, r.observed);
      assert ReportsBringUp(r.p, r.after, id, LaunchOf(r.calls, id), Lookup(r.observed, id));
    }
    forall k | k in r.calls && k.id == id && IsLaunch(k.op) ensures LaunchOf(r.calls, id) != [] {
      LaunchOfHas(r.calls, id, k);
    }
  }
}
