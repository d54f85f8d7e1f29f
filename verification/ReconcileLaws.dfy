/** What reconciles do and never do, told in terms of labels, assignments, payloads and calls alone. */
module ReconcileLaws {
  import opened Options
  import opened RetryPolicy
  import opened ReconcileSpec
  import opened ReconcileRuns

  /** `a` is what node `nodeId` is to make of its id: the last of the id that is for this node,
      which is every node when either side names none. */
  ghost predicate IsFor(assignments: seq<Assignment>, nodeId: string, a: Assignment) {
    exists i :: 0 <= i < |assignments| && assignments[i] == a && IsLastFor(assignments, nodeId, i)
  }

  ghost predicate IsLastFor(assignments: seq<Assignment>, nodeId: string, i: nat)
    requires i < |assignments|
  {
    && (assignments[i].node == nodeId || assignments[i].node == "" || nodeId == "")
    && forall j :: i < j < |assignments| && assignments[j].id == assignments[i].id ==>
         assignments[j].node != nodeId && assignments[j].node != "" && nodeId != ""
  }

  lemma {:induction false} DesiredIs(assignments: seq<Assignment>, nodeId: string, a: Assignment)
    ensures IsFor(assignments, nodeId, a) <==>
              a.id in DesiredById(assignments, nodeId) && DesiredById(assignments, nodeId)[a.id] == a
  {
    if assignments != [] {
      var n := |assignments| - 1;
      var front, last := assignments[..n], assignments[n];
      DesiredIs(front, nodeId, a);
      LastForStep(assignments, nodeId, a);
    }
  }

  lemma LastForStep(assignments: seq<Assignment>, nodeId: string, a: Assignment)
    requires assignments != []
    ensures var n := |assignments| - 1;
            var last := assignments[n];
            IsFor(assignments, nodeId, a) <==>
              if last.node == nodeId || last.node == "" || nodeId == "" then
                last == a || (last.id != a.id && IsFor(assignments[..n], nodeId, a))
              else IsFor(assignments[..n], nodeId, a)
  {
    var n := |assignments| - 1;
    var front, last := assignments[..n], assignments[n];
    if i :| 0 <= i < n && front[i] == a && IsLastFor(front, nodeId, i) {
      if last.id != a.id || (last.node != nodeId && last.node != "" && nodeId != "") {
        assert assignments[i] == a && IsLastFor(assignments, nodeId, i);
      }
    }
    if i :| 0 <= i < |assignments| && assignments[i] == a && IsLastFor(assignments, nodeId, i) {
      if i < n {
        assert front[i] == a && IsLastFor(front, nodeId, i);
      }
    }
    if last == a && (last.node == nodeId || last.node == "" || nodeId == "") {
      assert IsLastFor(assignments, nodeId, n);
    }
  }

  /** The assignment is to run here. */
  ghost predicate ToRun(p: Pass, a: Assignment) {
    IsFor(p.frame.assignments, p.nodeId, a) && a.desired == Run
  }

  /** A container of the executor's that runs this very configuration. */
  ghost predicate RunsConfig(w: World, cid: Cid, a: Assignment) {
    && cid in w.containers
    && w.containers[cid].managed && w.containers[cid].service
    && w.containers[cid].aid == Some(a.id) && w.containers[cid].hash == a.hash
  }

  ghost predicate HasConfig(w: World, a: Assignment) {
    exists cid :: RunsConfig(w, cid, a)
  }

  /** A call that pulls, prepares, creates or starts for the assignment. */
  predicate Launches(k: Call, id: Id) {
    k.id == id && k.op in {Pull, Prepare, Create, Start}
  }

  /** The volume fence is open: nothing to fence, or a lease for this node and this assignment. */
  predicate FenceOpen(payload: Payload, nodeId: string, id: Id) {
    !payload.stateful || payload.volumes == 0 ||
    (payload.lease.Some? && payload.lease.value.node == nodeId && payload.lease.value.assignment == id)
  }

  lemma WantsIs(p: Pass, a: Assignment)
    ensures ToRun(p, a) <==> a.id in Wants(p) && Wants(p)[a.id] == a && a.desired == Run
  {
    DesiredIs(p.frame.assignments, p.nodeId, a);
  }

  /** Nothing is launched without a reason: every call that pulls, prepares, creates or starts is
      for an assignment that is to run here and has a payload, and behind an open fence. */
  lemma LaunchNeedsFence(r: Round, k: Call)
    requires IsRound(r) && k in r.calls && Launches(k, k.id)
    ensures exists a: Assignment :: a.id == k.id && ToRun(r.p, a)
    ensures k.id in r.p.frame.runtime && FenceOpen(r.p.frame.runtime[k.id], r.p.nodeId, k.id)
  {
    RoundLaunches(r, k.id);
    LaunchOfHas(r.calls, k.id, k);
    WantsIs(r.p, Wants(r.p)[k.id]);
  }

  /** Two nodes given one payload never both launch a stateful assignment with volumes. */
  lemma OneNodeLaunches(r: Round, q: Round, k: Call, l: Call)
    requires IsRound(r) && IsRound(q) && r.p.nodeId != q.p.nodeId
    requires k in r.calls && l in q.calls && Launches(k, k.id) && Launches(l, k.id)
    requires k.id in r.p.frame.runtime && k.id in q.p.frame.runtime
    requires r.p.frame.runtime[k.id] == q.p.frame.runtime[k.id]
    ensures !r.p.frame.runtime[k.id].stateful || r.p.frame.runtime[k.id].volumes == 0
  {
    LaunchNeedsFence(r, k);
    LaunchNeedsFence(q, l);
  }

  lemma MissingIf(r: Round, a: Assignment)
    requires IsRound(r) && ToRun(r.p, a) && !HasConfig(r.p.before, a)
    ensures Missing(r.p, a.id) && Wants(r.p)[a.id] == a
  {
    hide Progress;
    WantsIs(r.p, a);
    assert Adopted(r.p, a.id) ==> RunsConfig(r.p.before, r.p.picked[a.id], a);
  }

  ghost predicate Launched(r: Round, id: Id) {
    exists k :: k in r.calls && Launches(k, id)
  }

  lemma LaunchedIs(r: Round, id: Id)
    requires IsRound(r)
    ensures Launched(r, id) <==> LaunchOf(r.calls, id) != []
    ensures (forall k :: k in r.calls && Launches(k, id) ==> k.ok) <==> AllOk(LaunchOf(r.calls, id))
  {
    hide IsRound;
    var launch := LaunchOf(r.calls, id);
    forall k ensures k in launch <==> k in r.calls && Launches(k, id) {
      LaunchOfHas(r.calls, id, k);
    }
    if launch != [] {
      assert launch[0] in launch;
    }
    if AllOk(launch) {
      forall k | k in r.calls && Launches(k, id) ensures k.ok {
        assert k in launch;
      }
    } else {
      var i :| 0 <= i < |launch| && !launch[i].ok;
      assert launch[i] in launch;
    }
  }

  /** Every assignment of the id, in every set the run was given, has a configuration hash. */
  ghost predicate Hashed(rounds: seq<Round>, id: Id) {
    forall i, a :: 0 <= i < |rounds| && a in rounds[i].p.frame.assignments && a.id == id ==> a.hash != ""
  }

  lemma HashedMeansKnown(rounds: seq<Round>, id: Id)
    requires Hashed(rounds, id)
    ensures HashesKnown(rounds, id)
  {
  }

  /** What becomes of an assignment that is to run here and has no container with its
      configuration, over every run of reconciles with hashes that are not empty:
      - three failures reported in a row under its hash: nothing is called or reported;
      - no payload: nothing is called, and FAILED is reported;
      - the volume fence closed: nothing is called, and PENDING is reported;
      - else it is launched, and RUNNING reported with a new container that runs its configuration
        if every call of the launch succeeded, FAILED otherwise. */
  lemma BringUpTells(rounds: seq<Round>, a: Assignment)
    requires RunOf(rounds) && Hashed(rounds, a.id) && rounds != []
    requires var r := rounds[|rounds| - 1]; ToRun(r.p, a) && !HasConfig(r.p.before, a)
    ensures var r := rounds[|rounds| - 1];
            var said := Lookup(r.observed, a.id);
            if Exhausted(Reported(rounds[..|rounds| - 1], a.id), a.hash) then !Launched(r, a.id) && said.None?
            else if a.id !in r.p.frame.runtime then !Launched(r, a.id) && said == Some(ObsFailed)
            else if !FenceOpen(r.p.frame.runtime[a.id], r.p.nodeId, a.id) then
              !Launched(r, a.id) && said == Some(ObsPending)
            else if forall k :: k in r.calls && Launches(k, a.id) ==> k.ok then
              && Launched(r, a.id) && said.Some? && said.value.ObsRunning?
              && said.value.cid !in r.p.before.containers && RunsConfig(r.after, said.value.cid, a)
              && r.after.containers[said.value.cid].running
            else Launched(r, a.id) && said == Some(ObsFailed)
  {
    var front, r := rounds[..|rounds| - 1], rounds[|rounds| - 1];
    hide RunOf, Hashed, HashesKnown, IsRound, ToRun, HasConfig, Reported, Exhausted, Launched, RunsConfig, Progress;
    HashedMeansKnown(rounds, a.id);
    LastIsRound(rounds);
    MissingIf(r, a);
    LaunchedIs(r, a.id);
    RunParksAfterThree(rounds, a.id);
    SkippedIff(rounds, a.id);
    OneReport(r, a);
  }

  lemma LastIsRound(rounds: seq<Round>)
    requires RunOf(rounds) && rounds != []
    ensures IsRound(rounds[|rounds| - 1])
  {
  }

  lemma SkippedIff(rounds: seq<Round>, id: Id)
    requires RunOf(rounds) && HashesKnown(rounds, id) && rounds != []
    requires Missing(rounds[|rounds| - 1].p, id)
    ensures var r := rounds[|rounds| - 1];
            Skips(r.p, id) <==> Exhausted(Reported(rounds[..|rounds| - 1], id), Wants(r.p)[id].hash)
  {
    hide RunOf, IsRound, Missing, Skips, Exhausted;
    var front, r := rounds[..|rounds| - 1], rounds[|rounds| - 1];
    FrontIsRun(rounds);
    BeginsWith(rounds, id);
    RunFollowsPolicy(front, id);
    FrontKnown(rounds, id);
    VisitsKnown(front, id);
    HashOfVisit(r, id);
    ExhaustedIsSkipped(front, r, id);
  }

  lemma OneReport(r: Round, a: Assignment)
    requires IsRound(r) && Missing(r.p, a.id) && Wants(r.p)[a.id] == a
    ensures var said := Lookup(r.observed, a.id);
            if Skips(r.p, a.id) then said.None?
            else if a.id !in r.p.frame.runtime then said == Some(ObsFailed)
            else if !FenceOpen(r.p.frame.runtime[a.id], r.p.nodeId, a.id) then said == Some(ObsPending)
            else if AllOk(LaunchOf(r.calls, a.id)) then
              && said.Some? && said.value.ObsRunning? && said.value.cid !in r.p.before.containers
              && RunsConfig(r.after, said.value.cid, a) && r.after.containers[said.value.cid].running
            else said == Some(ObsFailed)
  {
    assert Reports(r.p, r.after, Wants(r.p).Keys, r.calls, r.observed);
    assert ReportsBringUp(r.p, r.after, a.id, LaunchOf(r.calls, a.id), Lookup(r.observed, a.id));
  }

  // ---------- what is kept and what goes ----------

  /** Whatever fails, a container that lacks one of the three labels stays exactly as it was. */
  lemma UnlabelledIsKept(r: Round, cid: Cid)
    requires IsRound(r) && cid in r.p.before.containers
    requires var c := r.p.before.containers[cid]; !c.managed || !c.service || c.aid.None?
    ensures cid in r.after.containers && r.after.containers[cid] == r.p.before.containers[cid]
  {
    hide Progress;
    ForeignIsKept(r.p, r.after, r.calls, r.observed, cid);
  }

  /** No two labelled containers are for one assignment. */
  ghost predicate OneEach(w: World) {
    forall c, d ::
      c in w.containers && d in w.containers && Labelled(w, c) && Labelled(w, d) &&
      w.containers[c].aid == w.containers[d].aid
      ==> c == d
  }

  predicate Labelled(w: World, cid: Cid)
    requires cid in w.containers
  {
    w.containers[cid].managed && w.containers[cid].service && w.containers[cid].aid.Some?
  }

  /** Where a reconcile whose calls all succeed ends: every labelled container runs the present
      configuration of an assignment that is to run here; such an assignment has one exactly when
      it had one before or was launched; and what ran its configuration before is untouched. */
  lemma ConvergesTo(r: Round)
    requires IsRound(r) && OneEach(r.p.before) && forall k :: k in r.calls ==> k.ok
    ensures OneEach(r.after)
    ensures forall cid :: cid in r.after.containers && Labelled(r.after, cid) ==>
              exists a :: ToRun(r.p, a) && RunsConfig(r.after, cid, a)
    ensures forall a :: ToRun(r.p, a) ==>
              (HasConfig(r.after, a) <==> HasConfig(r.p.before, a) || Launched(r, a.id))
    ensures forall cid, a :: ToRun(r.p, a) && RunsConfig(r.p.before, cid, a) ==>
              cid in r.after.containers && r.after.containers[cid] == r.p.before.containers[cid]
  {
    hide Progress, HasContainer, Matches, Adopted, Wanted, Eligible, Launched, ToRun;
    var p, w := r.p, r.after;
    OneEachIs(p.before);
    OneEachIs(w);
    ReconcileConverges(p, w, r.calls, r.observed);
    forall cid | cid in w.containers && Labelled(w, cid) ensures exists a :: ToRun(p, a) && RunsConfig(w, cid, a) {
      assert HasOwned(w, cid);
      MatchIs(p, w.containers[cid]);
      var a := Wants(p)[w.containers[cid].aid.value];
      assert ToRun(p, a) && RunsConfig(w, cid, a);
    }
    forall a | ToRun(p, a) ensures HasConfig(w, a) <==> HasConfig(p.before, a) || Launched(r, a.id) {
      HasConfigIff(r, a);
    }
    forall cid, a | ToRun(p, a) && RunsConfig(p.before, cid, a)
      ensures cid in w.containers && w.containers[cid] == p.before.containers[cid]
    {
      MatchingIsKept(r, cid, a);
    }
  }

  lemma OneEachIs(w: World)
    ensures OneEach(w) <==> OnePerAssignment(w)
  {
  }

  lemma MatchIs(p: Pass, c: Container)
    requires Matches(p, c)
    ensures c.aid.Some? && c.aid.value in Wants(p)
    ensures var a := Wants(p)[c.aid.value]; ToRun(p, a) && a.hash == c.hash && a.id == c.aid.value
  {
    WantsIs(p, Wants(p)[c.aid.value]);
  }

  lemma HasConfigIff(r: Round, a: Assignment)
    requires IsRound(r) && OneEach(r.p.before) && (forall k :: k in r.calls ==> k.ok) && ToRun(r.p, a)
    ensures HasConfig(r.after, a) <==> HasConfig(r.p.before, a) || Launched(r, a.id)
  {
    hide Progress, HasStarted;
    var p, w := r.p, r.after;
    OneEachIs(p.before);
    ReconcileConverges(p, w, r.calls, r.observed);
    LaunchedIs(r, a.id);
    RoundLaunches(r, a.id);
    WantsIs(p, a);
    WantedIs(p, a);
    if HasConfig(w, a) {
      var cid :| RunsConfig(w, cid, a);
      assert HasOwned(w, cid);
      assert HasContainer(w, a.id);
    }
    if Wanted(p, a.id) {
      assert HasContainer(w, a.id);
      var cid :| HasOwned(w, cid) && w.containers[cid].aid == Some(a.id);
      assert RunsConfig(w, cid, a);
    }
  }

  lemma WantedIs(p: Pass, a: Assignment)
    requires ToRun(p, a)
    ensures Wanted(p, a.id) <==> HasConfig(p.before, a) || Eligible(p, a.id)
  {
    hide Eligible;
    WantsIs(p, a);
    if cid :| HasOwned(p.before, cid) && p.before.containers[cid].aid == Some(a.id) &&
              Matches(p, p.before.containers[cid])
    {
      assert RunsConfig(p.before, cid, a);
    }
    if HasConfig(p.before, a) {
      var cid :| RunsConfig(p.before, cid, a);
      assert HasOwned(p.before, cid);
    }
  }

  lemma MatchingIsKept(r: Round, cid: Cid, a: Assignment)
    requires IsRound(r) && OneEach(r.p.before) && ToRun(r.p, a) && RunsConfig(r.p.before, cid, a)
    ensures cid in r.after.containers && r.after.containers[cid] == r.p.before.containers[cid]
  {
    WantsIs(r.p, a);
    OneEachIs(r.p.before);
    PickIsTheOne(r.p, cid);
  }

  /** STOPPED is reported for exactly the assignments that are for this node but are not to run,
      and of which a labelled container was there. */
  lemma StoppedIsReported(r: Round, a: Assignment)
    requires IsRound(r) && IsFor(r.p.frame.assignments, r.p.nodeId, a) && a.desired != Run
    ensures (exists cid :: cid in r.p.before.containers && Labelled(r.p.before, cid) &&
               r.p.before.containers[cid].aid == Some(a.id)) <==> a.id in r.observed
    ensures a.id in r.observed ==> r.observed[a.id].ObsStopped?
  {
    DesiredIs(r.p.frame.assignments, r.p.nodeId, a);
    assert Reports(r.p, r.after, Wants(r.p).Keys, r.calls, r.observed);
    hide Progress, Reports;
    var before := r.p.before;
    if cid :| cid in before.containers && Labelled(before, cid) && before.containers[cid].aid == Some(a.id) {
      assert a.id in r.p.picked;
    }
    if a.id in r.p.picked {
      assert Labelled(r.p.before, r.p.picked[a.id]);
    }
  }

  // ---------- the order of a launch ----------

  lemma {:induction false} LaunchPrefix(calls: seq<Call>, id: Id, i: nat)
    requires i <= |calls|
    ensures LaunchOf(calls[..i], id) <= LaunchOf(calls, id)
  {
    if i < |calls| {
      var n := |calls| - 1;
      LaunchPrefix(calls[..n], id, i);
      assert calls[..n][..i] == calls[..i];
    } else {
      assert calls[..i] == calls;
    }
  }

  /** Of a launch, a step comes only after the ones before it have succeeded. */
  ghost predicate Follows(calls: seq<Call>, i: nat, op: Op)
    requires i < |calls|
  {
    exists j :: 0 <= j < i && calls[j].id == calls[i].id && calls[j].op == op && calls[j].ok
  }

  /** Nothing is prepared before its image is pulled, created before its volumes and network are
      prepared, or started before it is created; each step only once the one before succeeded. */
  lemma LaunchesInOrder(r: Round, i: nat)
    requires IsRound(r) && i < |r.calls| && Launches(r.calls[i], r.calls[i].id)
    ensures match r.calls[i].op
            case Prepare => Follows(r.calls, i, Pull)
            case Create => Follows(r.calls, i, Pull) && Follows(r.calls, i, Prepare)
            case Start => Follows(r.calls, i, Pull) && Follows(r.calls, i, Prepare) && Follows(r.calls, i, Create)
            case _ => true
  {
    hide IsRound, Eligible, Missing, Skips, IsWholeLaunch;
    var k := r.calls[i];
    var launch, before := LaunchOf(r.calls, k.id), LaunchOf(r.calls[..i], k.id);
    RoundLaunches(r, k.id);
    LaunchOfHas(r.calls, k.id, k);
    LaunchPrefix(r.calls, k.id, i + 1);
    assert r.calls[..i + 1][..i] == r.calls[..i];
    assert LaunchOf(r.calls[..i + 1], k.id) == before + [k];
    assert launch[|before|] == k;
    WholeLaunchAt(launch, |before|);
    forall n | 0 <= n < |before| ensures Follows(r.calls, i, launch[n].op) {
      assert before[n] == launch[n] && before[n] in before;
      LaunchOfHas(r.calls[..i], k.id, before[n]);
      var j :| 0 <= j < i && r.calls[j] == before[n];
    }
  }

  lemma WholeLaunchAt(launch: seq<Call>, n: nat)
    requires IsWholeLaunch(launch) && n < |launch|
    ensures launch[n].op == if n == 0 then Pull else if n == 1 then Prepare else if n == 2 then Create else Start
    ensures forall i :: 0 <= i < n ==> launch[i].ok
    ensures n > 0 ==> launch[0].op == Pull
    ensures n > 1 ==> launch[1].op == Prepare
    ensures n > 2 ==> launch[2].op == Create
  {
  }
}
