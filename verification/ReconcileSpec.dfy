/** What one `reconcile` of the node executor does to the container runtime, and what follows
    for any run whose runtime calls may fail. */
module ReconcileSpec {
  import opened Options
  import opened RetryPolicy

  type Id = nat  // assignment id; only its order matters
  type Cid = nat // container id

  datatype Desired = Unspecified | Run | Stop

  datatype Assignment = Assignment(id: Id, node: string, desired: Desired, hash: string)

  datatype Lease = Lease(node: string, assignment: Id)

  datatype Payload = Payload(image: string, stateful: bool, volumes: nat, lease: Option<Lease>)

  datatype AssignmentSet = AssignmentSet(assignments: seq<Assignment>, runtime: map<Id, Payload>)

  /** A container with the labels the executor reads. */
  datatype Container = Container(managed: bool, service: bool, aid: Option<Id>, hash: string, running: bool)

  datatype Op = List | Pull | Prepare | Create | Start | StopCall | Remove

  /** One runtime call, the assignment and container it was for, and whether it succeeded. */
  datatype Call = Call(op: Op, id: Id, cid: Cid, ok: bool)

  datatype Observed = ObsStopped(cid: Cid) | ObsRunning(cid: Cid) | ObsPending | ObsFailed

  /** Everything `reconcile` reads and writes. Container ids are fresh: all are below `next`. */
  datatype World = World(containers: map<Cid, Container>, next: Cid, failCount: map<Id, nat>, failHash: map<Id, string>)

  function RetryOf(w: World, id: Id): Retry {
    Retry(if id in w.failCount then w.failCount[id] else 0, if id in w.failHash then w.failHash[id] else "")
  }

  ghost predicate Fresh(w: World) {
    forall cid :: cid in w.containers ==> cid < w.next
  }

  predicate AllOk(calls: seq<Call>) {
    forall i :: 0 <= i < |calls| ==> calls[i].ok
  }

  // ---------- small decisions ----------

  predicate Owned(c: Container) {
    c.managed && c.service && c.aid.Some?
  }

  predicate Mine(a: Assignment, nodeId: string) {
    a.node == "" || nodeId == "" || a.node == nodeId
  }

  /** The last assignment of each id that is meant for this node. */
  function DesiredById(assignments: seq<Assignment>, nodeId: string): (d: map<Id, Assignment>)
    ensures forall id :: id in d ==> d[id].id == id && d[id] in assignments && Mine(d[id], nodeId)
  {
    if assignments == [] then map[] else
      var front, a := assignments[..|assignments| - 1], assignments[|assignments| - 1];
      if Mine(a, nodeId) then DesiredById(front, nodeId)[a.id := a] else DesiredById(front, nodeId)
  }

  /** A stateful service with volumes may start only under a lease naming this node and this
      assignment. */
  predicate LeaseWithholds(id: Id, nodeId: string, p: Payload) {
    p.stateful && p.volumes > 0 && p.lease != Some(Lease(nodeId, id))
  }

  /** `picked` is what `listOwned` may return: one owned container per assignment id. */
  ghost predicate Picks(containers: map<Cid, Container>, picked: map<Id, Cid>) {
    && (forall id :: id in picked ==>
          picked[id] in containers && Owned(containers[picked[id]]) && containers[picked[id]].aid == Some(id))
    && (forall cid :: cid in containers && Owned(containers[cid]) ==> containers[cid].aid.value in picked)
  }

  /** The inputs of one reconcile: the state it started in, and the containers it listed. */
  datatype Pass = Pass(before: World, nodeId: string, frame: AssignmentSet, picked: map<Id, Cid>)

  function Wants(p: Pass): map<Id, Assignment> {
    DesiredById(p.frame.assignments, p.nodeId)
  }

  predicate Runs(p: Pass, id: Id) {
    id in Wants(p) && Wants(p)[id].desired.Run?
  }

  /** The container runs the configuration its assignment wants. */
  predicate Matches(p: Pass, c: Container) {
    c.aid.Some? && Runs(p, c.aid.value) && c.hash == Wants(p)[c.aid.value].hash
  }

  predicate Adopted(p: Pass, id: Id) {
    id in p.picked && p.picked[id] in p.before.containers && Matches(p, p.before.containers[p.picked[id]])
  }

  predicate Obsolete(p: Pass, id: Id) {
    id in p.picked && p.picked[id] in p.before.containers && !Matches(p, p.before.containers[p.picked[id]])
  }

  /** The assignment needs a bring-up. */
  predicate Missing(p: Pass, id: Id) {
    Runs(p, id) && !Adopted(p, id)
  }

  predicate Skips(p: Pass, id: Id) {
    id in Wants(p) && Parked(RetryOf(p.before, id), Wants(p)[id].hash)
  }

  /** The bring-up may touch the runtime: a payload, no lease in the way, not parked. */
  predicate Eligible(p: Pass, id: Id) {
    Missing(p, id) && id in p.frame.runtime && !LeaseWithholds(id, p.nodeId, p.frame.runtime[id]) && !Skips(p, id)
  }

  /** The container a bring-up of `a` creates. */
  function ContainerFor(a: Assignment, running: bool): Container {
    Container(true, true, Some(a.id), a.hash, running)
  }

  // ---------- what one reconcile does ----------

  predicate New(p: Pass, w: World, cid: Cid) {
    cid in w.containers && cid !in p.before.containers
  }

  /** Containers that are not ours, and ours that were not found obsolete, stay as they are. */
  ghost predicate KeepsOthers(p: Pass, w: World) {
    forall cid :: cid in p.before.containers && !(exists id :: Obsolete(p, id) && p.picked[id] == cid) ==>
      cid in w.containers && w.containers[cid] == p.before.containers[cid]
  }

  /** Of an obsolete container at most the running flag changes. */
  ghost predicate KeepsLabels(p: Pass, w: World) {
    forall cid :: cid in p.before.containers && cid in w.containers ==>
      w.containers[cid] == p.before.containers[cid].(running := w.containers[cid].running)
  }

  /** `ids` are the obsolete assignments dealt with so far. */
  ghost predicate RemovesObsolete(p: Pass, w: World, ids: set<Id>) {
    forall id :: id in ids && Obsolete(p, id) ==> p.picked[id] !in w.containers
  }

  /** New containers are for eligible assignments visited so far, one each. */
  ghost predicate NewContainers(p: Pass, w: World, visited: set<Id>) {
    && (forall cid: Cid :: New(p, w, cid) ==>
          var c := w.containers[cid];
          && cid >= p.before.next && Owned(c) && c.aid.value in visited && Eligible(p, c.aid.value)
          && c == ContainerFor(Wants(p)[c.aid.value], c.running))
    && (forall cid: Cid, cid': Cid ::
          New(p, w, cid) && New(p, w, cid') && w.containers[cid].aid == w.containers[cid'].aid ==> cid == cid')
  }

  ghost predicate HasStarted(p: Pass, w: World, id: Id) {
    id in Wants(p) && exists cid :: New(p, w, cid) && w.containers[cid] == ContainerFor(Wants(p)[id], true)
  }

  ghost predicate StartsEligible(p: Pass, w: World, visited: set<Id>) {
    forall id :: id in visited && Eligible(p, id) ==> HasStarted(p, w, id)
  }

  /** A call that changes the runtime is for an obsolete container, or for the bring-up of an
      eligible assignment. */
  predicate Justified(p: Pass, k: Call) {
    || k.op.List?
    || ((k.op.StopCall? || k.op.Remove?) && Obsolete(p, k.id) && k.cid == p.picked[k.id])
    || (!k.op.StopCall? && Eligible(p, k.id) && (k.op.Pull? || k.op.Prepare? || k.cid >= p.before.next))
  }

  /** After the first creation only containers created by this reconcile are removed. */
  ghost predicate RemovalsFirst(next: Cid, calls: seq<Call>) {
    forall i, j :: 0 <= i < j < |calls| && calls[i].op.Create? && (calls[j].op.StopCall? || calls[j].op.Remove?) ==>
      calls[j].cid >= next
  }

  /** Removals go through the obsolete containers in assignment order. */
  predicate StopsInOrder(calls: seq<Call>) {
    forall i, j :: 0 <= i < j < |calls| && calls[i].op.StopCall? && calls[j].op.StopCall? ==> calls[i].id < calls[j].id
  }

  const LAUNCH_OPS := [Pull, Prepare, Create, Start]

  predicate IsLaunch(op: Op) {
    op.Pull? || op.Prepare? || op.Create? || op.Start?
  }

  /** The calls that launch assignment `id`, in order. */
  function LaunchOf(calls: seq<Call>, id: Id): seq<Call> {
    if calls == [] then [] else
      var rest, k := LaunchOf(calls[..|calls| - 1], id), calls[|calls| - 1];
      if k.id == id && IsLaunch(k.op) then rest + [k] else rest
  }

  /** A launch pulls, prepares, creates and starts, and ends at the first failure. */
  predicate IsWholeLaunch(launch: seq<Call>) {
    && 1 <= |launch| <= 4
    && (forall i :: 0 <= i < |launch| ==> launch[i].op == LAUNCH_OPS[i])
    && (forall i :: 0 <= i < |launch| - 1 ==> launch[i].ok)
    && (launch[|launch| - 1].ok ==> |launch| == 4)
  }

  /** Exactly the eligible assignments visited so far were launched. */
  ghost predicate LaunchesFit(p: Pass, visited: set<Id>, calls: seq<Call>) {
    forall id ::
      if id in visited && Eligible(p, id) then IsWholeLaunch(LaunchOf(calls, id)) else LaunchOf(calls, id) == []
  }

  function PayloadOf(p: Pass, id: Id): Option<Payload> {
    if id in p.frame.runtime then Some(p.frame.runtime[id]) else None
  }

  /** What a bring-up that is not parked meets: decided by payload and lease, then by whether
      every call of its launch succeeded. */
  function Meets(id: Id, nodeId: string, payload: Option<Payload>, launch: seq<Call>): Tried {
    if payload.None? then NoPayload
    else if LeaseWithholds(id, nodeId, payload.value) then Withheld
    else if AllOk(launch) then Started
    else RuntimeFailed
  }

  function VisitOf(p: Pass, id: Id, calls: seq<Call>): Visit
    requires id in Wants(p)
  {
    Visit(Wants(p)[id].hash, Meets(id, p.nodeId, PayloadOf(p, id), LaunchOf(calls, id)))
  }

  /** The retry state of every visited assignment follows the retry policy and the calls made. */
  ghost predicate RetriesFollow(p: Pass, w: World, visited: set<Id>, calls: seq<Call>) {
    forall id ::
      if id in visited && Missing(p, id) then
        RetryOf(w, id) == After(RetryOf(p.before, id), VisitOf(p, id, calls))
      else
        RetryOf(w, id) == RetryOf(p.before, id)
  }

  /** The report for an assignment that needed a bring-up. */
  ghost predicate ReportsBringUp(p: Pass, w: World, id: Id, launch: seq<Call>, obs: Option<Observed>)
    requires id in Wants(p)
  {
    if Skips(p, id) then obs.None?
    else if id !in p.frame.runtime then obs == Some(ObsFailed)
    else if LeaseWithholds(id, p.nodeId, p.frame.runtime[id]) then obs == Some(ObsPending)
    else if !AllOk(launch) then obs == Some(ObsFailed)
    else
      && obs.Some? && obs.value.ObsRunning? && New(p, w, obs.value.cid)
      && w.containers[obs.value.cid] == ContainerFor(Wants(p)[id], true)
  }

  function Lookup(observed: map<Id, Observed>, id: Id): Option<Observed> {
    if id in observed then Some(observed[id]) else None
  }

  /** The status batch: STOPPED for a container no longer wanted, RUNNING exactly after a
      launch that succeeded, for the container it started, PENDING for a withheld lease, FAILED for a
      failed bring-up, nothing for a parked or adopted assignment. */
  ghost predicate Reports(p: Pass, w: World, visited: set<Id>, calls: seq<Call>, observed: map<Id, Observed>) {
    forall id ::
      if id in p.picked && id in Wants(p) && !Runs(p, id) then Lookup(observed, id) == Some(ObsStopped(p.picked[id]))
      else if id in visited && Missing(p, id) then ReportsBringUp(p, w, id, LaunchOf(calls, id), Lookup(observed, id))
      else id !in observed
  }

  /** Reconcile `p`, once its removals are done and `visited` have been brought up, is in `w`,
      has made `calls` and has gathered the reports `observed`. */
  ghost predicate Progress(p: Pass, w: World, visited: set<Id>, calls: seq<Call>, observed: map<Id, Observed>) {
    && Fresh(w) && p.before.next <= w.next
    && KeepsOthers(p, w) && KeepsLabels(p, w)
    && NewContainers(p, w, visited)
    && (forall k :: k in calls ==> Justified(p, k))
    && RemovalsFirst(p.before.next, calls)
    && StopsInOrder(calls)
    && LaunchesFit(p, visited, calls)
    && RetriesFollow(p, w, visited, calls)
    && Reports(p, w, visited, calls, observed)
    && (AllOk(calls) ==> RemovesObsolete(p, w, p.picked.Keys) && StartsEligible(p, w, visited))
  }

  /** Reconcile `p` ended in `w`. */
  ghost predicate Reconciled(p: Pass, w: World, calls: seq<Call>, observed: map<Id, Observed>) {
    Picks(p.before.containers, p.picked) && Progress(p, w, Wants(p).Keys, calls, observed)
  }

  // ---------- convergence ----------

  ghost predicate OnePerAssignment(w: World) {
    forall cid, cid' ::
      HasOwned(w, cid) && HasOwned(w, cid') && w.containers[cid].aid == w.containers[cid'].aid ==> cid == cid'
  }

  predicate HasOwned(w: World, cid: Cid) {
    cid in w.containers && Owned(w.containers[cid])
  }

  ghost predicate HasContainer(w: World, id: Id) {
    exists cid :: HasOwned(w, cid) && w.containers[cid].aid == Some(id)
  }

  /** The assignment had a matching container, or its bring-up was allowed. */
  ghost predicate Wanted(p: Pass, id: Id) {
    || (exists cid :: HasOwned(p.before, cid) && p.before.containers[cid].aid == Some(id) &&
         Matches(p, p.before.containers[cid]))
    || Eligible(p, id)
  }

  lemma PickIsTheOne(p: Pass, cid: Cid)
    requires Picks(p.before.containers, p.picked) && OnePerAssignment(p.before)
    requires HasOwned(p.before, cid)
    ensures var id := p.before.containers[cid].aid.value; id in p.picked && p.picked[id] == cid
    ensures (exists id :: Obsolete(p, id) && p.picked[id] == cid) <==> !Matches(p, p.before.containers[cid])
  {
    var id := p.before.containers[cid].aid.value;
    assert HasOwned(p.before, p.picked[id]);
    if !Matches(p, p.before.containers[cid]) {
      assert Obsolete(p, id);
    }
  }

  lemma ForeignIsKept(p: Pass, w: World, calls: seq<Call>, observed: map<Id, Observed>, cid: Cid)
    requires Reconciled(p, w, calls, observed)
    requires cid in p.before.containers && !Owned(p.before.containers[cid])
    ensures cid in w.containers && w.containers[cid] == p.before.containers[cid]
  {
    forall id | Obsolete(p, id) ensures p.picked[id] != cid {
      assert Owned(p.before.containers[p.picked[id]]);
    }
  }

  /** What is left after a reconcile without failures: old containers that match, and new ones. */
  lemma LeftOver(p: Pass, w: World, calls: seq<Call>, observed: map<Id, Observed>, cid: Cid)
    requires Reconciled(p, w, calls, observed) && OnePerAssignment(p.before) && AllOk(calls)
    requires HasOwned(w, cid)
    ensures Matches(p, w.containers[cid]) && Wanted(p, w.containers[cid].aid.value)
    ensures cid in p.before.containers ==> HasOwned(p.before, cid) && Adopted(p, w.containers[cid].aid.value)
    ensures cid in p.before.containers ==> p.before.containers[cid] == w.containers[cid]
  {
    if cid in p.before.containers {
      PickIsTheOne(p, cid);
      assert !Obsolete(p, w.containers[cid].aid.value);
    }
  }

  lemma WantedHasContainer(p: Pass, w: World, calls: seq<Call>, observed: map<Id, Observed>, id: Id)
    requires Reconciled(p, w, calls, observed) && OnePerAssignment(p.before) && AllOk(calls)
    requires Wanted(p, id)
    ensures HasContainer(w, id)
  {
    if Eligible(p, id) {
      assert HasStarted(p, w, id);
      var cid :| New(p, w, cid) && w.containers[cid] == ContainerFor(Wants(p)[id], true);
      assert HasOwned(w, cid);
    } else {
      var cid :| HasOwned(p.before, cid) && p.before.containers[cid].aid == Some(id) &&
                 Matches(p, p.before.containers[cid]);
      PickIsTheOne(p, cid);
      assert HasOwned(w, cid);
    }
  }

  /** Convergence. A reconcile whose runtime calls succeeded leaves an owned container for an
      assignment exactly when the assignment is wanted: one only, of the wanted hash, running
      if this reconcile made it. Containers that are not ours are untouched. */
  lemma ReconcileConverges(p: Pass, w: World, calls: seq<Call>, observed: map<Id, Observed>)
    requires Reconciled(p, w, calls, observed) && OnePerAssignment(p.before) && AllOk(calls)
    ensures OnePerAssignment(w)
    ensures forall id :: HasContainer(w, id) <==> Wanted(p, id)
    ensures forall cid :: HasOwned(w, cid) ==> Matches(p, w.containers[cid])
    ensures forall id :: Eligible(p, id) ==> HasStarted(p, w, id)
    ensures forall cid :: cid in p.before.containers && !Owned(p.before.containers[cid]) ==>
              cid in w.containers && w.containers[cid] == p.before.containers[cid]
  {
    forall cid | cid in p.before.containers && !Owned(p.before.containers[cid])
      ensures cid in w.containers && w.containers[cid] == p.before.containers[cid]
    {
      ForeignIsKept(p, w, calls, observed, cid);
    }
    forall cid | HasOwned(w, cid)
      ensures Matches(p, w.containers[cid]) && Wanted(p, w.containers[cid].aid.value)
      ensures cid in p.before.containers ==> HasOwned(p.before, cid) && Adopted(p, w.containers[cid].aid.value)
      ensures cid in p.before.containers ==> p.before.containers[cid] == w.containers[cid]
    {
      LeftOver(p, w, calls, observed, cid);
    }
    forall id | Wanted(p, id) ensures HasContainer(w, id) {
      WantedHasContainer(p, w, calls, observed, id);
    }
  }

  // ---------- idempotence ----------

  lemma MatchingIsAdopted(q: Pass, cid: Cid)
    requires Picks(q.before.containers, q.picked) && OnePerAssignment(q.before)
    requires HasOwned(q.before, cid) && Matches(q, q.before.containers[cid])
    ensures Adopted(q, q.before.containers[cid].aid.value)
  {
    PickIsTheOne(q, cid);
  }

  /** Whoever is still missing after the first reconcile was not eligible in it. */
  lemma MissingAgain(p: Pass, w: World, calls: seq<Call>, observed: map<Id, Observed>, q: Pass, id: Id)
    requires Reconciled(p, w, calls, observed) && OnePerAssignment(p.before) && AllOk(calls)
    requires q.before == w && q.nodeId == p.nodeId && q.frame == p.frame && Picks(w.containers, q.picked)
    requires Missing(q, id)
    ensures Missing(p, id) && !Eligible(p, id)
  {
    ReconcileConverges(p, w, calls, observed);
    assert !HasContainer(w, id) by {
      forall cid | HasOwned(w, cid) ensures w.containers[cid].aid != Some(id) {
        MatchingIsAdopted(q, cid);
      }
    }
    if Adopted(p, id) {
      assert HasOwned(p.before, p.picked[id]);
      assert false;
    }
  }

  /** ... and a visit that was not eligible leaves the retry state such that the next is not. */
  lemma IneligibleStays(p: Pass, w: World, calls: seq<Call>, q: Pass, id: Id)
    requires RetriesFollow(p, w, Wants(p).Keys, calls) && q.before == w && q.nodeId == p.nodeId && q.frame == p.frame
    requires Missing(p, id) && !Eligible(p, id)
    ensures !Eligible(q, id)
  {
    assert RetryOf(w, id) == After(RetryOf(p.before, id), VisitOf(p, id, calls));
  }

  lemma NothingObsolete(p: Pass, q: Pass, id: Id)
    requires q.nodeId == p.nodeId && q.frame == p.frame && Picks(q.before.containers, q.picked)
    requires forall cid :: HasOwned(q.before, cid) ==> Matches(p, q.before.containers[cid])
    ensures !Obsolete(q, id)
  {
    if id in q.picked {
      assert HasOwned(q.before, q.picked[id]);
    }
  }

  lemma NothingLeft(p: Pass, w: World, calls: seq<Call>, observed: map<Id, Observed>, q: Pass, id: Id)
    requires Reconciled(p, w, calls, observed) && OnePerAssignment(p.before) && AllOk(calls)
    requires q.before == w && q.nodeId == p.nodeId && q.frame == p.frame && Picks(w.containers, q.picked)
    ensures !Eligible(q, id) && !Obsolete(q, id)
  {
    ReconcileConverges(p, w, calls, observed);
    NothingObsolete(p, q, id);
    if Missing(q, id) {
      MissingAgain(p, w, calls, observed, q, id);
      IneligibleStays(p, w, calls, q, id);
    }
  }

  /** Idempotence. After a reconcile whose runtime calls succeeded, a second reconcile of the
      same set makes no runtime call but the listing: no pull, create, start, stop or remove,
      whether or not its own listing succeeds. */
  lemma ReconcileIsIdempotent(p: Pass, w: World, calls: seq<Call>, observed: map<Id, Observed>,
                                                 q: Pass, w': World, calls': seq<Call>, observed': map<Id, Observed>)
    requires Reconciled(p, w, calls, observed) && OnePerAssignment(p.before) && AllOk(calls)
    requires q.before == w && q.nodeId == p.nodeId && q.frame == p.frame
    requires Reconciled(q, w', calls', observed')
    ensures forall k :: k in calls' ==> k.op.List?
    ensures w'.containers == w.containers
  {
    forall id ensures !Eligible(q, id) && !Obsolete(q, id) {
      NothingLeft(p, w, calls, observed, q, id);
    }
    hide Eligible, Obsolete;
    forall k | k in calls' ensures k.op.List? {
      assert Justified(q, k);
    }
    forall cid | cid in w'.containers ensures cid in w.containers {
      assert New(q, w', cid) || cid in w.containers;
    }
  }
}
