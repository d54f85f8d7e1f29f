/** The node executor and the container runtime it drives, as objects. */
module Executor {
  import opened Options
  import opened ReconcileRuns
  import opened ReconcileSpec
  import opened RetryPolicy
  import Sorting

  /** A container runtime any of whose calls may fail; a failed call changes nothing. */
  class Runtime {
    var containers: map<Cid, Container>
    var next: Cid
    var calls: seq<Call>

    constructor ()
      ensures containers == map[] && next == 0 && calls == []
    {
      containers, next, calls := map[], 0, [];
    }

    method ListContainers() returns (ok: bool, infos: seq<Cid>)
      modifies this`calls
      ensures calls == old(calls) + [Call(List, 0, 0, ok)]
      ensures ok ==> forall cid :: cid in infos <==>
                cid in containers && containers[cid].managed && containers[cid].service
    {
      ok := *;
      calls := calls + [Call(List, 0, 0, ok)];
      infos := [];
      var left := containers.Keys;
      while left != {}
        invariant left <= containers.Keys
        invariant forall cid :: cid in infos <==>
                    cid in containers && cid !in left && containers[cid].managed && containers[cid].service
        decreases left
      {
        var cid :| cid in left;
        left := left - {cid};
        if containers[cid].managed && containers[cid].service {
          infos := infos + [cid];
        }
      }
    }

    /** Containers may stop, disappear or be altered and added by others at any time. */
    method Drift()
      modifies this
      ensures (forall cid :: cid in containers ==> cid < next) && calls == old(calls)
      ensures old(next) <= next
    {
      var altered: map<Cid, Container>, top: Cid := *, *;
      containers := map cid | cid in altered && cid < next + top :: altered[cid];
      next := next + top;
    }

    /** Pulling the image, or the volumes and network of the container spec. */
    method Ensure(op: Op, id: Id) returns (ok: bool)
      modifies this`calls
      ensures calls == old(calls) + [Call(op, id, 0, ok)]
    {
      ok := *;
      calls := calls + [Call(op, id, 0, ok)];
    }

    method CreateContainer(a: Assignment) returns (ok: bool, cid: Cid)
      modifies this
      ensures cid == old(next) && calls == old(calls) + [Call(Create, a.id, cid, ok)]
      ensures if ok then containers == old(containers)[cid := ContainerFor(a, false)] && next == cid + 1
              else containers == old(containers) && next == old(next)
    {
      ok, cid := *, next;
      calls := calls + [Call(Create, a.id, cid, ok)];
      if ok {
        containers := containers[cid := ContainerFor(a, false)];
        next := next + 1;
      }
    }

    method StartContainer(id: Id, cid: Cid) returns (ok: bool)
      modifies this`containers, this`calls
      ensures calls == old(calls) + [Call(Start, id, cid, ok)]
      ensures if ok then cid in old(containers) &&
                containers == old(containers)[cid := old(containers)[cid].(running := true)]
              else containers == old(containers)
    {
      ok := *;
      ok := ok && cid in containers;
      calls := calls + [Call(Start, id, cid, ok)];
      if ok {
        containers := containers[cid := containers[cid].(running := true)];
      }
    }

    /** "Not found" counts as success, as it does for the callers. */
    method StopContainer(id: Id, cid: Cid) returns (ok: bool)
      modifies this`containers, this`calls
      ensures calls == old(calls) + [Call(StopCall, id, cid, ok)]
      ensures if ok && cid in old(containers)
                then containers == old(containers)[cid := old(containers)[cid].(running := false)]
              else containers == old(containers)
    {
      ok := *;
      calls := calls + [Call(StopCall, id, cid, ok)];
      if ok && cid in containers {
        containers := containers[cid := containers[cid].(running := false)];
      }
    }

    method RemoveContainer(id: Id, cid: Cid) returns (ok: bool)
      modifies this`containers, this`calls
      ensures calls == old(calls) + [Call(Remove, id, cid, ok)]
      ensures containers == if ok then old(containers) - {cid} else old(containers)
    {
      ok := *;
      calls := calls + [Call(Remove, id, cid, ok)];
      if ok {
        containers := containers - {cid};
      }
    }
  }

  // ---------- one bring-up ----------

  predicate MayTouch(w: World, a: Assignment, nodeId: string, payload: Option<Payload>) {
    payload.Some? && !LeaseWithholds(a.id, nodeId, payload.value) && !Parked(RetryOf(w, a.id), a.hash)
  }

  /** A bring-up of `a` led from `w` to `w'` with `calls`, returning `obs`. */
  ghost predicate BroughtUp(w: World, w': World, a: Assignment, nodeId: string, payload: Option<Payload>,
        calls: seq<Call>, obs: Option<Observed>) {
    && Fresh(w') && w.next <= w'.next
    && (forall id :: id != a.id ==> RetryOf(w', id) == RetryOf(w, id))
    && RetryOf(w', a.id) == After(RetryOf(w, a.id), Visit(a.hash, Meets(a.id, nodeId, payload, LaunchOf(calls, a.id))))
    && (forall k :: k in calls ==>
         k.id == a.id && !k.op.List? && !k.op.StopCall? && (k.op.Pull? || k.op.Prepare? || k.cid >= w.next))
    && (if MayTouch(w, a, nodeId, payload) then IsWholeLaunch(LaunchOf(calls, a.id)) else calls == [])
    && (MayTouch(w, a, nodeId, payload) ==> (AllOk(calls) <==> AllOk(LaunchOf(calls, a.id))))
    && (if Parked(RetryOf(w, a.id), a.hash) then obs.None?
        else if payload.None? then obs == Some(ObsFailed)
        else if LeaseWithholds(a.id, nodeId, payload.value) then obs == Some(ObsPending)
        else if AllOk(LaunchOf(calls, a.id)) then obs.Some? && obs.value.ObsRunning?
        else obs == Some(ObsFailed))
    && (if obs.Some? && obs.value.ObsRunning? then
          obs.value.cid == w.next < w'.next && w'.containers == w.containers[w.next := ContainerFor(a, true)]
        else
          || w'.containers == w.containers
          || (MayTouch(w, a, nodeId, payload) && !AllOk(calls) &&
               w'.containers == w.containers[w.next := ContainerFor(a, false)]))
  }

  // ---------- steps of the two passes ----------

  /** The STOP pass has dealt with `ids`. */
  ghost predicate Stopping(p: Pass, w: World, ids: set<Id>, calls: seq<Call>) {
    && Fresh(w) && w.next == p.before.next && w.failCount == p.before.failCount && w.failHash == p.before.failHash
    && KeepsOthers(p, w) && KeepsLabels(p, w) && w.containers.Keys <= p.before.containers.Keys
    && (forall k :: k in calls ==> Justified(p, k) && (k.op.StopCall? || k.op.Remove?) && k.id in ids)
    && StopsInOrder(calls)
    && (AllOk(calls) ==> RemovesObsolete(p, w, ids))
  }

  lemma NothingStopped(p: Pass)
    requires Fresh(p.before)
    ensures Stopping(p, p.before, {}, [])
  {
  }

  lemma AllOkConcat(a: seq<Call>, b: seq<Call>)
    ensures AllOk(a + b) <==> AllOk(a) && AllOk(b)
  {
    if AllOk(a + b) {
      forall i | 0 <= i < |a| ensures a[i].ok {
        assert (a + b)[i] == a[i];
      }
      forall i | 0 <= i < |b| ensures b[i].ok {
        assert (a + b)[|a| + i] == b[i];
      }
    }
  }

  lemma {:induction false} LaunchOfConcat(a: seq<Call>, b: seq<Call>, id: Id)
    ensures LaunchOf(a + b, id) == LaunchOf(a, id) + LaunchOf(b, id)
  {
    if b == [] {
      assert a + b == a;
    } else {
      assert (a + b)[..|a + b| - 1] == a + b[..|b| - 1];
      LaunchOfConcat(a, b[..|b| - 1], id);
    }
  }

  lemma {:induction false} LaunchOfNone(calls: seq<Call>, id: Id)
    requires forall k :: k in calls ==> k.id != id || !IsLaunch(k.op)
    ensures LaunchOf(calls, id) == []
  {
    if calls != [] {
      assert calls[|calls| - 1] in calls;
      LaunchOfNone(calls[..|calls| - 1], id);
    }
  }

  lemma {:induction false} LaunchOfAll(calls: seq<Call>, id: Id)
    requires forall i :: 0 <= i < |calls| ==> calls[i].id == id && IsLaunch(calls[i].op)
    ensures LaunchOf(calls, id) == calls
  {
    if calls != [] {
      LaunchOfAll(calls[..|calls| - 1], id);
    }
  }

  predicate ForLaunch(k: Call, id: Id, next: Cid) {
    k.id == id && IsLaunch(k.op) && (k.op.Pull? || k.op.Prepare? || k.cid == next)
  }

  /** Pull, prepare and create succeeded, or one of them failed and ended the launch. */
  predicate LaunchBegan(made: seq<Call>, ok: bool) {
    && 1 <= |made| <= 3
    && (forall i :: 0 <= i < |made| ==> made[i].op == LAUNCH_OPS[i])
    && (forall i :: 0 <= i < |made| - 1 ==> made[i].ok)
    && made[|made| - 1].ok == ok && (ok ==> |made| == 3)
  }

  lemma LaunchEnds(made: seq<Call>, id: Id, next: Cid)
    requires LaunchBegan(made, false) && forall k :: k in made ==> ForLaunch(k, id, next)
    ensures IsWholeLaunch(LaunchOf(made, id)) && !AllOk(LaunchOf(made, id)) && !AllOk(made)
  {
    assert forall i :: 0 <= i < |made| ==> made[i] in made;
    LaunchOfAll(made, id);
    hide LaunchOf;
  }

  lemma LaunchStarts(made: seq<Call>, k: Call, next: Cid)
    requires LaunchBegan(made, true) && k.op.Start? && forall m :: m in made ==> ForLaunch(m, k.id, next)
    ensures var launch := made + [k];
            IsWholeLaunch(launch) && LaunchOf(launch, k.id) == launch && (AllOk(launch) <==> k.ok)
  {
    assert forall i :: 0 <= i < |made| ==> made[i] in made;
    var launch := made + [k];
    LaunchOfAll(launch, k.id);
    hide LaunchOf;
    assert launch[3] == k;
  }

  lemma LaunchRolledBack(launch: seq<Call>, k: Call)
    requires LaunchOf(launch, k.id) == launch && k.op.Remove? && !AllOk(launch)
    ensures LaunchOf(launch + [k], k.id) == launch && !AllOk(launch + [k])
  {
    LaunchOfNext(launch, k, k.id);
    AllOkConcat(launch, [k]);
  }

  lemma LaunchOfNext(calls: seq<Call>, k: Call, id: Id)
    ensures LaunchOf(calls + [k], id) == LaunchOf(calls, id) + if k.id == id && IsLaunch(k.op) then [k] else []
  {
    assert (calls + [k])[..|calls|] == calls;
  }

  /** What one stop-and-remove may do to the containers. */
  ghost predicate OnlyRemoves(w: World, w': World, cid: Cid, removed: bool) {
    && w' == w.(containers := w'.containers)
    && (forall x :: x != cid ==>
         (x in w'.containers <==> x in w.containers) && (x in w.containers ==> w'.containers[x] == w.containers[x]))
    && (cid in w'.containers ==>
          && !removed && cid in w.containers
          && w'.containers[cid] == w.containers[cid].(running := w'.containers[cid].running))
  }

  lemma StopCalls(id: Id, cid: Cid, stopped: bool, removed: bool, calls: seq<Call>)
    ensures var now := [Call(StopCall, id, cid, stopped), Call(Remove, id, cid, removed)];
            AllOk(calls + now) ==> AllOk(calls) && removed
  {
    var now := [Call(StopCall, id, cid, stopped), Call(Remove, id, cid, removed)];
    AllOkConcat(calls, now);
    assert now[1].ok == removed;
  }

  lemma StopKeeps(p: Pass, w: World, w': World, ids: set<Id>, calls: seq<Call>, id: Id, removed: bool)
    requires Stopping(p, w, ids, calls) && Obsolete(p, id) && Picks(p.before.containers, p.picked)
    requires OnlyRemoves(w, w', p.picked[id], removed)
    ensures Fresh(w') && KeepsOthers(p, w') && KeepsLabels(p, w') && w'.containers.Keys <= p.before.containers.Keys
    ensures AllOk(calls) && removed ==> RemovesObsolete(p, w', ids + {id})
  {
  }

  lemma StopStep(p: Pass, w: World, w': World, ids: set<Id>, calls: seq<Call>, id: Id, stopped: bool, removed: bool)
    requires Stopping(p, w, ids, calls) && Obsolete(p, id) && Picks(p.before.containers, p.picked)
    requires OnlyRemoves(w, w', p.picked[id], removed) && forall done :: done in ids ==> done < id
    ensures Stopping(p, w', ids + {id},
              calls + [Call(StopCall, id, p.picked[id], stopped), Call(Remove, id, p.picked[id], removed)])
  {
    StopKeeps(p, w, w', ids, calls, id, removed);
    StopCalls(id, p.picked[id], stopped, removed, calls);
    StopOrderStep(calls, id, p.picked[id], stopped, removed);
    hide Fresh, KeepsOthers, KeepsLabels, RemovesObsolete, AllOk, Picks, StopsInOrder;
  }

  lemma StopOrderStep(calls: seq<Call>, id: Id, cid: Cid, stopped: bool, removed: bool)
    requires StopsInOrder(calls) && forall k :: k in calls ==> k.id < id
    ensures StopsInOrder(calls + [Call(StopCall, id, cid, stopped), Call(Remove, id, cid, removed)])
  {
    var all := calls + [Call(StopCall, id, cid, stopped), Call(Remove, id, cid, removed)];
    forall i, j | 0 <= i < j < |all| && all[i].op.StopCall? && all[j].op.StopCall? ensures all[i].id < all[j].id {
      assert i < |calls| ==> all[i] in calls;
    }
  }

  /** After the STOP pass nothing has been visited yet. */
  lemma StopPassDone(p: Pass, w: World, ids: set<Id>, calls: seq<Call>, observed: map<Id, Observed>)
    requires Stopping(p, w, ids, calls)
    requires forall id :: id in p.picked && Obsolete(p, id) ==> id in ids
    requires Reports(p, p.before, {}, [], observed)
    ensures Progress(p, w, {}, calls, observed)
  {
    forall id ensures LaunchOf(calls, id) == [] {
      LaunchOfNone(calls, id);
    }
  }

  lemma RemovalsConcat(next: Cid, a: seq<Call>, b: seq<Call>)
    requires RemovalsFirst(next, a)
    requires forall k :: k in b ==> !k.op.StopCall? && (k.op.Remove? ==> k.cid >= next)
    ensures RemovalsFirst(next, a + b)
  {
    forall i, j | 0 <= i < j < |a + b| && (a + b)[i].op.Create? && ((a + b)[j].op.StopCall? || (a + b)[j].op.Remove?)
      ensures (a + b)[j].cid >= next
    {
      if j >= |a| {
        assert (a + b)[j] in b;
      }
    }
  }

  lemma StopsConcat(a: seq<Call>, b: seq<Call>)
    requires StopsInOrder(a) && forall k :: k in b ==> !k.op.StopCall?
    ensures StopsInOrder(a + b)
  {
    assert forall j :: |a| <= j < |a + b| ==> (a + b)[j] in b;
  }

  function Record(observed: map<Id, Observed>, id: Id, obs: Option<Observed>): map<Id, Observed> {
    if obs.Some? then observed[id := obs.value] else observed
  }

  /** `w'` has the containers of `w`, and possibly one more for `a`. */
  ghost predicate Grew(w: World, w': World, a: Assignment) {
    || w'.containers == w.containers
    || exists running :: w'.containers == w.containers[w.next := ContainerFor(a, running)]
  }

  lemma GrowthKeeps(p: Pass, w: World, w': World, a: Assignment)
    requires Fresh(p.before) && Fresh(w) && p.before.next <= w.next && Grew(w, w', a)
    ensures forall cid :: cid in w.containers ==> cid in w'.containers && w'.containers[cid] == w.containers[cid]
    ensures forall cid :: New(p, w, cid) ==> New(p, w', cid)
    ensures forall cid :: New(p, w', cid) && !New(p, w, cid) ==>
              cid == w.next && exists running :: w'.containers[cid] == ContainerFor(a, running)
    ensures forall cid :: cid in w'.containers && cid in p.before.containers ==> cid in w.containers
  {
  }

  lemma GrowthKeepsOld(p: Pass, w: World, w': World, a: Assignment)
    requires Fresh(p.before) && Fresh(w) && p.before.next <= w.next && Grew(w, w', a)
    requires Picks(p.before.containers, p.picked)
    requires KeepsOthers(p, w) && KeepsLabels(p, w)
    ensures KeepsOthers(p, w') && KeepsLabels(p, w')
    ensures RemovesObsolete(p, w, p.picked.Keys) ==> RemovesObsolete(p, w', p.picked.Keys)
  {
    GrowthKeeps(p, w, w', a);
  }

  lemma GrowthIsNew(p: Pass, w: World, w': World, visited: set<Id>, id: Id)
    requires Fresh(p.before) && Fresh(w) && p.before.next <= w.next
    requires id in Wants(p) && Grew(w, w', Wants(p)[id])
    requires NewContainers(p, w, visited) && id !in visited
    requires w'.containers == w.containers || Eligible(p, id)
    ensures NewContainers(p, w', visited + {id})
  {
    GrowthKeeps(p, w, w', Wants(p)[id]);
  }

  lemma BroughtUpGrew(p: Pass, w: World, w': World, visited: set<Id>, calls: seq<Call>, observed: map<Id, Observed>,
        id: Id, made: seq<Call>, obs: Option<Observed>)
    requires Progress(p, w, visited, calls, observed) && Missing(p, id) && id !in visited
    requires BroughtUp(w, w', Wants(p)[id], p.nodeId, PayloadOf(p, id), made, obs)
    ensures Grew(w, w', Wants(p)[id])
    ensures RetryOf(w, id) == RetryOf(p.before, id) &&
            (MayTouch(w, Wants(p)[id], p.nodeId, PayloadOf(p, id)) <==> Eligible(p, id))
    ensures w'.containers == w.containers || Eligible(p, id)
    ensures ReportsBringUp(p, w', id, LaunchOf(made, id), obs) || w.next in p.before.containers
    ensures LaunchOf(calls, id) == []
    ensures id !in observed
  {
    assert RetryOf(w, id) == RetryOf(p.before, id);
  }

  /** The launch calls of one more bring-up, for its own assignment and for the others. */
  lemma RunStepLaunch(calls: seq<Call>, made: seq<Call>, id: Id, other: Id)
    requires LaunchOf(calls, id) == [] && forall k :: k in made ==> k.id == id
    ensures LaunchOf(calls + made, id) == LaunchOf(made, id)
    ensures other != id ==> LaunchOf(calls + made, other) == LaunchOf(calls, other)
  {
    LaunchOfConcat(calls, made, id);
    LaunchOfConcat(calls, made, other);
    if other != id {
      LaunchOfNone(made, other);
    }
  }

  lemma RunStepFits(p: Pass, visited: set<Id>, calls: seq<Call>, id: Id, made: seq<Call>)
    requires LaunchesFit(p, visited, calls) && id !in visited && forall k :: k in made ==> k.id == id
    requires if Eligible(p, id) then IsWholeLaunch(LaunchOf(made, id)) else made == []
    ensures LaunchesFit(p, visited + {id}, calls + made)
  {
    hide IsWholeLaunch, Eligible, LaunchOf;
    assert LaunchOf(calls, id) == [];
    LaunchOfNone([], id);
    forall other
      ensures if other in visited + {id} && Eligible(p, other) then IsWholeLaunch(LaunchOf(calls + made, other))
                else LaunchOf(calls + made, other) == []
    {
      RunStepLaunch(calls, made, id, other);
    }
  }

  lemma RunStepRetries(p: Pass, w: World, w': World, visited: set<Id>, calls: seq<Call>, id: Id, made: seq<Call>)
    requires RetriesFollow(p, w, visited, calls) && Missing(p, id) && id !in visited
    requires LaunchOf(calls, id) == [] && forall k :: k in made ==> k.id == id
    requires forall other :: other != id ==> RetryOf(w', other) == RetryOf(w, other)
    requires RetryOf(w', id) == After(RetryOf(w, id), VisitOf(p, id, made))
    ensures RetriesFollow(p, w', visited + {id}, calls + made)
  {
    hide After, RetryOf, LaunchOf, Meets;
    forall other
      ensures if other in visited + {id} && Missing(p, other) then
                RetryOf(w', other) == After(RetryOf(p.before, other), VisitOf(p, other, calls + made))
              else RetryOf(w', other) == RetryOf(p.before, other)
    {
      RunStepLaunch(calls, made, id, other);
    }
  }

  lemma RunStepReports(p: Pass, w: World, w': World, visited: set<Id>, calls: seq<Call>, observed: map<Id, Observed>,
        id: Id, made: seq<Call>, obs: Option<Observed>)
    requires Reports(p, w, visited, calls, observed) && Missing(p, id) && id !in visited && id !in observed
    requires LaunchOf(calls, id) == [] && forall k :: k in made ==> k.id == id
    requires forall cid :: New(p, w, cid) ==> New(p, w', cid) && w'.containers[cid] == w.containers[cid]
    requires ReportsBringUp(p, w', id, LaunchOf(made, id), obs)
    ensures Reports(p, w', visited + {id}, calls + made, Record(observed, id, obs))
  {
    hide LaunchOf, AllOk;
    var seen := Record(observed, id, obs);
    assert Lookup(seen, id) == obs;
    RunStepLaunch(calls, made, id, id);
    forall other | other != id && other in visited && Missing(p, other)
      ensures ReportsBringUp(p, w', other, LaunchOf(calls + made, other), Lookup(seen, other))
    {
      RunStepLaunch(calls, made, id, other);
      assert ReportsBringUp(p, w, other, LaunchOf(calls, other), Lookup(observed, other));
      assert Lookup(seen, other) == Lookup(observed, other);
    }
  }

  lemma RunStepStarts(p: Pass, w: World, w': World, visited: set<Id>, id: Id)
    requires StartsEligible(p, w, visited)
    requires forall cid :: New(p, w, cid) ==> New(p, w', cid) && w'.containers[cid] == w.containers[cid]
    requires Eligible(p, id) ==> HasStarted(p, w', id)
    ensures StartsEligible(p, w', visited + {id})
  {
    forall other | other in visited + {id} && Eligible(p, other) ensures HasStarted(p, w', other) {
      if other != id {
        assert HasStarted(p, w, other);
        var cid :| New(p, w, cid) && w.containers[cid] == ContainerFor(Wants(p)[other], true);
        assert New(p, w', cid);
      }
    }
  }

  lemma RunStep(p: Pass, w: World, w': World, visited: set<Id>, calls: seq<Call>, observed: map<Id, Observed>, id: Id,
        made: seq<Call>, obs: Option<Observed>)
    requires Progress(p, w, visited, calls, observed) && Missing(p, id) && id !in visited
    requires Fresh(p.before) && Picks(p.before.containers, p.picked)
    requires BroughtUp(w, w', Wants(p)[id], p.nodeId, PayloadOf(p, id), made, obs)
    ensures Progress(p, w', visited + {id}, calls + made, Record(observed, id, obs)) && Fresh(w')
  {
    var a := Wants(p)[id];
    BroughtUpGrew(p, w, w', visited, calls, observed, id, made, obs);
    GrowthKeeps(p, w, w', a);
    GrowthKeepsOld(p, w, w', a);
    GrowthIsNew(p, w, w', visited, id);
    RunStepReports(p, w, w', visited, calls, observed, id, made, obs);
    RunStepRetries(p, w, w', visited, calls, id, made);
    RunStepFits(p, visited, calls, id, made);
    RemovalsConcat(p.before.next, calls, made);
    StopsConcat(calls, made);
    AllOkConcat(calls, made);
    if AllOk(calls + made) {
      if Eligible(p, id) {
        assert New(p, w', w.next);
      }
      RunStepStarts(p, w, w', visited, id);
    }
    forall k | k in calls + made ensures Justified(p, k) {
      assert k in calls || k in made;
    }
  }

  /** Visiting an assignment that needs no bring-up changes nothing. */
  lemma SkipStep(p: Pass, w: World, visited: set<Id>, calls: seq<Call>, observed: map<Id, Observed>, id: Id)
    requires Progress(p, w, visited, calls, observed) && !Missing(p, id)
    ensures Progress(p, w, visited + {id}, calls, observed)
  {
  }

  // ---------- the executor ----------

  datatype OwnedContainer = OwnedContainer(cid: Cid, aid: Id, hash: string)

  function OwnedAid(c: OwnedContainer): int { c.aid }

  function KeyOrder(id: Id): int { id }

  lemma StopsAfterList(calls: seq<Call>)
    requires StopsInOrder(calls)
    ensures StopsInOrder([Call(List, 0, 0, true)] + calls)
  {
    var all := [Call(List, 0, 0, true)] + calls;
    forall i, j | 0 <= i < j < |all| && all[i].op.StopCall? && all[j].op.StopCall? ensures all[i].id < all[j].id {
      assert all[i] == calls[i - 1] && all[j] == calls[j - 1];
    }
  }

  lemma ListFirst(p: Pass, w: World, calls: seq<Call>, observed: map<Id, Observed>)
    requires Progress(p, w, {}, calls, observed)
    ensures Progress(p, w, {}, [Call(List, 0, 0, true)] + calls, observed)
  {
    var all := [Call(List, 0, 0, true)] + calls;
    AllOkConcat([Call(List, 0, 0, true)], calls);
    forall id ensures LaunchOf(all, id) == LaunchOf(calls, id) {
      LaunchOfConcat([Call(List, 0, 0, true)], calls, id);
      LaunchOfNone([Call(List, 0, 0, true)], id);
    }
    StopsAfterList(calls);
    forall i, j | 0 <= i < j < |all| && all[i].op.Create? && (all[j].op.StopCall? || all[j].op.Remove?)
      ensures all[j].cid >= p.before.next
    {
      assert all[i] == calls[i - 1] && all[j] == calls[j - 1];
    }
  }

  /** `owned` is the listing `p.picked` with the labels read. */
  ghost predicate Listed(p: Pass, owned: map<Id, OwnedContainer>) {
    && owned.Keys == p.picked.Keys
    && forall id :: id in owned ==>
         && owned[id].aid == id && owned[id].cid == p.picked[id] && owned[id].cid in p.before.containers
         && owned[id].hash == p.before.containers[owned[id].cid].hash
  }

  lemma ClassOf(p: Pass, owned: map<Id, OwnedContainer>, id: Id)
    requires Picks(p.before.containers, p.picked) && Listed(p, owned) && id in owned
    ensures Adopted(p, id) <==> Runs(p, id) && owned[id].hash == Wants(p)[id].hash
    ensures Obsolete(p, id) <==> !Adopted(p, id)
  {
  }

  lemma OnlyContainers(w: World, w': World)
    requires w'.failCount == w.failCount && w'.failHash == w.failHash
    ensures SameRetries(w, w')
  {
  }

  lemma RunGrows(rounds: seq<Round>, r: Round)
    requires RunOf(rounds) && Reconciled(r.p, r.after, r.calls, r.observed)
    requires forall id :: RetryOf(r.p.before, id) == RetryNow(rounds, id)
    ensures RunOf(rounds + [r])
  {
    hide Reconciled, RetryOf;
    var all := rounds + [r];
    assert IsRound(r);
    forall i | 0 < i < |all| ensures SameRetries(all[i - 1].after, all[i].p.before) {
      if i < |rounds| {
        assert SameRetries(rounds[i - 1].after, rounds[i].p.before);
      }
    }
  }

  class NodeExecutor {
    const nodeId: string
    const rt: Runtime
    var failCount: map<Id, nat>
    var failHash: map<Id, string>

    constructor (nodeId: string, rt: Runtime)
      ensures this.nodeId == nodeId && this.rt == rt && failCount == map[] && failHash == map[]
    {
      this.nodeId, this.rt := nodeId, rt;
      failCount, failHash := map[], map[];
    }

    ghost function View(): World
      reads this, rt
    {
      World(rt.containers, rt.next, failCount, failHash)
    }

    method Desired(frame: AssignmentSet) returns (d: map<Id, Assignment>)
      ensures d == DesiredById(frame.assignments, nodeId)
    {
      d := map[];
      for i := 0 to |frame.assignments|
        invariant d == DesiredById(frame.assignments[..i], nodeId)
      {
        assert frame.assignments[..i + 1][..i] == frame.assignments[..i];
        var a := frame.assignments[i];
        if a.node != "" && nodeId != "" && a.node != nodeId {
          continue;
        }
        d := d[a.id := a];
      }
      assert frame.assignments[..|frame.assignments|] == frame.assignments;
    }

    method ListOwned() returns (ok: bool, owned: map<Id, OwnedContainer>)
      modifies rt`calls
      ensures rt.calls == old(rt.calls) + [Call(List, 0, 0, ok)]
      ensures ok ==> Picks(rt.containers, map id | id in owned :: owned[id].cid)
      ensures ok ==> forall id :: id in owned ==>
                owned[id].aid == id && owned[id].cid in rt.containers &&
                owned[id].hash == rt.containers[owned[id].cid].hash
    {
      var infos: seq<Cid>;
      owned := map[];
      ok, infos := rt.ListContainers();
      if !ok {
        return;
      }
      for i := 0 to |infos|
        invariant forall id :: id in owned ==>
                    && owned[id].aid == id && owned[id].cid in rt.containers
                    && Owned(rt.containers[owned[id].cid]) && rt.containers[owned[id].cid].aid == Some(id)
                    && owned[id].hash == rt.containers[owned[id].cid].hash
        invariant forall j :: 0 <= j < i && rt.containers[infos[j]].aid.Some? ==>
                    rt.containers[infos[j]].aid.value in owned
      {
        assert infos[i] in infos;
        var c := rt.containers[infos[i]];
        if c.aid.None? {
          continue;
        }
        owned := owned[c.aid.value := OwnedContainer(infos[i], c.aid.value, c.hash)];
      }
    }

    method Fail(id: Id, hash: string)
      modifies this`failCount, this`failHash
      ensures RetryOf(View(), id) == Retry(old(RetryOf(View(), id)).count + 1, hash)
      ensures forall other :: other != id ==> RetryOf(View(), other) == old(RetryOf(View(), other))
    {
      failCount := failCount[id := (if id in failCount then failCount[id] else 0) + 1];
      failHash := failHash[id := hash];
    }

    method Forget(id: Id)
      modifies this`failCount, this`failHash
      ensures RetryOf(View(), id) == Retry(0, "")
      ensures forall other :: other != id ==> RetryOf(View(), other) == old(RetryOf(View(), other))
    {
      failCount := failCount - {id};
      failHash := failHash - {id};
    }

    method ForgetIfChanged(id: Id, hash: string)
      modifies this`failCount, this`failHash
      ensures RetryOf(View(), id) == Reset(old(RetryOf(View(), id)), hash)
      ensures forall other :: other != id ==> RetryOf(View(), other) == old(RetryOf(View(), other))
    {
      if id in failHash && failHash[id] != "" && failHash[id] != hash {
        Forget(id);
      }
    }

    method StopAndRemove(c: OwnedContainer) returns (stopped: bool, removed: bool)
      modifies rt`containers, rt`calls
      ensures rt.calls == old(rt.calls) + [Call(StopCall, c.aid, c.cid, stopped), Call(Remove, c.aid, c.cid, removed)]
      ensures forall cid :: cid != c.cid ==>
                (cid in rt.containers <==> cid in old(rt.containers)) &&
                (cid in rt.containers ==> rt.containers[cid] == old(rt.containers)[cid])
      ensures c.cid in rt.containers ==>
                && !removed && c.cid in old(rt.containers)
                && rt.containers[c.cid] == old(rt.containers)[c.cid].(running := rt.containers[c.cid].running)
    {
      stopped := rt.StopContainer(c.aid, c.cid);
      removed := rt.RemoveContainer(c.aid, c.cid);
    }

    /** The calls of a launch up to the creation. */
    method Prepared(a: Assignment) returns (ok: bool, cid: Cid, ghost made: seq<Call>)
      requires forall c :: c in rt.containers ==> c < rt.next
      modifies rt
      ensures rt.calls == old(rt.calls) + made
      ensures (forall k :: k in made ==> ForLaunch(k, a.id, old(rt.next))) && LaunchBegan(made, ok)
      ensures old(rt.next) <= rt.next && (forall c :: c in rt.containers ==> c < rt.next)
      ensures if ok then cid == old(rt.next) < rt.next &&
                rt.containers == old(rt.containers)[cid := ContainerFor(a, false)]
              else rt.containers == old(rt.containers)
    {
      cid := 0;
      ok := rt.Ensure(Pull, a.id);
      made := [Call(Pull, a.id, 0, ok)];
      if !ok {
        return;
      }
      ok := rt.Ensure(Prepare, a.id);
      made := made + [Call(Prepare, a.id, 0, ok)];
      if !ok {
        return;
      }
      ok, cid := rt.CreateContainer(a);
      made := made + [Call(Create, a.id, cid, ok)];
    }

    /** The runtime calls of a bring-up: pull, prepare, create, start, and the removal of a
        container that was created but would not start. */
    method Launch(a: Assignment) returns (ok: bool, cid: Cid, ghost made: seq<Call>)
      requires forall c :: c in rt.containers ==> c < rt.next
      modifies rt
      ensures rt.calls == old(rt.calls) + made
      ensures ok <==> AllOk(made)
      ensures IsWholeLaunch(LaunchOf(made, a.id)) && (ok <==> AllOk(LaunchOf(made, a.id)))
      ensures forall k :: k in made ==>
                k.id == a.id && !k.op.List? && !k.op.StopCall? && (k.op.Pull? || k.op.Prepare? || k.cid == old(rt.next))
      ensures old(rt.next) <= rt.next && (forall c :: c in rt.containers ==> c < rt.next)
      ensures if ok then cid == old(rt.next) < rt.next &&
                rt.containers == old(rt.containers)[cid := ContainerFor(a, true)]
              else rt.containers == old(rt.containers) ||
                   rt.containers == old(rt.containers)[old(rt.next) := ContainerFor(a, false)]
    {
      hide LaunchOf, IsWholeLaunch, AllOk, LaunchBegan;
      ok, cid, made := Prepared(a);
      if !ok {
        LaunchEnds(made, a.id, old(rt.next));
        return;
      }
      ok := rt.StartContainer(a.id, cid);
      LaunchStarts(made, Call(Start, a.id, cid, ok), old(rt.next));
      made := made + [Call(Start, a.id, cid, ok)];
      if !ok {
        var removed := rt.RemoveContainer(a.id, cid);
        LaunchRolledBack(made, Call(Remove, a.id, cid, removed));
        made := made + [Call(Remove, a.id, cid, removed)];
      }
    }

    method BringUp(a: Assignment, payload: Option<Payload>) returns (obs: Option<Observed>, ghost made: seq<Call>)
      requires Fresh(View())
      modifies this`failCount, this`failHash, rt
      ensures rt.calls == old(rt.calls) + made
      ensures BroughtUp(old(View()), View(), a, nodeId, payload, made, obs)
    {
      hide LaunchOf, IsWholeLaunch, AllOk, LeaseWithholds;
      made := [];
      LaunchOfNone([], a.id);
      ForgetIfChanged(a.id, a.hash);
      if a.id in failCount && failCount[a.id] >= MAX_ATTEMPTS {
        return None, [];
      }
      if payload.None? {
        Fail(a.id, a.hash);
        return Some(ObsFailed), [];
      }
      if LeaseWithholds(a.id, nodeId, payload.value) {
        return Some(ObsPending), [];
      }
      var ok, cid;
      ok, cid, made := Launch(a);
      if !ok {
        Fail(a.id, a.hash);
        return Some(ObsFailed), made;
      }
      Forget(a.id);
      return Some(ObsRunning(cid)), made;
    }

    method SortedKeys(d: map<Id, Assignment>) returns (ids: seq<Id>)
      ensures forall id :: id in ids <==> id in d
      ensures Sorting.StrictlySortedBy(ids, KeyOrder)
    {
      ids := [];
      var left := d.Keys;
      while left != {}
        invariant left <= d.Keys
        invariant forall id :: id in ids <==> id in d && id !in left
        invariant Sorting.DistinctKeys(ids, KeyOrder)
        decreases left
      {
        var id :| id in left;
        ids := ids + [id];
        left := left - {id};
      }
      Sorting.DistinctSortIsStrict(ids, KeyOrder);
      ids := Sorting.StableSort(ids, KeyOrder);
    }

    /** Which listed containers to remove, in assignment order, and the STOPPED reports. */
    method Classify(d: map<Id, Assignment>, owned: map<Id, OwnedContainer>, ghost p: Pass)
      returns (adopted: set<Id>, toRemove: seq<OwnedContainer>, observed: map<Id, Observed>)
      requires d == Wants(p) && Picks(p.before.containers, p.picked) && Listed(p, owned)
      ensures forall id :: id in adopted <==> Adopted(p, id)
      ensures forall c :: c in toRemove ==> Obsolete(p, c.aid) && p.picked[c.aid] == c.cid
      ensures forall id :: Obsolete(p, id) ==> exists c :: c in toRemove && c.aid == id
      ensures Sorting.StrictlySortedBy(toRemove, OwnedAid)
      ensures Reports(p, p.before, {}, [], observed)
    {
      adopted, toRemove, observed := {}, [], map[];
      var left := owned.Keys;
      while left != {}
        invariant left <= owned.Keys
        invariant forall id :: id in adopted <==> Adopted(p, id) && id !in left
        invariant forall c :: c in toRemove ==> Obsolete(p, c.aid) && c.aid !in left && p.picked[c.aid] == c.cid
        invariant forall id :: Obsolete(p, id) && id !in left ==> owned[id] in toRemove
        invariant Sorting.DistinctKeys(toRemove, OwnedAid)
        invariant forall id :: Lookup(observed, id) ==
                    if id in p.picked && id !in left && id in d &&
                       !Runs(p, id) then Some(ObsStopped(p.picked[id])) else None
        decreases left
      {
        var id :| id in left;
        left := left - {id};
        var c := owned[id];
        ClassOf(p, owned, id);
        if id !in d || !d[id].desired.Run? {
          toRemove := toRemove + [c];
          if id in d {
            observed := observed[id := ObsStopped(c.cid)];
          }
        } else if c.hash != d[id].hash {
          toRemove := toRemove + [c];
        } else {
          adopted := adopted + {id};
        }
      }
      Sorting.DistinctSortIsStrict(toRemove, OwnedAid);
      forall id | Obsolete(p, id) ensures exists c :: c in toRemove && c.aid == id {
        assert owned[id] in toRemove;
      }
      toRemove := Sorting.StableSort(toRemove, OwnedAid);
    }

    method StopPass(toRemove: seq<OwnedContainer>, ghost p: Pass) returns (ghost made: seq<Call>, ghost ids: set<Id>)
      requires Sorting.StrictlySortedBy(toRemove, OwnedAid)
      requires p.before == View() && Fresh(View()) && Picks(p.before.containers, p.picked)
      requires forall c :: c in toRemove ==> Obsolete(p, c.aid) && p.picked[c.aid] == c.cid
      modifies rt
      ensures rt.calls == old(rt.calls) + made
      ensures forall c :: c in toRemove ==> c.aid in ids
      ensures Stopping(p, View(), ids, made)
    {
      hide Stopping, StopsInOrder;
      made, ids := [], {};
      NothingStopped(p);
      for i := 0 to |toRemove|
        invariant rt.calls == old(rt.calls) + made
        invariant forall j :: 0 <= j < i ==> toRemove[j].aid in ids
        invariant forall done :: done in ids ==> exists j :: 0 <= j < i && toRemove[j].aid == done
        invariant Stopping(p, View(), ids, made)
      {
        var c := toRemove[i];
        assert c in toRemove;
        forall done | done in ids ensures done < c.aid {
          var j :| 0 <= j < i && toRemove[j].aid == done;
          assert OwnedAid(toRemove[j]) < OwnedAid(c);
        }
        ghost var w := View();
        var stopped, removed := StopAndRemove(c);
        StopStep(p, w, View(), ids, made, c.aid, stopped, removed);
        made, ids := made + [Call(StopCall, c.aid, c.cid, stopped), Call(Remove, c.aid, c.cid, removed)], ids + {c.aid};
      }
    }

    method RunPass(d: map<Id, Assignment>, adopted: set<Id>, frame: AssignmentSet, observed0: map<Id, Observed>,
          ghost p: Pass, ghost made0: seq<Call>)
      returns (observed: map<Id, Observed>, ghost made: seq<Call>)
      requires d == Wants(p) && p.nodeId == nodeId && p.frame == frame
      requires forall id :: id in adopted <==> Adopted(p, id)
      requires Fresh(p.before) && Picks(p.before.containers, p.picked)
      requires Progress(p, View(), {}, made0, observed0) && Fresh(View())
      modifies this`failCount, this`failHash, rt
      ensures rt.calls == old(rt.calls) + made
      ensures Progress(p, View(), d.Keys, made0 + made, observed) && Fresh(View())
    {
      hide Progress, BroughtUp, Picks, Reports, RetryOf, Wants;
      observed, made := observed0, [];
      assert made0 + made == made0;
      var ids := SortedKeys(d);
      ghost var visited: set<Id> := {};
      for i := 0 to |ids|
        invariant rt.calls == old(rt.calls) + made && Fresh(View())
        invariant forall id :: id in visited <==> id in ids[..i]
        invariant Progress(p, View(), visited, made0 + made, observed)
      {
        var id := ids[i];
        assert id in ids;
        assert id !in visited by {
          forall j | 0 <= j < i ensures ids[..i][j] != id {
            assert KeyOrder(ids[j]) < KeyOrder(ids[i]);
          }
        }
        if !d[id].desired.Run? || id in adopted {
          SkipStep(p, View(), visited, made0 + made, observed, id);
        } else {
          ghost var w := View();
          var obs;
          ghost var launch: seq<Call>;
          obs, launch := BringUp(d[id], if id in frame.runtime then Some(frame.runtime[id]) else None);
          RunStep(p, w, View(), visited, made0 + made, observed, id, launch, obs);
          assert (made0 + made) + launch == made0 + (made + launch);
          made := made + launch;
          if obs.Some? {
            observed := observed[id := obs.value];
          }
        }
        visited := visited + {id};
        assert ids[..i + 1] == ids[..i] + [id];
      }
      assert ids[..|ids|] == ids;
      assert visited == d.Keys;
    }

    /** `reconcile`. When the listing fails nothing else happens. */
    method Reconcile(frame: AssignmentSet)
      returns (listed: bool, observed: map<Id, Observed>, ghost p: Pass, ghost made: seq<Call>)
      requires Fresh(View())
      modifies this`failCount, this`failHash, rt
      ensures rt.calls == old(rt.calls) + made && Fresh(View())
      ensures !listed ==> View() == old(View()) && made == [Call(List, 0, 0, false)] && observed == map[]
      ensures listed ==> p.before == old(View()) && p.nodeId == nodeId && p.frame == frame
      ensures listed ==> Reconciled(p, View(), made, observed)
    {
      hide Progress, Stopping, Reports, Picks, Obsolete, Adopted;
      observed := map[];
      p := Pass(View(), nodeId, frame, map[]);
      var d := Desired(frame);
      var owned;
      listed, owned := ListOwned();
      made := [Call(List, 0, 0, listed)];
      if !listed {
        return;
      }
      p := Pass(View(), nodeId, frame, map id | id in owned :: owned[id].cid);
      var adopted, toRemove;
      adopted, toRemove, observed := Classify(d, owned, p);
      ghost var stops, ids;
      stops, ids := StopPass(toRemove, p);
      StopPassDone(p, View(), ids, stops, observed);
      ListFirst(p, View(), stops, observed);
      made := made + stops;
      ghost var runs;
      observed, runs := RunPass(d, adopted, frame, observed, p, made);
      made := made + runs;
    }

    /** `Run`: one reconcile after another, each of the set submitted last, with anything
        happening to the containers in between. */
    method Run(frames: seq<AssignmentSet>) returns (reports: seq<map<Id, Observed>>, ghost rounds: seq<Round>)
      requires Fresh(View()) && failCount == map[] && failHash == map[]
      modifies this`failCount, this`failHash, rt
      ensures RunOf(rounds) && forall id :: RetryOf(View(), id) == RetryNow(rounds, id)
      ensures |reports| == |rounds| && forall i :: 0 <= i < |rounds| ==>
                reports[i] == rounds[i].observed && rounds[i].p.frame in frames
    {
      hide IsRound, RetryOf;
      NewExecutor();
      reports, rounds := [], [];
      for i := 0 to |frames|
        invariant Fresh(View()) && RunOf(rounds)
        invariant forall id :: RetryOf(View(), id) == RetryNow(rounds, id)
        invariant |reports| == |rounds|
        invariant forall j :: 0 <= j < |rounds| ==> reports[j] == rounds[j].observed && rounds[j].p.frame in frames
      {
        ghost var w := View();
        rt.Drift();
        OnlyContainers(w, View());
        var listed, observed;
        ghost var p, made;
        listed, observed, p, made := Reconcile(frames[i]);
        if listed {
          RunGrows(rounds, Round(p, View(), made, observed));
          reports, rounds := reports + [observed], rounds + [Round(p, View(), made, observed)];
        }
      }
    }

    lemma NewExecutor()
      requires failCount == map[] && failHash == map[]
      ensures forall id :: RetryOf(View(), id) == Retry(0, "")
    {
    }
  }
}
