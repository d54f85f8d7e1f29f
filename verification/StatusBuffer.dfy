/** Status reports coalesced between flushes, against applying each report in turn. */
module StatusBuffer {
  import opened StoreState

  /** A later report replaces the buffered one, but carries its ports forward if it has none. */
  function Merge(prev: Observed, next: Observed): Observed {
    if next.ports == map[] && prev.ports != map[] then next.(ports := prev.ports) else next
  }

  function Added(m: map<Id, Observed>, observed: map<Id, Observed>): map<Id, Observed> {
    map id | id in m.Keys + observed.Keys ::
      if id !in observed then m[id] else if id in m then Merge(m[id], observed[id]) else observed[id]
  }

  lemma AddedNext(m: map<Id, Observed>, observed: map<Id, Observed>, left: set<Id>, id: Id)
    requires left <= observed.Keys && id in left
    ensures var now, next := Added(m, observed - left), Added(m, observed - (left - {id}));
            && (id in now <==> id in m) && (id in m ==> now[id] == m[id])
            && next == now[id := if id in m then Merge(m[id], observed[id]) else observed[id]]
  {
    hide Merge;
  }

  class Buffer {
    var m: map<Id, Observed>

    constructor ()
      ensures m == map[]
    {
      m := map[];
    }

    method Add(observed: map<Id, Observed>)
      modifies this
      ensures m == Added(old(m), observed)
    {
      if |observed| == 0 {
        return;
      }
      var left := observed.Keys;
      while left != {}
        invariant left <= observed.Keys
        invariant m == Added(old(m), observed - left)
        decreases left
      {
        hide Added;
        var id :| id in left;
        AddedNext(old(m), observed, left, id);
        var o := observed[id];
        if id in m && |o.ports| == 0 && |m[id].ports| > 0 {
          o := o.(ports := m[id].ports);
        }
        m := m[id := o];
        left := left - {id};
      }
      assert observed - left == observed;
    }

    method Drain() returns (out: map<Id, Observed>)
      modifies this
      ensures out == old(m) && m == map[]
    {
      if |m| == 0 {
        return map[];
      }
      out := m;
      m := map[];
    }
  }

  // ---------- one flush window ----------

  /** The batch drained at the end of a window. */
  function Buffered(window: seq<map<Id, Observed>>): map<Id, Observed> {
    if window == [] then map[] else Added(Buffered(window[..|window| - 1]), window[|window| - 1])
  }

  /** Every report of the window applied in turn. */
  function InTurn(s: Placement, nodeId: Id, window: seq<map<Id, Observed>>): Placement {
    if window == [] then s else SetObserved(InTurn(s, nodeId, window[..|window| - 1]), nodeId, window[|window| - 1])
  }

  /** The reports on one assignment. */
  function Reports(window: seq<map<Id, Observed>>, id: Id): seq<Observed> {
    if window == [] then [] else
      var rest, last := Reports(window[..|window| - 1], id), window[|window| - 1];
      if id in last then rest + [last[id]] else rest
  }

  function MergeAll(reports: seq<Observed>): Observed
    requires reports != []
  {
    if |reports| == 1 then reports[0] else Merge(MergeAll(reports[..|reports| - 1]), reports[|reports| - 1])
  }

  function ObserveAll(a: Assignment, reports: seq<Observed>): Assignment {
    if reports == [] then a else Observe(ObserveAll(a, reports[..|reports| - 1]), reports[|reports| - 1])
  }

  lemma {:induction false} BufferedIs(window: seq<map<Id, Observed>>, id: Id)
    ensures id in Buffered(window) <==> Reports(window, id) != []
    ensures id in Buffered(window) ==> Buffered(window)[id] == MergeAll(Reports(window, id))
  {
    if window != [] {
      var front := window[..|window| - 1];
      BufferedIs(front, id);
      assert id in window[|window| - 1] ==> Reports(window, id)[..|Reports(window, id)| - 1] == Reports(front, id);
    }
  }

  lemma {:induction false} InTurnIs(s: Placement, nodeId: Id, window: seq<map<Id, Observed>>, id: Id)
    requires id in s.assignments
    ensures id in InTurn(s, nodeId, window).assignments
    ensures InTurn(s, nodeId, window).assignments[id].nodeId == s.assignments[id].nodeId
    ensures InTurn(s, nodeId, window).assignments[id] ==
            if Accepts(s, nodeId, id) then ObserveAll(s.assignments[id], Reports(window, id)) else s.assignments[id]
  {
    hide Observe;
    ObserveKeeps();
    if window != [] {
      var front := window[..|window| - 1];
      InTurnIs(s, nodeId, front, id);
      assert id in window[|window| - 1] ==> Reports(window, id)[..|Reports(window, id)| - 1] == Reports(front, id);
    }
  }

  lemma ObserveKeeps()
    ensures forall a, o ::
              Observe(a, o).nodeId == a.nodeId && Observe(a, o).id == a.id && Observe(a, o).config == a.config
  {
  }

  // ---------- what the final assignment shows ----------

  /** What a RUNNING report leaves of a state. */
  function Coarse(s: InstanceState): InstanceState {
    if s == StateHealthy || s == StateUnhealthy then s else StateRunning
  }

  /** The last state reported other than RUNNING, if any, else the current one. */
  function LastFine(reports: seq<Observed>, cur: InstanceState): InstanceState {
    if reports == [] then cur
    else if reports[|reports| - 1].state != StateRunning then reports[|reports| - 1].state
    else LastFine(reports[..|reports| - 1], cur)
  }

  /** The ports last reported, if any were, else the current ones. */
  function LastPorts(reports: seq<Observed>, cur: map<string, nat>): map<string, nat> {
    if reports == [] then cur
    else if reports[|reports| - 1].ports != map[] then reports[|reports| - 1].ports
    else LastPorts(reports[..|reports| - 1], cur)
  }

  lemma {:induction false} ObserveAllShows(a: Assignment, reports: seq<Observed>)
    requires reports != []
    ensures var b, last := ObserveAll(a, reports), reports[|reports| - 1];
            && b.ports == LastPorts(reports, a.ports) && b.observed.ports == last.ports
            && b.observed.state ==
                 (if last.state == StateRunning then Coarse(LastFine(reports, a.observed.state)) else last.state)
            && b.observed.containerId == last.containerId && b.observed.message == last.message
            && b.id == a.id && b.nodeId == a.nodeId && b.config == a.config
  {
    if |reports| > 1 {
      ObserveAllShows(a, reports[..|reports| - 1]);
    } else {
      assert ObserveAll(a, reports[..|reports| - 1]) == a;
    }
  }

  lemma {:induction false} MergeAllShows(reports: seq<Observed>)
    requires reports != []
    ensures var m, last := MergeAll(reports), reports[|reports| - 1];
            && m.state == last.state && m.containerId == last.containerId && m.message == last.message
            && m.ports == LastPorts(reports, map[])
  {
    if |reports| > 1 {
      MergeAllShows(reports[..|reports| - 1]);
    } else {
      assert LastPorts(reports[..|reports| - 1], map[]) == map[];
    }
  }

  lemma {:induction false} LastPortsFrom(reports: seq<Observed>, cur: map<string, nat>)
    ensures LastPorts(reports, cur) == if LastPorts(reports, map[]) != map[] then LastPorts(reports, map[]) else cur
  {
    if reports != [] {
      LastPortsFrom(reports[..|reports| - 1], cur);
    }
  }

  // ---------- coalescing is transparent ----------

  /** When coalescing leaves the same state: the last report is not RUNNING, or before the last
      report other than RUNNING and after it the state means the same to a RUNNING report. All
      reports being RUNNING is a case of the latter. */
  predicate StateSurvives(reports: seq<Observed>, cur: InstanceState) {
    || reports == []
    || reports[|reports| - 1].state != StateRunning
    || Coarse(LastFine(reports, cur)) == Coarse(cur)
  }

  lemma {:induction false} AllRunningSurvives(reports: seq<Observed>, cur: InstanceState)
    requires forall i :: 0 <= i < |reports| ==> reports[i].state == StateRunning
    ensures LastFine(reports, cur) == cur && StateSurvives(reports, cur)
  {
    if reports != [] {
      AllRunningSurvives(reports[..|reports| - 1], cur);
    }
  }

  /** When the stored report has the same ports of its own: the last report has some, or no
      report of the window has. */
  predicate ReportKeepsPorts(reports: seq<Observed>) {
    reports == [] || reports[|reports| - 1].ports != map[] || forall o :: o in reports ==> o.ports == map[]
  }

  lemma {:induction false} NoPorts(reports: seq<Observed>)
    ensures LastPorts(reports, map[]) == map[] <==> forall o :: o in reports ==> o.ports == map[]
    ensures reports != [] && reports[|reports| - 1].ports != map[] ==>
              LastPorts(reports, map[]) == reports[|reports| - 1].ports
  {
    if reports != [] {
      NoPorts(reports[..|reports| - 1]);
      assert reports == reports[..|reports| - 1] + [reports[|reports| - 1]];
    }
  }

  /** For every window and every assignment: applying the drained batch gives the assignment the
      ports, the container, the message, the node and the configuration that applying each report
      in turn gives. It gives the same state exactly when the state survives coalescing, and the
      stored report the same ports exactly when that keeps its ports. */
  lemma CoalescingIsTransparent(s: Placement, nodeId: Id, window: seq<map<Id, Observed>>, id: Id)
    requires id in s.assignments
    ensures var t, u := SetObserved(s, nodeId, Buffered(window)), InTurn(s, nodeId, window);
            && id in t.assignments && id in u.assignments
            && var a, b := t.assignments[id], u.assignments[id];
            && a.ports == b.ports && a.id == b.id && a.nodeId == b.nodeId && a.config == b.config
            && a.observed.containerId == b.observed.containerId && a.observed.message == b.observed.message
            && (a.observed.ports == b.observed.ports <==>
                  !Accepts(s, nodeId, id) || ReportKeepsPorts(Reports(window, id)))
            && (a.observed.state == b.observed.state <==>
                  !Accepts(s, nodeId, id) || StateSurvives(Reports(window, id), s.assignments[id].observed.state))
  {
    hide Buffered, InTurn, Reports, MergeAll, ObserveAll, LastFine, LastPorts;
    var reports := Reports(window, id);
    BufferedIs(window, id);
    InTurnIs(s, nodeId, window, id);
    NothingObservedYet(s.assignments[id]);
    if reports != [] {
      ObserveAllShows(s.assignments[id], reports);
      MergeAllShows(reports);
      LastPortsFrom(reports, s.assignments[id].ports);
      NoPorts(reports);
    }
  }

  lemma NothingObservedYet(a: Assignment)
    ensures ObserveAll(a, []) == a
  {
  }

  lemma TwoReports(id: Id, first: Observed, second: Observed)
    ensures Reports([map[id := first], map[id := second]], id) == [first, second]
  {
    var window := [map[id := first], map[id := second]];
    assert window[..1] == [map[id := first]] && window[..1][..0] == [];
    assert Reports(window[..1], id) == [] + [first];
  }

  /** The side condition is needed: FAILED then RUNNING in one window is hidden behind the
      HEALTHY that was there. */
  lemma FailedThenRunningIsHidden(s: Placement, nodeId: Id, id: Id, failed: Observed, running: Observed)
    requires Accepts(s, nodeId, id) && s.assignments[id].observed.state == StateHealthy
    requires failed.state == StateFailed && running.state == StateRunning
    ensures var window := [map[id := failed], map[id := running]];
            && !StateSurvives(Reports(window, id), StateHealthy)
            && SetObserved(s, nodeId, Buffered(window)).assignments[id].observed.state == StateHealthy
            && id in InTurn(s, nodeId, window).assignments
            && InTurn(s, nodeId, window).assignments[id].observed.state == StateRunning
  {
    hide InTurn, Buffered, Reports, ObserveAll, MergeAll;
    var window, reports := [map[id := failed], map[id := running]], [failed, running];
    TwoReports(id, failed, running);
    BufferedIs(window, id);
    InTurnIs(s, nodeId, window, id);
    ObserveAllShows(s.assignments[id], reports);
    MergeAllShows(reports);
    assert reports[..1] == [failed];
    assert LastFine(reports, StateHealthy) == StateFailed;
  }
}
