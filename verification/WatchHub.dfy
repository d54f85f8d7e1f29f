/** The change hub of the state store: level-triggered, coalescing, never blocking. */
module WatchHub {

  datatype Kind =
    | KindOrg | KindUser | KindProject | KindProjectMember | KindApp | KindEnvironment | KindEnvVar
    | KindRelease | KindDeployment | KindBuild | KindNode | KindJoinToken | KindAssignment | KindToken
    | KindDomain | KindKV | KindDNSProvider | KindVolume | KindVolumeSnapshot | KindBackup
    | KindNetworkAlloc | KindServiceVIP | KindJob | KindAlertRule | KindNotifyChannel | KindEvent
    | KindClusterKey

  datatype Change = Change(kind: Kind, id: string)

  /** One subscription: `kinds == {}` means all kinds; `signal` is the channel of capacity 1. */
  datatype Sub = Sub(kinds: set<Kind>, pending: set<Change>, signal: bool, closed: bool)

  predicate Wants(s: Sub, c: Change) {
    !s.closed && (s.kinds == {} || c.kind in s.kinds)
  }

  /** The two atomic halves of `offer`: under the lock, then the non-blocking send. */
  function Recorded(s: Sub, c: Change): Sub {
    s.(pending := s.pending + {c})
  }

  function Signalled(s: Sub): Sub {
    s.(signal := true)
  }

  function Offered(s: Sub, c: Change): Sub {
    if Wants(s, c) then Signalled(Recorded(s, c)) else s
  }

  class Subscription {
    const hub: Hub
    const kinds: set<Kind>
    var pending: set<Change>
    var signal: bool
    var closed: bool

    function View(): Sub
      reads this
    {
      Sub(kinds, pending, signal, closed)
    }

    constructor (hub: Hub, kinds: set<Kind>)
      ensures this.hub == hub && View() == Sub(kinds, {}, false, false)
    {
      this.hub, this.kinds := hub, kinds;
      pending, signal, closed := {}, false, false;
    }

    method Offer(c: Change)
      modifies this
      ensures View() == Offered(old(View()), c)
    {
      if kinds != {} && c.kind !in kinds {
        return;
      }
      if closed {
        return;
      }
      pending := pending + {c};
      if !signal {
        signal := true;
      }
    }

    /** A receive on `Notify()` that does not block. */
    method Receive() returns (got: bool)
      modifies this`signal
      ensures got == old(signal) && !signal
    {
      got := signal;
      signal := false;
    }

    method Drain() returns (out: seq<Change>)
      modifies this`pending
      ensures pending == {}
      ensures (set c | c in out) == old(pending)
      ensures forall i, j :: 0 <= i < j < |out| ==> out[i] != out[j]
    {
      out := [];
      var left := pending;
      while left != {}
        invariant forall c :: c in pending <==> c in left || c in out
        invariant forall c :: c in out ==> c !in left
        invariant forall i, j :: 0 <= i < j < |out| ==> out[i] != out[j]
        decreases left
      {
        var c :| c in left;
        out := out + [c];
        left := left - {c};
      }
      pending := {};
    }

    method Close()
      modifies this, hub
      ensures View() == old(View()).(pending := {}, closed := true)
      ensures hub.subs == old(hub.subs) - {this}
    {
      hub.subs := hub.subs - {this};
      closed := true;
      pending := {};
    }
  }

  class Hub {
    var subs: set<Subscription>

    constructor ()
      ensures subs == {}
    {
      subs := {};
    }

    method Subscribe(kinds: set<Kind>) returns (sub: Subscription)
      modifies this
      ensures fresh(sub) && sub.hub == this && sub.View() == Sub(kinds, {}, false, false)
      ensures subs == old(subs) + {sub}
    {
      sub := new Subscription(this, kinds);
      subs := subs + {sub};
    }

    /** Every subscriber is offered the change exactly once, in no particular order. */
    method Publish(c: Change)
      modifies subs
      ensures forall sub :: sub in subs ==> sub.View() == Offered(old(sub.View()), c)
    {
      var left := subs;
      while left != {}
        invariant left <= subs
        invariant forall sub :: sub in left ==> sub.View() == old(sub.View())
        invariant forall sub :: sub in subs - left ==> sub.View() == Offered(old(sub.View()), c)
        decreases left
      {
        var sub :| sub in left;
        sub.Offer(c);
        left := left - {sub};
      }
    }
  }
}
