/** The mesh told in terms of roles, keys, addresses, endpoints and labels alone. */
module MeshLaws {
  import opened Options
  import opened MeshNode
  import opened MeshPeers

  /** A control node that can be reached over the mesh. */
  predicate ReadyControl(n: Node) {
    Control in n.roles && n.key != "" && n.ip != None
  }

  /** The address as a number. */
  function Number(ip: Ip): nat {
    256 * ip.b + ip.c
  }

  ghost predicate OctetsFit(nodes: seq<Node>) {
    forall n :: n in nodes && n.ip.Some? ==> n.ip.value.b < 256 && n.ip.value.c < 256
  }

  ghost predicate LiveControl(nodes: seq<Node>) {
    exists n :: n in nodes && ReadyControl(n) && n.status == Alive
  }

  /** The active hub is the reachable control node with the numerically lowest address, among the
      live ones as long as there is one. */
  lemma HubHasLowestAddress(nodes: seq<Node>, h: Node)
    requires Mesh(nodes) && OctetsFit(nodes) && h in nodes
    ensures Hub(nodes) == Some(h.id) <==>
              && ReadyControl(h) && (LiveControl(nodes) ==> h.status == Alive)
              && forall n :: n in nodes && n != h && ReadyControl(n) && (LiveControl(nodes) ==> n.status == Alive) ==>
                   Number(h.ip.value) < Number(n.ip.value)
  {
    HubIsActiveHub(nodes, h);
    assert SomeAlive(nodes, {}) <==> LiveControl(nodes) by {
      forall n | n in nodes ensures Candidate(n, true) <==> ReadyControl(n) && n.status == Alive {
      }
      if LiveControl(nodes) {
        var n :| n in nodes && ReadyControl(n) && n.status == Alive;
        assert n !in {};
      }
    }
    forall n | n in nodes && ReadyControl(n) && ReadyControl(h)
      ensures Lower(h.ip.value, n.ip.value) <==> Number(h.ip.value) < Number(n.ip.value)
    {
    }
  }

  /** Who is a peer of whom: every reachable node for a control node, every reachable control node
      for a worker, and of the other workers those that carry the mesh socket label like it, or
      have a public endpoint like it. */
  lemma PeersAre(nodes: seq<Node>, self: Node, n: Node)
    requires DistinctIds(nodes) && self in nodes && n in nodes
    ensures (exists p :: p in PeersOf(nodes, self) && p.nodeId == n.id) <==>
              && n != self && n.key != "" && n.ip != None
              && (|| Control in self.roles || Control in n.roles
                  || (self.meshsock && n.meshsock)
                  || (self.endpoints != [] && n.endpoints != []))
  {
    SameId(nodes, self, n);
    var hub := Hub(nodes);
    if PeerFor(self, n, hub).Some? {
      assert PeerFor(self, n, hub).value in PeersOf(nodes, self);
    }
    if p :| p in PeersOf(nodes, self) && p.nodeId == n.id {
      var m := PeerOfMember(nodes, self, p);
      SameId(nodes, m, n);
    }
  }

  /** What a peer entry says. Keepalives, every 25 seconds, are sent by workers only: to workers
      always, and to control nodes when the worker itself has no public endpoint. */
  lemma PeerSays(nodes: seq<Node>, self: Node, n: Node, p: Peer)
    requires DistinctIds(nodes) && self in nodes && n in nodes
    requires p in PeersOf(nodes, self) && p.nodeId == n.id
    ensures p.key == n.key && n.ip == Some(p.ip) && p.endpoints == n.endpoints
    ensures p.isControl == p.relayCapable == (Control in n.roles)
    ensures p.keepalive ==
              if Control in self.roles then 0
              else if Control in n.roles && self.endpoints != [] then 0
              else 25
    ensures p.allowed == WholeMesh || p.allowed == Host(p.ip)
  {
    var m := PeerOfMember(nodes, self, p);
    SameId(nodes, m, n);
  }

  /** The same of the peers a join hands out: control nodes only, unless it is one itself; all with
      keepalives, none as a relay yet. */
  lemma InitialPeerSays(selfId: NodeId, roles: seq<Role>, n: Node, hub: Option<NodeId>)
    ensures var p := InitialPeerFor(selfId, roles, n, hub);
            && (p.Some? <==> n.id != selfId && n.key != "" && n.ip != None && (Control in roles || Control in n.roles))
            && (p.Some? ==>
                  && p.value.nodeId == n.id && p.value.key == n.key && Some(p.value.ip) == n.ip
                  && p.value.endpoints == n.endpoints && p.value.isControl == (Control in n.roles)
                  && !p.value.relayCapable && p.value.keepalive == 25
                  && p.value.allowed ==
                       if Control !in roles && hub == Some(n.id) then WholeMesh else Host(p.value.ip))
  {
  }

  /** Delivery in these terms. */
  lemma DeliversIff(nodes: seq<Node>, s: Node, d: Node)
    requires Mesh(nodes) && s in nodes && d in nodes && s != d
    requires s.key != "" && s.ip != None && d.key != "" && d.ip != None
    ensures (exists path :: |path| <= 3 && Path(nodes, path, s, d)) <==>
              || (exists n :: n in nodes && ReadyControl(n))
              || (s.meshsock && d.meshsock)
              || (s.endpoints != [] && d.endpoints != [])
    ensures (exists path :: Path(nodes, path, s, d)) ==> exists path :: |path| <= 3 && Path(nodes, path, s, d)
  {
    MeshDelivers(nodes, s, d);
    assert HasControl(nodes) <==> exists n :: n in nodes && ReadyControl(n) by {
      forall n | n in nodes ensures Candidate(n, false) <==> ReadyControl(n) {
      }
    }
  }
}
