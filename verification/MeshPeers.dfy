/** Who peers with whom over WireGuard, and why the mesh delivers every packet. */
module MeshPeers {
  import opened MeshNode
  import opened Options
  import Sorting

  const NAT_KEEPALIVE_SECONDS := 25

  /** An allowed-IP entry: the whole mesh 10.90.0.0/16, or one address as a /32. */
  datatype Prefix = WholeMesh | Host(ip: Ip)

  /** Every peer carries exactly one allowed-IP entry. */
  datatype Peer = Peer(
    nodeId: NodeId,
    key: string,
    ip: Ip,
    endpoints: seq<string>,
    isControl: bool,
    relayCapable: bool,
    allowed: Prefix,
    keepalive: nat)

  datatype PeerSet = PeerSet(peers: seq<Peer>, hubAndSpoke: bool)

  // ---------- the active hub ----------

  predicate Candidate(n: Node, aliveOnly: bool) {
    IsControl(n) && MeshReady(n) && (aliveOnly ==> n.status == Alive)
  }

  /** The first candidate of lowest address in list order. */
  function Lowest(nodes: seq<Node>, aliveOnly: bool): (r: Option<Node>)
    ensures r.Some? ==> r.value in nodes && Candidate(r.value, aliveOnly)
  {
    if nodes == [] then None else
      var best, n := Lowest(nodes[..|nodes| - 1], aliveOnly), nodes[|nodes| - 1];
      if Candidate(n, aliveOnly) && (best.None? || Lower(n.ip.value, best.value.ip.value)) then Some(n) else best
  }

  function HubNode(nodes: seq<Node>): Option<Node> {
    if Lowest(nodes, true).Some? then Lowest(nodes, true) else Lowest(nodes, false)
  }

  function Hub(nodes: seq<Node>): Option<NodeId> {
    if HubNode(nodes).Some? then Some(HubNode(nodes).value.id) else None
  }

  method ActiveHub(nodes: seq<Node>) returns (hub: Option<NodeId>)
    ensures hub == Hub(nodes)
  {
    var activeId, activeIp: Option<Ip> := 0, None;
    var fallbackId, fallbackIp: Option<Ip> := 0, None;
    for i := 0 to |nodes|
      invariant activeIp.Some? <==> Lowest(nodes[..i], true).Some?
      invariant activeIp.Some? ==>
                  Lowest(nodes[..i], true).value.id == activeId && Lowest(nodes[..i], true).value.ip == activeIp
      invariant fallbackIp.Some? <==> Lowest(nodes[..i], false).Some?
      invariant fallbackIp.Some? ==>
                  Lowest(nodes[..i], false).value.id == fallbackId && Lowest(nodes[..i], false).value.ip == fallbackIp
    {
      assert nodes[..i + 1][..i] == nodes[..i];
      var n := nodes[i];
      if !IsControl(n) || n.key == "" || n.ip.None? {
        continue;
      }
      if fallbackIp.None? || Lower(n.ip.value, fallbackIp.value) {
        fallbackId, fallbackIp := n.id, n.ip;
      }
      if n.status == Alive && (activeIp.None? || Lower(n.ip.value, activeIp.value)) {
        activeId, activeIp := n.id, n.ip;
      }
    }
    assert nodes[..|nodes|] == nodes;
    if activeIp.Some? {
      hub := Some(activeId);
    } else if fallbackIp.Some? {
      hub := Some(fallbackId);
    } else {
      hub := None;
    }
  }

  lemma {:induction false} LowestIsLeast(nodes: seq<Node>, aliveOnly: bool)
    ensures Lowest(nodes, aliveOnly).None? <==> forall n :: n in nodes ==> !Candidate(n, aliveOnly)
    ensures Lowest(nodes, aliveOnly).Some? ==>
              forall n :: n in nodes && Candidate(n, aliveOnly) ==>
                       !Lower(n.ip.value, Lowest(nodes, aliveOnly).value.ip.value)
  {
    if nodes != [] {
      LowestIsLeast(nodes[..|nodes| - 1], aliveOnly);
      assert nodes == nodes[..|nodes| - 1] + [nodes[|nodes| - 1]];
    }
  }

  /** One record per id, and no two mesh-ready nodes hold the same mesh address. */
  ghost predicate Mesh(nodes: seq<Node>) {
    && DistinctIds(nodes)
    && forall m, n :: m in nodes && n in nodes && MeshReady(m) && MeshReady(n) && m.ip == n.ip ==> m == n
  }

  ghost predicate HasControl(nodes: seq<Node>) {
    exists n :: n in nodes && Candidate(n, false)
  }

  /** `n` is the candidate of lowest address, not counting `skip`. */
  ghost predicate Least(nodes: seq<Node>, n: Node, skip: set<Node>, aliveOnly: bool) {
    && n in nodes && n !in skip && Candidate(n, aliveOnly)
    && forall m :: m in nodes && m !in skip && m != n && Candidate(m, aliveOnly) ==> Lower(n.ip.value, m.ip.value)
  }

  ghost predicate SomeAlive(nodes: seq<Node>, skip: set<Node>) {
    exists n :: n in nodes && n !in skip && Candidate(n, true)
  }

  /** `h` has the lowest address of the live control nodes, or of all control nodes when none
      is alive. */
  ghost predicate IsActiveHub(nodes: seq<Node>, h: Node) {
    Least(nodes, h, {}, SomeAlive(nodes, {}))
  }

  /** The hub depends on the set of nodes only, never on the order of the list. */
  lemma HubIsActiveHub(nodes: seq<Node>, h: Node)
    requires Mesh(nodes) && h in nodes
    ensures Hub(nodes) == Some(h.id) <==> IsActiveHub(nodes, h)
    ensures Hub(nodes).None? <==> !HasControl(nodes)
  {
    LowestIsLeast(nodes, true);
    LowestIsLeast(nodes, false);
    if HubNode(nodes).Some? {
      var m := HubNode(nodes).value;
      SameId(nodes, m, h);
      assert Least(nodes, m, {}, SomeAlive(nodes, {})) by {
        forall n | n in nodes && n != m && Candidate(n, SomeAlive(nodes, {}))
          ensures Lower(m.ip.value, n.ip.value)
        {
          assert n.ip != m.ip;
        }
      }
    }
  }

  lemma SameId(nodes: seq<Node>, m: Node, n: Node)
    requires DistinctIds(nodes) && m in nodes && n in nodes
    ensures m.id == n.id <==> m == n
  {
    var i :| 0 <= i < |nodes| && nodes[i] == m;
    var j :| 0 <= j < |nodes| && nodes[j] == n;
  }

  lemma HubIgnoresOrder(nodes: seq<Node>, shuffled: seq<Node>)
    requires Mesh(nodes) && Mesh(shuffled)
    requires forall n :: n in nodes <==> n in shuffled
    ensures Hub(nodes) == Hub(shuffled)
  {
    if HubNode(nodes).Some? {
      var h := HubNode(nodes).value;
      HubIsActiveHub(nodes, h);
      HubIsActiveHub(shuffled, h);
    } else if HubNode(shuffled).Some? {
      var h := HubNode(shuffled).value;
      HubIsActiveHub(nodes, h);
      HubIsActiveHub(shuffled, h);
    }
  }

  function MarkDown(nodes: seq<Node>, id: NodeId): (r: seq<Node>)
    ensures |r| == |nodes|
    ensures forall i :: 0 <= i < |nodes| ==> r[i] == if nodes[i].id == id then nodes[i].(status := Down) else nodes[i]
  {
    seq(|nodes|, i requires 0 <= i < |nodes| => if nodes[i].id == id then nodes[i].(status := Down) else nodes[i])
  }

  lemma MarkDownMembers(nodes: seq<Node>, h: Node)
    requires Mesh(nodes) && h in nodes
    ensures Mesh(MarkDown(nodes, h.id))
    ensures forall n :: n in MarkDown(nodes, h.id) <==> (n in nodes && n != h) || n == h.(status := Down)
  {
    var after := MarkDown(nodes, h.id);
    forall n | n in after ensures (n in nodes && n != h) || n == h.(status := Down) {
      var i :| 0 <= i < |after| && after[i] == n;
      SameId(nodes, nodes[i], h);
    }
    forall n | (n in nodes && n != h) || n == h.(status := Down) ensures n in after {
      var m := if n in nodes && n != h then n else h;
      var i :| 0 <= i < |nodes| && nodes[i] == m;
      SameId(nodes, m, h);
      assert after[i] == n;
    }
  }

  lemma AliveAfterDown(nodes: seq<Node>, h: Node)
    requires Mesh(nodes) && h in nodes
    ensures SomeAlive(MarkDown(nodes, h.id), {}) <==> SomeAlive(nodes, {h})
  {
    MarkDownMembers(nodes, h);
    if SomeAlive(nodes, {h}) {
      var n :| n in nodes && n !in {h} && Candidate(n, true);
      assert n in MarkDown(nodes, h.id);
    }
  }

  /** Only the hub's own status changes, so the search among the others does not. */
  lemma LeastAfterDown(nodes: seq<Node>, h: Node, next: Node, aliveOnly: bool)
    requires Mesh(nodes) && h in nodes && next in nodes
    ensures var next' := if next == h then h.(status := Down) else next;
            Least(MarkDown(nodes, h.id), next', {}, aliveOnly) <==>
              Least(nodes, next, if aliveOnly then {h} else {}, aliveOnly)
  {
    MarkDownMembers(nodes, h);
    var after, down := MarkDown(nodes, h.id), h.(status := Down);
    var next' := if next == h then down else next;
    if Least(after, next', {}, aliveOnly) {
      forall m | m in nodes && (aliveOnly ==> m != h) && m != next && Candidate(m, aliveOnly)
        ensures Lower(next.ip.value, m.ip.value)
      {
        var m' := if m == h then down else m;
        assert m' in after && Candidate(m', aliveOnly) && m' != next';
      }
    }
    if Least(nodes, next, if aliveOnly then {h} else {}, aliveOnly) {
      forall m | m in after && m != next' && Candidate(m, aliveOnly)
        ensures Lower(next'.ip.value, m.ip.value)
      {
        var m' := if m == down then h else m;
        assert m' in nodes && Candidate(m', aliveOnly) && m' != next;
      }
    }
  }

  /** Failover: marking the hub DOWN makes the next lowest live control node the hub, or the
      lowest of all control nodes when no other is alive. */
  lemma FailoverClimbs(nodes: seq<Node>, h: Node, next: Node)
    requires Mesh(nodes) && h in nodes && Hub(nodes) == Some(h.id)
    requires next in nodes
    ensures Hub(MarkDown(nodes, h.id)) == Some(next.id) <==>
              if SomeAlive(nodes, {h}) then Least(nodes, next, {h}, true) else Least(nodes, next, {}, false)
    ensures Hub(MarkDown(nodes, h.id)).Some?
  {
    HubIsActiveHub(nodes, h);
    MarkDownMembers(nodes, h);
    AliveAfterDown(nodes, h);
    LeastAfterDown(nodes, h, next, SomeAlive(nodes, {h}));
    HubIsActiveHub(MarkDown(nodes, h.id), if next == h then h.(status := Down) else next);
    assert HasControl(MarkDown(nodes, h.id)) by {
      assert Candidate(h.(status := Down), false) && h.(status := Down) in MarkDown(nodes, h.id);
    }
  }

  // ---------- peer sets ----------

  /** The entry for `n` in the peer set of `self`, if it has one. */
  function PeerFor(self: Node, n: Node, hub: Option<NodeId>): Option<Peer> {
    if n.id == self.id || !MeshReady(n) then None else
      var peer := (allowed: Prefix, keepalive: nat) =>
        Some(Peer(n.id, n.key, n.ip.value, n.endpoints, IsControl(n), IsControl(n), allowed, keepalive));
      if IsControl(self) then peer(Host(n.ip.value), 0)
      else if IsControl(n) then
        peer(if hub == Some(n.id) then WholeMesh else Host(n.ip.value),
             if self.endpoints == [] then NAT_KEEPALIVE_SECONDS else 0)
      else if self.meshsock && n.meshsock then peer(Host(n.ip.value), NAT_KEEPALIVE_SECONDS)
      else if self.endpoints == [] || n.endpoints == [] then None
      else peer(Host(n.ip.value), NAT_KEEPALIVE_SECONDS)
  }

  function PeersOf(nodes: seq<Node>, self: Node): set<Peer> {
    set n | n in nodes && PeerFor(self, n, Hub(nodes)).Some? :: PeerFor(self, n, Hub(nodes)).value
  }

  function PeerNode(p: Peer): int { p.nodeId }

  lemma PeerForIs(self: Node, n: Node, hub: Option<NodeId>)
    ensures PeerFor(self, n, hub).Some? ==> PeerFor(self, n, hub).value.nodeId == n.id
  {
  }

  /** The body of the loop of `buildPeerSet`. */
  method PeerOf(self: Node, n: Node, hub: Option<NodeId>) returns (p: Option<Peer>)
    ensures p == PeerFor(self, n, hub)
  {
    if n.id == self.id || n.key == "" || n.ip.None? {
      return None;
    }
    var isControl := IsControl(n);
    var peer := Peer(n.id, n.key, n.ip.value, n.endpoints, isControl, isControl, Host(n.ip.value), 0);
    if IsControl(self) {
    } else if isControl {
      if hub == Some(n.id) {
        peer := peer.(allowed := WholeMesh);
      }
      if self.endpoints == [] {
        peer := peer.(keepalive := NAT_KEEPALIVE_SECONDS);
      }
    } else if self.meshsock && n.meshsock {
      peer := peer.(keepalive := NAT_KEEPALIVE_SECONDS);
    } else {
      if self.endpoints == [] || n.endpoints == [] {
        return None;
      }
      peer := peer.(keepalive := NAT_KEEPALIVE_SECONDS);
    }
    return Some(peer);
  }

  method BuildPeerSet(nodes: seq<Node>, selfId: NodeId) returns (ps: PeerSet)
    requires DistinctIds(nodes)
    ensures (forall n :: n in nodes ==> n.id != selfId) ==> ps == PeerSet([], false)
    ensures Sorting.StrictlySortedBy(ps.peers, PeerNode)
    ensures forall self :: self in nodes && self.id == selfId ==>
              ps.hubAndSpoke == !IsControl(self) && (set p | p in ps.peers) == PeersOf(nodes, self)
  {
    hide PeerFor;
    var at := 0;
    while at < |nodes| && nodes[at].id != selfId
      invariant at <= |nodes| && forall j :: 0 <= j < at ==> nodes[j].id != selfId
    {
      at := at + 1;
    }
    if at == |nodes| {
      return PeerSet([], false);
    }
    var self := nodes[at];
    var hub := ActiveHub(nodes);
    var peers: seq<Peer> := [];
    for i := 0 to |nodes|
      invariant forall p :: p in peers <==> exists j :: 0 <= j < i && PeerFor(self, nodes[j], hub) == Some(p)
      invariant forall k :: 0 <= k < |peers| ==> exists j :: 0 <= j < i && nodes[j].id == peers[k].nodeId
      invariant Sorting.DistinctKeys(peers, PeerNode)
    {
      PeerForIs(self, nodes[i], hub);
      var peer := PeerOf(self, nodes[i], hub);
      if peer.Some? {
        peers := peers + [peer.value];
      }
    }
    ps := PeerSet(Sorting.StableSort(peers, PeerNode), !IsControl(self));
    Sorting.DistinctSortIsStrict(peers, PeerNode);
    forall m | m in nodes && m.id == selfId ensures m == self {
      SameId(nodes, m, self);
    }
    assert (set p | p in ps.peers) == PeersOf(nodes, self);
  }

  // ---------- cryptokey routing ----------

  predicate Covers(p: Prefix, a: Ip) {
    p.Host? ==> p.ip == a
  }

  function Bits(p: Prefix): nat { if p.Host? then 32 else 16 }

  /** Longest-prefix match: `p` is the one peer with the longest allowed prefix covering `a`. */
  ghost predicate Routes(peers: set<Peer>, a: Ip, p: Peer) {
    && p in peers && Covers(p.allowed, a)
    && forall q :: q in peers && q != p && Covers(q.allowed, a) ==> Bits(q.allowed) < Bits(p.allowed)
  }

  /** A packet from mesh address `src` to `dst` that is at node `a` is sent to node `b`, and
      `b` accepts it: looking up the source address at `b` names the peer it came from. */
  ghost predicate Hop(nodes: seq<Node>, a: Node, b: Node, src: Ip, dst: Ip) {
    && (exists p :: Routes(PeersOf(nodes, a), dst, p) && p.nodeId == b.id)
    && (exists q :: Routes(PeersOf(nodes, b), src, q) && q.nodeId == a.id)
  }

  /** The nodes a packet from `s` visits on its way to `d`. */
  ghost predicate Path(nodes: seq<Node>, path: seq<Node>, s: Node, d: Node) {
    && |path| >= 2 && path[0] == s && path[|path| - 1] == d
    && s.ip.Some? && d.ip.Some?
    && (forall i :: 0 <= i < |path| ==> path[i] in nodes)
    && forall i :: 0 <= i < |path| - 1 ==> Hop(nodes, path[i], path[i + 1], s.ip.value, d.ip.value)
  }

  lemma PeerOfMember(nodes: seq<Node>, self: Node, p: Peer) returns (n: Node)
    requires p in PeersOf(nodes, self)
    ensures n in nodes && PeerFor(self, n, Hub(nodes)) == Some(p)
    ensures n.id == p.nodeId && n.ip == Some(p.ip) && MeshReady(n) && n.id != self.id
    ensures p.allowed == WholeMesh || p.allowed == Host(p.ip)
    ensures p.allowed == WholeMesh <==> !IsControl(self) && Hub(nodes) == Some(n.id) && IsControl(n)
  {
    n :| n in nodes && PeerFor(self, n, Hub(nodes)) == Some(p);
  }

  /** Allowed prefixes never clash, so every lookup has at most one best match. */
  lemma PrefixesDistinct(nodes: seq<Node>, self: Node, p: Peer, q: Peer)
    requires Mesh(nodes) && p in PeersOf(nodes, self) && q in PeersOf(nodes, self)
    ensures p.allowed == q.allowed ==> p == q
  {
    var m := PeerOfMember(nodes, self, p);
    var n := PeerOfMember(nodes, self, q);
    if p.allowed == q.allowed {
      SameId(nodes, m, n);
      assert m == n;
    }
  }

  /** The peer set of a worker has exactly one whole-mesh peer, the hub, as soon as some
      control node is mesh-ready; a control node's has none. */
  lemma OneWholeMeshPeer(nodes: seq<Node>, self: Node, p: Peer)
    requires Mesh(nodes) && self in nodes && p in PeersOf(nodes, self)
    ensures p.allowed == WholeMesh <==> !IsControl(self) && Hub(nodes) == Some(p.nodeId)
    ensures !IsControl(self) && HasControl(nodes) ==>
              exists q :: q in PeersOf(nodes, self) && q.allowed == WholeMesh
  {
    var n := PeerOfMember(nodes, self, p);
    if Hub(nodes) == Some(n.id) {
      var h := HubNode(nodes).value;
      SameId(nodes, n, h);
    }
    if !IsControl(self) && HasControl(nodes) {
      var _ := HubPeer(nodes, self);
    }
  }

  lemma HubPeer(nodes: seq<Node>, self: Node) returns (h: Node)
    requires Mesh(nodes) && self in nodes && !IsControl(self) && HasControl(nodes)
    ensures h in nodes && Candidate(h, false) && Hub(nodes) == Some(h.id) && h != self
    ensures PeerFor(self, h, Hub(nodes)).Some? && PeerFor(self, h, Hub(nodes)).value in PeersOf(nodes, self)
    ensures PeerFor(self, h, Hub(nodes)).value.allowed == WholeMesh
  {
    HubIsActiveHub(nodes, self);
    h := HubNode(nodes).value;
    SameId(nodes, h, self);
  }

  /** A /32 peer is always the best match for its own address. */
  lemma HostRoutes(nodes: seq<Node>, self: Node, n: Node)
    requires Mesh(nodes) && self in nodes && n in nodes && MeshReady(n)
    requires PeerFor(self, n, Hub(nodes)).Some?
    ensures Routes(PeersOf(nodes, self), n.ip.value, PeerFor(self, n, Hub(nodes)).value)
  {
    var p := PeerFor(self, n, Hub(nodes)).value;
    var peers := PeersOf(nodes, self);
    assert p in peers;
    forall q | q in peers && q != p && Covers(q.allowed, n.ip.value)
      ensures Bits(q.allowed) < Bits(p.allowed)
    {
      var m := PeerOfMember(nodes, self, q);
      PrefixesDistinct(nodes, self, p, q);
    }
  }

  /** An address no /32 names goes to the hub. */
  lemma HubRoutes(nodes: seq<Node>, self: Node, h: Node, n: Node)
    requires Mesh(nodes) && self in nodes && n in nodes && MeshReady(n)
    requires PeerFor(self, n, Hub(nodes)).None?
    requires h in nodes && PeerFor(self, h, Hub(nodes)).Some? && PeerFor(self, h, Hub(nodes)).value.allowed == WholeMesh
    ensures Routes(PeersOf(nodes, self), n.ip.value, PeerFor(self, h, Hub(nodes)).value)
  {
    var p := PeerFor(self, h, Hub(nodes)).value;
    var peers := PeersOf(nodes, self);
    forall q | q in peers && q != p ensures !Covers(q.allowed, n.ip.value) {
      var m := PeerOfMember(nodes, self, q);
      PrefixesDistinct(nodes, self, p, q);
    }
  }

  /** Two workers that hold each other's /32. */
  predicate DirectPair(s: Node, d: Node) {
    (s.meshsock && d.meshsock) || (s.endpoints != [] && d.endpoints != [])
  }

  lemma OneHop(nodes: seq<Node>, s: Node, d: Node)
    requires Mesh(nodes) && s in nodes && d in nodes && s != d && MeshReady(s) && MeshReady(d)
    requires IsControl(s) || IsControl(d) || DirectPair(s, d)
    ensures Hop(nodes, s, d, s.ip.value, d.ip.value)
  {
    SameId(nodes, s, d);
    HostRoutes(nodes, s, d);
    HostRoutes(nodes, d, s);
    assert PeerFor(s, d, Hub(nodes)).value.nodeId == d.id && PeerFor(d, s, Hub(nodes)).value.nodeId == s.id;
  }

  lemma TwoHops(nodes: seq<Node>, s: Node, d: Node) returns (h: Node)
    requires Mesh(nodes) && s in nodes && d in nodes && s != d && MeshReady(s) && MeshReady(d)
    requires !IsControl(s) && !IsControl(d) && !DirectPair(s, d) && HasControl(nodes)
    ensures h in nodes
    ensures Hop(nodes, s, h, s.ip.value, d.ip.value) && Hop(nodes, h, d, s.ip.value, d.ip.value)
  {
    h := HubPeer(nodes, s);
    var h' := HubPeer(nodes, d);
    SameId(nodes, h, h');
    SameId(nodes, h, s);
    SameId(nodes, h, d);
    SameId(nodes, s, d);
    HubRoutes(nodes, s, h, d);
    HubRoutes(nodes, d, h, s);
    HostRoutes(nodes, h, s);
    HostRoutes(nodes, h, d);
    assert PeerFor(s, h, Hub(nodes)).value.nodeId == h.id && PeerFor(h, s, Hub(nodes)).value.nodeId == s.id;
    assert PeerFor(d, h, Hub(nodes)).value.nodeId == h.id && PeerFor(h, d, Hub(nodes)).value.nodeId == d.id;
  }

  lemma NoRoute(nodes: seq<Node>, s: Node, d: Node, p: Peer)
    requires Mesh(nodes) && s in nodes && d in nodes && s != d && MeshReady(s) && MeshReady(d)
    requires !HasControl(nodes) && !DirectPair(s, d)
    ensures !Routes(PeersOf(nodes, s), d.ip.value, p)
  {
    if Routes(PeersOf(nodes, s), d.ip.value, p) {
      var n := PeerOfMember(nodes, s, p);
      HubIsActiveHub(nodes, s);
      assert false;
    }
  }

  lemma Delivered(nodes: seq<Node>, s: Node, d: Node) returns (path: seq<Node>)
    requires Mesh(nodes) && s in nodes && d in nodes && s != d && MeshReady(s) && MeshReady(d)
    requires HasControl(nodes) || DirectPair(s, d)
    ensures |path| <= 3 && Path(nodes, path, s, d)
  {
    if IsControl(s) || IsControl(d) || DirectPair(s, d) {
      OneHop(nodes, s, d);
      path := [s, d];
    } else {
      var h := TwoHops(nodes, s, d);
      path := [s, h, d];
    }
  }

  lemma NotDelivered(nodes: seq<Node>, s: Node, d: Node, path: seq<Node>)
    requires Mesh(nodes) && s in nodes && d in nodes && s != d && MeshReady(s) && MeshReady(d)
    requires !HasControl(nodes) && !DirectPair(s, d)
    ensures !Path(nodes, path, s, d)
  {
    if Path(nodes, path, s, d) {
      assert Hop(nodes, path[0], path[0 + 1], s.ip.value, d.ip.value);
      var p :| Routes(PeersOf(nodes, s), d.ip.value, p);
      NoRoute(nodes, s, d, p);
      assert false;
    }
  }

  /** Mesh delivery. Between any two mesh-ready nodes a packet arrives in at most two hops,
      every receiver accepting it, exactly when some control node is mesh-ready or the two
      are a direct pair; otherwise it arrives over no path at all. */
  lemma MeshDelivers(nodes: seq<Node>, s: Node, d: Node)
    requires Mesh(nodes) && s in nodes && d in nodes && s != d && MeshReady(s) && MeshReady(d)
    ensures HasControl(nodes) || DirectPair(s, d) ==> exists path :: |path| <= 3 && Path(nodes, path, s, d)
    ensures (exists path :: Path(nodes, path, s, d)) ==> HasControl(nodes) || DirectPair(s, d)
  {
    if HasControl(nodes) || DirectPair(s, d) {
      var path := Delivered(nodes, s, d);
    } else {
      forall path ensures !Path(nodes, path, s, d) {
        NotDelivered(nodes, s, d, path);
      }
    }
  }

  /** The next hop is a function of the node and the destination, so the path found above is
      the one the packet takes. */
  lemma HopIsDeterministic(nodes: seq<Node>, a: Node, b: Node, c: Node, src: Ip, dst: Ip)
    requires Mesh(nodes) && b in nodes && c in nodes
    requires Hop(nodes, a, b, src, dst) && Hop(nodes, a, c, src, dst)
    ensures b == c
  {
    var p :| Routes(PeersOf(nodes, a), dst, p) && p.nodeId == b.id;
    var q :| Routes(PeersOf(nodes, a), dst, q) && q.nodeId == c.id;
    SameId(nodes, b, c);
  }

  // ---------- the peers handed out by Join ----------

  function InitialPeerFor(selfId: NodeId, roles: seq<Role>, n: Node, hub: Option<NodeId>): Option<Peer> {
    if n.id == selfId || !MeshReady(n) then None
    else if !HasControlRole(roles) && !IsControl(n) then None
    else
      Some(Peer(n.id, n.key, n.ip.value, n.endpoints, IsControl(n), false,
                if !HasControlRole(roles) && hub == Some(n.id) then WholeMesh else Host(n.ip.value),
                NAT_KEEPALIVE_SECONDS))
  }

  method BuildInitialPeers(meshEnabled: bool, nodes: seq<Node>, selfId: NodeId, roles: seq<Role>)
    returns (ps: Option<PeerSet>)
    ensures ps.Some? <==> meshEnabled
    ensures meshEnabled ==> ps.value.hubAndSpoke == !HasControlRole(roles)
    ensures meshEnabled ==>
              forall p :: p in ps.value.peers <==>
                       exists n :: n in nodes && InitialPeerFor(selfId, roles, n, Hub(nodes)) == Some(p)
  {
    if !meshEnabled {
      return None;
    }
    var selfControl := HasControlRole(roles);
    var hub := ActiveHub(nodes);
    var peers: seq<Peer> := [];
    for i := 0 to |nodes|
      invariant forall p :: p in peers <==>
                  exists j :: 0 <= j < i && InitialPeerFor(selfId, roles, nodes[j], hub) == Some(p)
    {
      var n := nodes[i];
      if n.id == selfId || n.key == "" || n.ip.None? {
        continue;
      }
      var isControl := IsControl(n);
      if !selfControl && !isControl {
        continue;
      }
      var peer := Peer(n.id, n.key, n.ip.value, n.endpoints, isControl, false, Host(n.ip.value), NAT_KEEPALIVE_SECONDS);
      if selfControl {
      } else if hub == Some(n.id) {
        peer := peer.(allowed := WholeMesh);
      }
      peers := peers + [peer];
    }
    ps := Some(PeerSet(peers, !selfControl));
    forall p ensures p in peers <==> exists n :: n in nodes && InitialPeerFor(selfId, roles, n, Hub(nodes)) == Some(p) {
      if n :| n in nodes && InitialPeerFor(selfId, roles, n, Hub(nodes)) == Some(p) {
        var j :| 0 <= j < |nodes| && nodes[j] == n;
        assert InitialPeerFor(selfId, roles, nodes[j], hub) == Some(p);
      }
    }
  }

  /** A joining node starts with exactly the peers of its later peer set that involve a
      control node, each with the key, address, endpoints and allowed IPs it keeps. */
  lemma InitialPeersAgree(nodes: seq<Node>, self: Node, n: Node)
    requires Mesh(nodes) && self in nodes && n in nodes
    ensures var first := InitialPeerFor(self.id, self.roles, n, Hub(nodes));
            var later := PeerFor(self, n, Hub(nodes));
            && (first.Some? <==> later.Some? && (IsControl(self) || IsControl(n)))
            && (first.Some? ==> later.value.(keepalive := NAT_KEEPALIVE_SECONDS, relayCapable := false) == first.value)
  {
    if Hub(nodes) == Some(n.id) {
      SameId(nodes, n, HubNode(nodes).value);
    }
  }
}
