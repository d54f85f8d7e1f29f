/** Mesh-IP enrolment: the address allocator, and the scan / apply / re-check protocol run by
    any number of joins at once. */
module MeshJoin {
  import opened MeshNode
  import opened Options
  import opened Sequences

  const MESH_IP_RETRIES := 8
  const CONTROL_ADDRESSES := 253
  const WORKER_ADDRESSES := 64770

  // ---------- the allocator ----------

  predicate InRange(a: Ip, isControl: bool) {
    if isControl then a.b == 0 && 2 <= a.c <= 254 else 1 <= a.b <= 255 && 1 <= a.c <= 254
  }

  function Used(nodes: set<Node>): set<Ip> {
    set n | n in nodes && n.ip.Some? :: n.ip.value
  }

  /** `r` is the lowest unused address of the role's range; `None` means all are used. */
  ghost predicate LowestFree(used: set<Ip>, isControl: bool, r: Option<Ip>) {
    match r
    case Some(ip) =>
      InRange(ip, isControl) && ip !in used && forall a :: InRange(a, isControl) && Lower(a, ip) ==> a in used
    case None => forall a :: InRange(a, isControl) ==> a in used
  }

  method AllocateMeshIp(nodes: seq<Node>, isControl: bool) returns (r: Option<Ip>)
    ensures LowestFree(Used(set n | n in nodes), isControl, r)
  {
    var used: set<Ip> := {};
    for i := 0 to |nodes|
      invariant forall a :: a in used <==> exists j :: 0 <= j < i && nodes[j].ip == Some(a)
    {
      if nodes[i].ip.Some? {
        used := used + {nodes[i].ip.value};
      }
    }
    assert used == Used(set n | n in nodes);
    if isControl {
      for h := 2 to 255
        invariant forall c :: 2 <= c < h ==> Ip(0, c) in used
      {
        if Ip(0, h) !in used {
          return Some(Ip(0, h));
        }
      }
      return None;
    }
    for b := 1 to 256
      invariant forall a :: InRange(a, false) && a.b < b ==> a in used
    {
      for c := 1 to 255
        invariant forall a :: InRange(a, false) && Lower(a, Ip(b, c)) ==> a in used
      {
        if Ip(b, c) !in used {
          return Some(Ip(b, c));
        }
      }
    }
    return None;
  }

  function Row(b: nat, first: nat, n: nat): set<Ip> {
    set c | first <= c < first + n :: Ip(b, c)
  }

  lemma {:induction false} RowSize(b: nat, first: nat, n: nat)
    ensures |Row(b, first, n)| == n
  {
    if n == 0 {
      assert Row(b, first, n) == {};
    } else {
      RowSize(b, first, n - 1);
      assert Row(b, first, n) == Row(b, first, n - 1) + {Ip(b, first + n - 1)};
    }
  }

  function Rows(n: nat): set<Ip> {
    set b, c | 1 <= b < 1 + n && 1 <= c < 255 :: Ip(b, c)
  }

  lemma {:induction false} RowsSize(n: nat)
    ensures |Rows(n)| == 254 * n
  {
    if n == 0 {
      assert Rows(n) == {};
    } else {
      RowsSize(n - 1);
      RowSize(n, 1, 254);
      assert Rows(n) == Rows(n - 1) + Row(n, 1, 254);
      assert Rows(n - 1) !! Row(n, 1, 254);
    }
  }

  lemma {:induction false} UsedSize(nodes: seq<Node>)
    ensures |Used(set n | n in nodes)| <= |nodes|
  {
    if nodes == [] {
      assert Used(set n | n in nodes) == {};
    } else {
      var front, n := nodes[..|nodes| - 1], nodes[|nodes| - 1];
      UsedSize(front);
      assert nodes == front + [n];
      var extra := if n.ip.Some? then {n.ip.value} else {};
      assert Used(set n | n in nodes) == Used(set n | n in front) + extra;
    }
  }

  /** Allocation fails only when at least as many nodes exist as the role has addresses. */
  lemma FailsOnlyWhenFull(nodes: seq<Node>, isControl: bool)
    requires LowestFree(Used(set n | n in nodes), isControl, None)
    ensures |nodes| >= if isControl then CONTROL_ADDRESSES else WORKER_ADDRESSES
  {
    var used := Used(set n | n in nodes);
    UsedSize(nodes);
    if isControl {
      RowSize(0, 2, 253);
      assert forall a :: a in Row(0, 2, 253) ==> InRange(a, true);
      SubsetCount(Row(0, 2, 253), used);
    } else {
      RowsSize(255);
      assert forall a :: a in Rows(255) ==> InRange(a, false);
      SubsetCount(Rows(255), used);
    }
  }

  lemma LowestFreeUnique(used: set<Ip>, isControl: bool, r: Option<Ip>, q: Option<Ip>)
    requires LowestFree(used, isControl, r) && LowestFree(used, isControl, q)
    ensures r == q
  {
    if r.Some? && q.Some? {
      assert Lower(r.value, q.value) || Lower(q.value, r.value) || r == q;
    }
  }

  // ---------- one join, with other joins running in between ----------

  datatype JoinError = NoFreeAddress | ApplyFailed | Aborted

  datatype Result<T> = Ok(value: T) | Err(error: JoinError)

  class JoinServer {
    var nodes: map<NodeId, Node>
    const meshEnabled: bool

    constructor (meshEnabled: bool)
      ensures nodes == map[] && this.meshEnabled == meshEnabled
    {
      this.meshEnabled := meshEnabled;
      nodes := map[];
    }

    /** Anything other joins and other commands may do to the records of other nodes. */
    method OthersRun(self: NodeId)
      modifies this
      ensures self in nodes <==> self in old(nodes)
      ensures self in nodes ==> nodes[self] == old(nodes)[self]
    {
      var any: map<NodeId, Node> := *;
      nodes := if self in nodes then any[self := nodes[self]] else any - {self};
    }

    method ListNodes() returns (list: seq<Node>)
      ensures forall n :: n in list <==> n in nodes.Values
    {
      list := [];
      var left := nodes.Keys;
      while left != {}
        invariant left <= nodes.Keys
        invariant forall n :: n in list <==> exists id :: id in nodes && id !in left && nodes[id] == n
        decreases left
      {
        var id :| id in left;
        list := list + [nodes[id]];
        left := left - {id};
      }
    }

    method MeshIpTaken(self: NodeId, ip: Ip) returns (taken: bool)
      ensures taken <==> exists id :: id in nodes && id != self && nodes[id].ip == Some(ip)
    {
      var left := nodes.Keys;
      while left != {}
        invariant left <= nodes.Keys
        invariant forall id :: id in nodes && id !in left ==> id == self || nodes[id].ip != Some(ip)
        decreases left
      {
        var id :| id in left;
        if id != self && nodes[id].ip == Some(ip) {
          return true;
        }
        left := left - {id};
      }
      return false;
    }

    /** One raft command. When it reports an error it may still have taken effect. */
    method Apply(record: Node) returns (ok: bool)
      modifies this
      ensures ok ==> nodes == old(nodes)[record.id := record]
      ensures !ok ==> nodes == old(nodes) || nodes == old(nodes)[record.id := record]
    {
      ok := *;
      var recorded: bool := *;
      if ok || recorded {
        nodes := nodes[record.id := record];
      }
    }

    /** `registerNode`: an address returned with success is recorded for this node and, at the
        re-check that decided success, was held by no other node. */
    method RegisterNode(request: Node) returns (r: Result<Option<Ip>>)
      modifies this
      ensures r.Ok? ==> request.id in nodes && nodes[request.id] == request.(ip := r.value)
      ensures request.id in old(nodes) ==> r == Ok(old(nodes)[request.id].ip) || r == Err(ApplyFailed)
      ensures request.id !in old(nodes) && r.Ok? ==> (r.value.Some? <==> meshEnabled)
      ensures request.id !in old(nodes) && r.Ok? && meshEnabled ==>
                && (if Control in request.roles then r.value.value.b == 0 && 2 <= r.value.value.c <= 254
                    else 1 <= r.value.value.b <= 255 && 1 <= r.value.value.c <= 254)
                && forall id :: id in nodes && id != request.id ==> nodes[id].ip != r.value
    {
      var self := request.id;
      if self in nodes {
        var ip := nodes[self].ip;
        OthersRun(self);
        var ok := Apply(request.(ip := ip));
        if !ok {
          return Err(ApplyFailed);
        }
        return Ok(ip);
      }
      var attempt := 0;
      while attempt < MESH_IP_RETRIES
      {
        var meshIp: Option<Ip> := None;
        if meshEnabled {
          var list := ListNodes();
          meshIp := AllocateMeshIp(list, IsControl(request));
          if meshIp.None? {
            return Err(NoFreeAddress);
          }
        }
        OthersRun(self);
        var ok := Apply(request.(ip := meshIp));
        if !ok {
          return Err(ApplyFailed);
        }
        OthersRun(self);
        if meshIp.None? {
          return Ok(None);
        }
        var taken := MeshIpTaken(self, meshIp.value);
        if !taken {
          return Ok(meshIp);
        }
        attempt := attempt + 1;
      }
      return Err(Aborted);
    }
  }

  // ---------- any number of joins at once ----------

  /** One `Join` request. A node that joins again, or is impatient, makes another. */
  type JoinId = nat

  /** How far a join has come. `node` is the record it asks for. */
  datatype Phase =
    | Scanning(attempt: nat, node: Node)
    | Scanned(attempt: nat, node: Node, ip: Option<Ip>)
    | Applied(attempt: nat, node: Node, ip: Option<Ip>)
    | Resuming(node: Node, ip: Option<Ip>) // the node was recorded, its address was read
    | Joined(node: Node, ip: Option<Ip>)   // returned success
    | Failed(node: Node, error: JoinError)

  /** A node's record; `giver` is the join that gave it its address. */
  datatype Record = Record(node: Node, giver: JoinId)

  datatype Cluster = Cluster(meshEnabled: bool, store: map<NodeId, Record>, joins: map<JoinId, Phase>)

  datatype Action =
    | Arrive(id: JoinId, node: Node)
    | Scan(id: JoinId)
    | Apply(id: JoinId)
    | ApplyFails(id: JoinId, recorded: bool) // the raft call reports an error; the command may still have taken effect
    | Recheck(id: JoinId)
    | ResumeApply(id: JoinId)
    | ResumeApplyFails(id: JoinId, recorded: bool)
    | Delete(nodeId: NodeId)

  function Nodes(s: Cluster): set<Node> {
    set r | r in s.store.Values :: r.node
  }

  predicate RecordedElsewhere(s: Cluster, self: NodeId, ip: Ip) {
    exists id :: id in s.store && id != self && s.store[id].node.ip == Some(ip)
  }

  function Enter(s: Cluster, id: JoinId, p: Phase): Cluster {
    s.(joins := s.joins[id := p])
  }

  function Write(s: Cluster, node: Node, ip: Option<Ip>, giver: JoinId): Cluster {
    s.(store := s.store[node.id := Record(node.(ip := ip), giver)])
  }

  /** Recording an address that is already recorded leaves it to the join that gave it. */
  function GivenBy(s: Cluster, nodeId: NodeId, ip: Option<Ip>, id: JoinId): JoinId {
    if nodeId in s.store && s.store[nodeId].node.ip == ip then s.store[nodeId].giver else id
  }

  ghost predicate Next(s: Cluster, a: Action, t: Cluster) {
    match a
    case Arrive(id, node) =>
      && id !in s.joins
      && t == Enter(s, id, if node.id in s.store then Resuming(node, s.store[node.id].node.ip) else Scanning(0, node))
    case Scan(id) =>
      && id in s.joins && s.joins[id].Scanning?
      && var p := s.joins[id];
      if !s.meshEnabled then t == Enter(s, id, Scanned(p.attempt, p.node, None))
      else
        (exists ip :: LowestFree(Used(Nodes(s)), IsControl(p.node), ip) &&
          t == Enter(s, id, if ip.Some? then Scanned(p.attempt, p.node, ip) else Failed(p.node, NoFreeAddress)))
    case Apply(id) =>
      && id in s.joins && s.joins[id].Scanned?
      && var p := s.joins[id];
      t == Write(Enter(s, id, Applied(p.attempt, p.node, p.ip)), p.node, p.ip, id)
    case ApplyFails(id, recorded) =>
      && id in s.joins && s.joins[id].Scanned?
      && var p := s.joins[id];
      var failed := Enter(s, id, Failed(p.node, ApplyFailed));
      t == if recorded then Write(failed, p.node, p.ip, id) else failed
    case Recheck(id) =>
      && id in s.joins && s.joins[id].Applied?
      && var p := s.joins[id];
      t == Enter(s, id,
        if p.ip.None? || !RecordedElsewhere(s, p.node.id, p.ip.value) then Joined(p.node, p.ip)
        else if p.attempt + 1 < MESH_IP_RETRIES then Scanning(p.attempt + 1, p.node)
        else Failed(p.node, Aborted))
    case ResumeApply(id) =>
      && id in s.joins && s.joins[id].Resuming?
      && var p := s.joins[id];
      t == Write(Enter(s, id, Joined(p.node, p.ip)), p.node, p.ip, id)
    case ResumeApplyFails(id, recorded) =>
      && id in s.joins && s.joins[id].Resuming?
      && var p := s.joins[id];
      var failed := Enter(s, id, Failed(p.node, ApplyFailed));
      t == if recorded then Write(failed, p.node, p.ip, GivenBy(s, p.node.id, p.ip, id)) else failed
    case Delete(nodeId) =>
      t == s.(store := s.store - {nodeId})
  }

  /** The node's recorded address was given by a join that returned success. */
  predicate Holds(s: Cluster, nodeId: NodeId, ip: Ip) {
    && nodeId in s.store && s.store[nodeId].node.ip == Some(ip)
    && s.store[nodeId].giver in s.joins && s.joins[s.store[nodeId].giver].Joined?
  }

  /** No two nodes hold the same mesh address. */
  ghost predicate JoinSafe(s: Cluster) {
    forall m, n, ip :: Holds(s, m, ip) && Holds(s, n, ip) ==> m == n
  }

  predicate RecordAgrees(s: Cluster, nodeId: NodeId)
    requires nodeId in s.store
  {
    var r := s.store[nodeId];
    && r.node.id == nodeId && r.giver in s.joins && s.joins[r.giver].node.id == nodeId
    && (s.joins[r.giver].Applied? || s.joins[r.giver].Joined? ==> s.joins[r.giver].ip == r.node.ip)
    && !s.joins[r.giver].Resuming?
  }

  /** A record has the address that the join which gave it has come to. */
  ghost predicate RecordsAgree(s: Cluster) {
    forall nodeId :: nodeId in s.store ==> RecordAgrees(s, nodeId)
  }

  ghost predicate Inv(s: Cluster) {
    JoinSafe(s) && RecordsAgree(s)
  }

  /** A resumed join is about to record an address that another node holds now: the one write
      that is followed by no re-check. */
  ghost predicate Clash(s: Cluster, a: Action) {
    && a.ResumeApply? && a.id in s.joins && s.joins[a.id].Resuming? && s.joins[a.id].ip.Some?
    && exists m :: m != s.joins[a.id].node.id && Holds(s, m, s.joins[a.id].ip.value)
  }

  lemma StepKeepsRecords(s: Cluster, a: Action, t: Cluster)
    requires RecordsAgree(s) && Next(s, a, t)
    ensures RecordsAgree(t)
  {
    forall nodeId | nodeId in t.store ensures RecordAgrees(t, nodeId) {
      if nodeId in s.store {
        assert RecordAgrees(s, nodeId);
      }
    }
  }

  /** Where a holder after the step comes from. */
  lemma HoldersBefore(s: Cluster, a: Action, t: Cluster, n: NodeId, ip: Ip)
    requires RecordsAgree(s) && Next(s, a, t) && Holds(t, n, ip)
    ensures || Holds(s, n, ip)
            || (a.Recheck? && a.id in s.joins && s.joins[a.id].Applied? && s.joins[a.id].node.id == n &&
                 !RecordedElsewhere(s, n, ip))
            || (a.ResumeApply? && a.id in s.joins && s.joins[a.id].Resuming? && s.joins[a.id].node.id == n &&
                 s.joins[a.id].ip == Some(ip))
    ensures a.Recheck? ==> t.store == s.store
  {
    if n in s.store {
      assert RecordAgrees(s, n);
    }
  }

  lemma ClashShows(s: Cluster, a: Action, t: Cluster)
    requires RecordsAgree(s) && Next(s, a, t) && Clash(s, a)
    ensures !JoinSafe(t)
  {
    var n, ip := s.joins[a.id].node.id, s.joins[a.id].ip.value;
    var m :| m != n && Holds(s, m, ip);
    assert RecordAgrees(s, m);
    assert Holds(t, m, ip) && Holds(t, n, ip);
  }

  /** Exactly which steps keep addresses unique: all but a clashing resume. */
  lemma StepSafeIffNoClash(s: Cluster, a: Action, t: Cluster)
    requires Inv(s) && Next(s, a, t)
    ensures Inv(t) <==> !Clash(s, a)
  {
    hide Next;
    StepKeepsRecords(s, a, t);
    if Clash(s, a) {
      ClashShows(s, a, t);
    } else {
      forall m, n, ip | Holds(t, m, ip) && Holds(t, n, ip) ensures m == n {
        HoldersBefore(s, a, t, m, ip);
        HoldersBefore(s, a, t, n, ip);
      }
    }
  }

  // ---------- whole runs ----------

  /** Before any join of interest, every recorded node has joined, with its own address. */
  ghost predicate Init(s: Cluster) {
    && RecordsAgree(s)
    && (forall id :: id in s.joins ==> s.joins[id].Joined?)
    && (forall m, n ::
          m in s.store && n in s.store && s.store[m].node.ip.Some? && s.store[m].node.ip == s.store[n].node.ip
          ==> m == n)
  }

  ghost predicate Execution(states: seq<Cluster>, actions: seq<Action>) {
    && |states| == |actions| + 1
    && Init(states[0])
    && forall i :: 0 <= i < |actions| ==> Next(states[i], actions[i], states[i + 1])
  }

  ghost predicate NoClash(states: seq<Cluster>, actions: seq<Action>, k: nat)
    requires k <= |actions| && |states| == |actions| + 1
  {
    forall i :: 0 <= i < k ==> !Clash(states[i], actions[i])
  }

  lemma {:induction false} RunKeepsRecords(states: seq<Cluster>, actions: seq<Action>, k: nat)
    requires Execution(states, actions) && k <= |actions|
    ensures RecordsAgree(states[k])
    ensures NoClash(states, actions, k) ==> Inv(states[k])
  {
    if k > 0 {
      RunKeepsRecords(states, actions, k - 1);
      assert Next(states[k - 1], actions[k - 1], states[k]);
      StepKeepsRecords(states[k - 1], actions[k - 1], states[k]);
      if NoClash(states, actions, k) {
        StepSafeIffNoClash(states[k - 1], actions[k - 1], states[k]);
      }
    }
  }

  /** Exactly which runs are safe. Over any interleaving of any number of joins, of the same
      node too, of failed applies that may have taken effect, and of deletions: no two nodes ever
      hold one address if and only if no resumed join records an address that another node
      holds. */
  lemma RunSafeIffNoClash(states: seq<Cluster>, actions: seq<Action>)
    requires Execution(states, actions)
    ensures (forall k :: 0 <= k <= |actions| ==> JoinSafe(states[k])) <==> NoClash(states, actions, |actions|)
  {
    if NoClash(states, actions, |actions|) {
      forall k | 0 <= k <= |actions| ensures JoinSafe(states[k]) {
        assert NoClash(states, actions, k);
        RunKeepsRecords(states, actions, k);
      }
    } else {
      var i :| 0 <= i < |actions| && Clash(states[i], actions[i]);
      RunKeepsRecords(states, actions, i);
      assert Next(states[i], actions[i], states[i + 1]);
      ClashShows(states[i], actions[i], states[i + 1]);
    }
  }

  // ---------- a discipline that is enough ----------

  /** A node joins again only once a join that returned success gave it its record. */
  predicate CleanArrival(s: Cluster, a: Action) {
    a.Arrive? && a.node.id in s.store ==>
      s.store[a.node.id].giver in s.joins && s.joins[s.store[a.node.id].giver].Joined?
  }

  /** The record of a node is deleted, or given another address by a fresh join, while another
      join of the node is resuming with it. */
  predicate Disturbs(s: Cluster, a: Action) {
    exists j :: j in s.joins && s.joins[j].Resuming? &&
      (a == Delete(s.joins[j].node.id) ||
       ((a.Apply? || (a.ApplyFails? && a.recorded)) && a.id in s.joins && s.joins[a.id].node.id == s.joins[j].node.id))
  }

  ghost predicate Disciplined(states: seq<Cluster>, actions: seq<Action>) {
    forall i :: 0 <= i < |actions| && i < |states| ==>
      CleanArrival(states[i], actions[i]) && !Disturbs(states[i], actions[i])
  }

  predicate ResumesHeld(s: Cluster, j: JoinId)
    requires j in s.joins && s.joins[j].Resuming?
  {
    var p := s.joins[j];
    && p.node.id in s.store && s.store[p.node.id].node.ip == p.ip
    && s.store[p.node.id].giver in s.joins && s.joins[s.store[p.node.id].giver].Joined?
  }

  ghost predicate ResumersHold(s: Cluster) {
    forall j :: j in s.joins && s.joins[j].Resuming? ==> ResumesHeld(s, j)
  }

  lemma StepKeepsResumers(s: Cluster, a: Action, t: Cluster)
    requires RecordsAgree(s) && ResumersHold(s) && Next(s, a, t) && CleanArrival(s, a) && !Disturbs(s, a)
    ensures ResumersHold(t)
  {
    forall j | j in t.joins && t.joins[j].Resuming? ensures ResumesHeld(t, j) {
      if j in s.joins && s.joins[j].Resuming? {
        assert ResumesHeld(s, j) && RecordAgrees(s, s.joins[j].node.id);
        if (a.ResumeApply? || a.ResumeApplyFails?) {
          assert ResumesHeld(s, a.id);
        }
      }
    }
  }

  lemma ResumersDoNotClash(s: Cluster, a: Action)
    requires JoinSafe(s) && ResumersHold(s)
    ensures !Clash(s, a)
  {
    if a.ResumeApply? && a.id in s.joins && s.joins[a.id].Resuming? && s.joins[a.id].ip.Some? {
      assert ResumesHeld(s, a.id);
      assert Holds(s, s.joins[a.id].node.id, s.joins[a.id].ip.value);
    }
  }

  lemma {:induction false} DisciplineKeeps(states: seq<Cluster>, actions: seq<Action>, k: nat)
    requires Execution(states, actions) && Disciplined(states, actions) && k <= |actions|
    ensures Inv(states[k]) && ResumersHold(states[k])
  {
    if k > 0 {
      DisciplineKeeps(states, actions, k - 1);
      assert Next(states[k - 1], actions[k - 1], states[k]);
      ResumersDoNotClash(states[k - 1], actions[k - 1]);
      StepSafeIffNoClash(states[k - 1], actions[k - 1], states[k]);
      StepKeepsResumers(states[k - 1], actions[k - 1], states[k]);
    }
  }

  /** Join safety: over any interleaving in which a node joins again only after a success, and
      its record is left alone while it does, no two nodes ever hold one mesh address. Joins,
      also several of one node, may fail at any step, whether or not what they wrote took
      effect. */
  lemma JoinsAreSafe(states: seq<Cluster>, actions: seq<Action>, k: nat)
    requires Execution(states, actions) && Disciplined(states, actions)
    requires k <= |actions|
    ensures JoinSafe(states[k])
  {
    DisciplineKeeps(states, actions, k);
  }

  // ---------- what the program's own clients do ----------

  /** `Join` sees the node recorded, and the node has its id from a join that succeeded. */
  predicate Known(s: Cluster, nodeId: NodeId) {
    nodeId in s.store && exists j :: j in s.joins && s.joins[j].Joined? && s.joins[j].node.id == nodeId
  }

  predicate Unheard(s: Cluster, nodeId: NodeId) {
    nodeId !in s.store && forall j :: j in s.joins ==> s.joins[j].node.id != nodeId
  }

  /** A join of a client arrives at the read of its record: under an id just minted, or under one
      that the node was given before and `Join` saw recorded a moment ago. */
  ghost predicate ClientArrival(states: seq<Cluster>, actions: seq<Action>, i: nat)
    requires i < |actions| && i < |states|
  {
    actions[i].Arrive? ==>
      Unheard(states[i], actions[i].node.id) || exists j :: 0 <= j <= i && Known(states[j], actions[i].node.id)
  }

  ghost predicate FromClients(states: seq<Cluster>, actions: seq<Action>) {
    forall i :: 0 <= i < |actions| && i < |states| ==> ClientArrival(states, actions, i)
  }

  predicate Fresh(p: Phase) {
    p.Scanning? || p.Scanned? || p.Applied?
  }

  /** A join that allocates an address is the only one of its node. */
  ghost predicate AllocatesAlone(s: Cluster) {
    forall j, i ::
      j in s.joins && i in s.joins && Fresh(s.joins[j]) && s.joins[i].node.id == s.joins[j].node.id ==> i == j
  }

  /** What a join has applied is still recorded. */
  ghost predicate AppliedIsRecorded(s: Cluster) {
    forall j :: j in s.joins && s.joins[j].Applied? ==>
      s.joins[j].node.id in s.store && s.store[s.joins[j].node.id].giver == j
  }

  predicate GivenBySuccess(s: Cluster, nodeId: NodeId) {
    nodeId in s.store ==> s.store[nodeId].giver in s.joins && s.joins[s.store[nodeId].giver].Joined?
  }

  /** A node that ever succeeded has a record given by a success. */
  ghost predicate SuccessGives(s: Cluster) {
    forall j :: j in s.joins && s.joins[j].Joined? ==> GivenBySuccess(s, s.joins[j].node.id)
  }

  ghost predicate FirstJoins(s: Cluster) {
    AllocatesAlone(s) && AppliedIsRecorded(s) && SuccessGives(s) && ResumersHold(s) && RecordsAgree(s)
  }

  lemma ClientsAreClean(s: Cluster, a: Action)
    requires AllocatesAlone(s) && SuccessGives(s) && !a.Delete?
    requires a.Apply? || a.ApplyFails? ==> a.id in s.joins && Fresh(s.joins[a.id])
    requires a.Arrive? ==> Unheard(s, a.node.id) || Known(s, a.node.id)
    ensures CleanArrival(s, a) && !Disturbs(s, a)
  {
    if a.Arrive? && a.node.id in s.store {
      var j :| j in s.joins && s.joins[j].Joined? && s.joins[j].node.id == a.node.id;
      assert GivenBySuccess(s, a.node.id);
    }
  }

  lemma StepAllocatesAlone(s: Cluster, a: Action, t: Cluster)
    requires AllocatesAlone(s) && Next(s, a, t) && !a.Delete?
    requires a.Arrive? ==> Unheard(s, a.node.id) || Known(s, a.node.id)
    ensures AllocatesAlone(t)
  {
    hide LowestFree;
    forall j, i | j in t.joins && i in t.joins && Fresh(t.joins[j]) && t.joins[i].node.id == t.joins[j].node.id
      ensures i == j
    {
      assert j in s.joins ==> Fresh(s.joins[j]) && s.joins[j].node == t.joins[j].node;
      assert i in s.joins ==> s.joins[i].node == t.joins[i].node;
    }
  }

  lemma StepKeepsApplied(s: Cluster, a: Action, t: Cluster)
    requires AllocatesAlone(s) && AppliedIsRecorded(s) && Next(s, a, t) && !a.Delete?
    ensures AppliedIsRecorded(t)
  {
    hide LowestFree;
    forall j | j in t.joins && t.joins[j].Applied?
      ensures t.joins[j].node.id in t.store && t.store[t.joins[j].node.id].giver == j
    {
      assert !(a.Apply? && a.id == j) ==> j in s.joins && s.joins[j] == t.joins[j] && Fresh(s.joins[j]);
    }
  }

  /** What a step leaves of the record of a node with a success. */
  lemma RecordAfter(s: Cluster, a: Action, t: Cluster, j: JoinId)
    requires AllocatesAlone(s) && ResumersHold(s) && Next(s, a, t) && !a.Delete?
    requires j in t.joins && t.joins[j].Joined?
    ensures var n := t.joins[j].node.id;
            && j in s.joins && s.joins[j].node.id == n
            && (n in t.store ==>
                 (a.ResumeApply? && t.store[n].giver == a.id) || (n in s.store && t.store[n].giver == s.store[n].giver))
    ensures !s.joins[j].Joined? ==> a.id == j && (s.joins[j].Applied? || a.ResumeApply?)
  {
    hide LowestFree;
    if a.ResumeApplyFails? {
      assert ResumesHeld(s, a.id);
    }
  }

  lemma StillJoined(s: Cluster, a: Action, t: Cluster, j: JoinId)
    requires Next(s, a, t) && j in s.joins && s.joins[j].Joined?
    ensures j in t.joins && t.joins[j].Joined?
    ensures a.ResumeApply? ==> a.id in t.joins && t.joins[a.id].Joined?
  {
    hide LowestFree;
  }

  lemma StepSuccessGives(s: Cluster, a: Action, t: Cluster)
    requires AllocatesAlone(s) && AppliedIsRecorded(s) && SuccessGives(s) && ResumersHold(s)
    requires Next(s, a, t) && !a.Delete?
    ensures SuccessGives(t)
  {
    forall j | j in t.joins && t.joins[j].Joined? ensures GivenBySuccess(t, t.joins[j].node.id) {
      RecordAfter(s, a, t, j);
      GiverJoined(s, a, t, j);
    }
  }

  lemma GiverJoined(s: Cluster, a: Action, t: Cluster, j: JoinId)
    requires AppliedIsRecorded(s) && SuccessGives(s) && Next(s, a, t)
    requires j in t.joins && t.joins[j].Joined? && j in s.joins
    requires var n := t.joins[j].node.id;
             && s.joins[j].node.id == n
             && (n in t.store ==>
                  (a.ResumeApply? && t.store[n].giver == a.id) ||
                    (n in s.store && t.store[n].giver == s.store[n].giver))
    requires !s.joins[j].Joined? ==> a.id == j && (s.joins[j].Applied? || a.ResumeApply?)
    ensures GivenBySuccess(t, t.joins[j].node.id)
  {
    var n := t.joins[j].node.id;
    if n in t.store {
      if a.ResumeApply? {
        ResumeJoins(s, a, t);
      }
      if s.joins[j].Joined? && n in s.store {
        assert GivenBySuccess(s, n);
        StillJoined(s, a, t, s.store[n].giver);
      }
    }
  }

  lemma ResumeJoins(s: Cluster, a: Action, t: Cluster)
    requires Next(s, a, t) && a.ResumeApply?
    ensures a.id in t.joins && t.joins[a.id].Joined? && t.store[s.joins[a.id].node.id].giver == a.id
  {
  }

  lemma StepKeepsFirstJoins(s: Cluster, a: Action, t: Cluster)
    requires FirstJoins(s) && Next(s, a, t) && !a.Delete?
    requires a.Arrive? ==> Unheard(s, a.node.id) || Known(s, a.node.id)
    ensures FirstJoins(t) && CleanArrival(s, a) && !Disturbs(s, a)
  {
    StepAllocatesAlone(s, a, t);
    StepKeepsApplied(s, a, t);
    StepSuccessGives(s, a, t);
    ActsOnFresh(s, a, t);
    ClientsAreClean(s, a);
    hide Next, AllocatesAlone, AppliedIsRecorded, SuccessGives, ResumersHold, RecordsAgree, Disturbs;
    StepKeepsResumers(s, a, t);
    StepKeepsRecords(s, a, t);
  }

  lemma ActsOnFresh(s: Cluster, a: Action, t: Cluster)
    requires Next(s, a, t)
    ensures a.Apply? || a.ApplyFails? ==> a.id in s.joins && Fresh(s.joins[a.id])
  {
  }

  lemma {:induction false} KnownStays(states: seq<Cluster>, actions: seq<Action>, j: nat, i: nat, nodeId: NodeId)
    requires Execution(states, actions) && j <= i <= |actions| && Known(states[j], nodeId)
    requires forall k :: 0 <= k < |actions| ==> !actions[k].Delete?
    ensures Known(states[i], nodeId)
  {
    if j < i {
      KnownStays(states, actions, j, i - 1, nodeId);
      StepKeepsKnown(states[i - 1], actions[i - 1], states[i], nodeId);
    }
  }

  lemma StepKeepsKnown(s: Cluster, a: Action, t: Cluster, nodeId: NodeId)
    requires Next(s, a, t) && !a.Delete? && Known(s, nodeId)
    ensures Known(t, nodeId)
  {
    hide LowestFree;
    var j :| j in s.joins && s.joins[j].Joined? && s.joins[j].node.id == nodeId;
    assert t.joins[j] == s.joins[j];
  }

  lemma {:induction false} ClientsKeep(states: seq<Cluster>, actions: seq<Action>, k: nat)
    requires Execution(states, actions) && FromClients(states, actions) && k <= |actions|
    requires forall i :: 0 <= i < |actions| ==> !actions[i].Delete?
    ensures FirstJoins(states[k])
    ensures forall i :: 0 <= i < k ==> CleanArrival(states[i], actions[i]) && !Disturbs(states[i], actions[i])
  {
    hide Next, FirstJoins, CleanArrival, Disturbs, Known, Unheard;
    if k == 0 {
      InitFirstJoins(states[0]);
    } else {
      ClientsKeep(states, actions, k - 1);
      var a := actions[k - 1];
      assert Next(states[k - 1], a, states[k]) && ClientArrival(states, actions, k - 1);
      if a.Arrive? && !Unheard(states[k - 1], a.node.id) {
        var j :| 0 <= j <= k - 1 && Known(states[j], a.node.id);
        KnownStays(states, actions, j, k - 1, a.node.id);
      }
      StepKeepsFirstJoins(states[k - 1], a, states[k]);
    }
  }

  lemma InitFirstJoins(s: Cluster)
    requires Init(s)
    ensures FirstJoins(s)
  {
  }

  /** As long as no record is deleted, the program's own clients need no further discipline. */
  lemma ClientsAreSafe(states: seq<Cluster>, actions: seq<Action>, k: nat)
    requires Execution(states, actions) && FromClients(states, actions) && k <= |actions|
    requires forall i :: 0 <= i < |actions| ==> !actions[i].Delete?
    ensures JoinSafe(states[k])
  {
    hide Execution, CleanArrival, Disturbs, FromClients, JoinSafe, FirstJoins;
    ClientsKeep(states, actions, |actions|);
    JoinsAreSafe(states, actions, k);
  }

  // ---------- the discipline is needed ----------

  const FIRST := Some(Ip(0, 2))

  lemma FirstIsFree(s: Cluster)
    requires s.store == map[]
    ensures LowestFree(Used(Nodes(s)), true, FIRST)
  {
  }

  function Holder(n: Node, giver: JoinId): Record {
    Record(n.(ip := FIRST), giver)
  }

  function Second(n: Node): Node {
    n.(id := 2)
  }

  function OnlyFirst(n: Node, giver: JoinId): map<NodeId, Record> {
    map[1 := Holder(n, giver)]
  }

  function OnlySecond(n: Node): map<NodeId, Record> {
    map[2 := Holder(Second(n), 2)]
  }

  /** Node 1 is re-joining when its record is deleted; node 2 is given its address. */
  function DeletedState(n: Node, k: nat): Cluster {
    var resuming := map[0 := Joined(n, FIRST), 1 := Resuming(n, FIRST)];
    if k == 0 then Cluster(true, OnlyFirst(n, 0), map[0 := Joined(n, FIRST)])
    else if k == 1 then Cluster(true, OnlyFirst(n, 0), resuming)
    else if k == 2 then Cluster(true, map[], resuming)
    else if k == 3 then Cluster(true, map[], resuming[2 := Scanning(0, Second(n))])
    else if k == 4 then Cluster(true, map[], resuming[2 := Scanned(0, Second(n), FIRST)])
    else if k == 5 then Cluster(true, OnlySecond(n), resuming[2 := Applied(0, Second(n), FIRST)])
    else if k == 6 then Cluster(true, OnlySecond(n), resuming[2 := Joined(Second(n), FIRST)])
    else Cluster(true, OnlySecond(n)[1 := Holder(n, 1)], resuming[2 := Joined(Second(n), FIRST)][1 := Joined(n, FIRST)])
  }

  function DeletedAction(n: Node, k: nat): Action {
    if k == 0 then Arrive(1, n) else if k == 1 then Delete(1) else if k == 2 then Arrive(2, Second(n))
    else if k == 3 then Scan(2) else if k == 4 then Apply(2) else if k == 5 then Recheck(2) else ResumeApply(1)
  }

  lemma DeletedBegins(n: Node, k: nat)
    requires n.id == 1 && k < 3
    ensures Next(DeletedState(n, k), DeletedAction(n, k), DeletedState(n, k + 1))
  {
    var s, t := DeletedState(n, k), DeletedState(n, k + 1);
    assert k == 1 ==> t.store == s.store - {1};
  }

  lemma DeletedEnds(n: Node, k: nat)
    requires IsControl(n) && n.id == 1 && 3 <= k < 7
    ensures Next(DeletedState(n, k), DeletedAction(n, k), DeletedState(n, k + 1))
  {
    var s, t := DeletedState(n, k), DeletedState(n, k + 1);
    if k == 3 {
      assert t.joins == s.joins[2 := Scanned(0, Second(n), FIRST)];
      ScanFinds(s, 2, t);
    } else if k == 4 {
      assert t.store == s.store[2 := Holder(Second(n), 2)];
      assert t.joins == s.joins[2 := Applied(0, Second(n), FIRST)];
    } else if k == 5 {
      assert t.joins == s.joins[2 := Joined(Second(n), FIRST)];
    }
  }

  /** Node 1's record is deleted just after `Join` has seen it, so it is given an address afresh.
      Its apply reports an error but takes effect late, after node 2 was given the same address
      and found it free; node 1 joins again and resumes what was recorded. */
  function UnconfirmedState(n: Node, k: nat): Cluster {
    var before := map[0 := Joined(n, FIRST)];
    var waiting := before[1 := Scanned(0, n, FIRST)];
    var late := waiting[2 := Joined(Second(n), FIRST)][1 := Failed(n, ApplyFailed)];
    if k == 0 then Cluster(true, OnlyFirst(n, 0), before)
    else if k == 1 then Cluster(true, map[], before)
    else if k == 2 then Cluster(true, map[], before[1 := Scanning(0, n)])
    else if k == 3 then Cluster(true, map[], waiting)
    else if k == 4 then Cluster(true, map[], waiting[2 := Scanning(0, Second(n))])
    else if k == 5 then Cluster(true, map[], waiting[2 := Scanned(0, Second(n), FIRST)])
    else if k == 6 then Cluster(true, OnlySecond(n), waiting[2 := Applied(0, Second(n), FIRST)])
    else if k == 7 then Cluster(true, OnlySecond(n), waiting[2 := Joined(Second(n), FIRST)])
    else if k == 8 then Cluster(true, OnlySecond(n)[1 := Holder(n, 1)], late)
    else if k == 9 then Cluster(true, OnlySecond(n)[1 := Holder(n, 1)], late[3 := Resuming(n, FIRST)])
    else
      Cluster(true, OnlySecond(n)[1 := Holder(n, 1)][1 := Holder(n, 3)],
              late[3 := Resuming(n, FIRST)][3 := Joined(n, FIRST)])
  }

  function UnconfirmedAction(n: Node, k: nat): Action {
    if k == 0 then Delete(1)
    else if k == 1 then Arrive(1, n)
    else if k == 2 then Scan(1)
    else if k == 3 then Arrive(2, Second(n))
    else if k == 4 then Scan(2)
    else if k == 5 then Apply(2)
    else if k == 6 then Recheck(2)
    else if k == 7 then ApplyFails(1, true)
    else if k == 8 then Arrive(3, n)
    else ResumeApply(3)
  }

  lemma UnconfirmedBegins(n: Node, k: nat)
    requires IsControl(n) && n.id == 1 && k < 6
    ensures Next(UnconfirmedState(n, k), UnconfirmedAction(n, k), UnconfirmedState(n, k + 1))
  {
    var s, t := UnconfirmedState(n, k), UnconfirmedState(n, k + 1);
    if k == 0 {
      assert t.store == s.store - {1};
    } else if k == 2 {
      assert t.joins == s.joins[1 := Scanned(0, n, FIRST)];
      ScanFinds(s, 1, t);
    } else if k == 4 {
      assert t.joins == s.joins[2 := Scanned(0, Second(n), FIRST)];
      ScanFinds(s, 2, t);
    } else if k == 5 {
      assert t.store == s.store[2 := Holder(Second(n), 2)];
      assert t.joins == s.joins[2 := Applied(0, Second(n), FIRST)];
    }
  }

  lemma UnconfirmedEnds(n: Node, k: nat)
    requires IsControl(n) && n.id == 1 && 6 <= k < 10
    ensures Next(UnconfirmedState(n, k), UnconfirmedAction(n, k), UnconfirmedState(n, k + 1))
  {
    var s, t := UnconfirmedState(n, k), UnconfirmedState(n, k + 1);
    assert k == 6 ==> t.joins == s.joins[2 := Joined(Second(n), FIRST)];
  }

  lemma ScanFinds(s: Cluster, id: JoinId, t: Cluster)
    requires s.meshEnabled && s.store == map[] && id in s.joins && s.joins[id].Scanning? && IsControl(s.joins[id].node)
    requires t == Enter(s, id, Scanned(s.joins[id].attempt, s.joins[id].node, FIRST))
    ensures Next(s, Scan(id), t)
  {
    FirstIsFree(s);
  }

  /** A record deleted under a node that is re-joining: its address is given away, and the
      resumed join records it again without looking. */
  lemma DeleteUnderResumeBreaksSafety(n: Node)
    returns (states: seq<Cluster>, actions: seq<Action>)
    requires IsControl(n) && n.id == 1
    ensures Execution(states, actions) && !JoinSafe(states[|actions|])
    ensures FromClients(states, actions)
    ensures forall i :: 0 <= i < |actions| ==> CleanArrival(states[i], actions[i])
  {
    states := seq(8, k requires 0 <= k < 8 => DeletedState(n, k));
    actions := seq(7, k requires 0 <= k < 7 => DeletedAction(n, k));
    forall k | 0 <= k < 7 ensures Next(states[k], actions[k], states[k + 1]) {
      hide Next, DeletedState, DeletedAction;
      if k < 3 { DeletedBegins(n, k); } else { DeletedEnds(n, k); }
    }
    hide Next;
    assert Holds(states[7], 1, FIRST.value) && Holds(states[7], 2, FIRST.value);
    assert 0 in states[0].joins && states[0].joins[0] == Joined(n, FIRST);
    assert Known(states[0], 1);
  }

  /** A record that no successful join gave, though the node has succeeded before: the node joins
      again after an error, and resumes an address that was found free by another. */
  lemma UnconfirmedRejoinBreaksSafety(n: Node) returns (states: seq<Cluster>, actions: seq<Action>)
    requires IsControl(n) && n.id == 1
    ensures Execution(states, actions) && !JoinSafe(states[|actions|])
    ensures FromClients(states, actions)
    ensures forall i :: 0 <= i < |actions| ==> !Disturbs(states[i], actions[i])
  {
    states := seq(11, k requires 0 <= k < 11 => UnconfirmedState(n, k));
    actions := seq(10, k requires 0 <= k < 10 => UnconfirmedAction(n, k));
    forall k | 0 <= k < 10 ensures Next(states[k], actions[k], states[k + 1]) {
      hide Next, UnconfirmedState, UnconfirmedAction;
      if k < 6 { UnconfirmedBegins(n, k); } else { UnconfirmedEnds(n, k); }
    }
    hide Next;
    assert Holds(states[10], 1, FIRST.value) && Holds(states[10], 2, FIRST.value);
    assert 0 in states[0].joins && states[0].joins[0] == Joined(n, FIRST);
    assert Known(states[0], 1);
  }

  /** A join nobody interferes with succeeds at its first attempt unless the range is full. */
  lemma LoneJoin(s: Cluster, id: JoinId, node: Node, s1: Cluster, s2: Cluster, s3: Cluster, s4: Cluster)
    requires RecordsAgree(s) && node.id !in s.store
    requires Next(s, Arrive(id, node), s1)
    requires Next(s1, Scan(id), s2)
    requires s2.joins[id].Scanned? ==> Next(s2, Apply(id), s3) && Next(s3, Recheck(id), s4)
    ensures s2.joins[id].Scanned? || s2.joins[id] == Failed(node, NoFreeAddress)
    ensures s2.joins[id].Failed? <==> s.meshEnabled && LowestFree(Used(Nodes(s)), IsControl(node), None)
    ensures s2.joins[id].Scanned? ==>
              s4.joins[id] == Joined(node, s2.joins[id].ip) && (s.meshEnabled <==> s2.joins[id].ip.Some?)
  {
    if s.meshEnabled {
      var ip :| LowestFree(Used(Nodes(s1)), IsControl(node), ip) &&
        s2 == Enter(s1, id, if ip.Some? then Scanned(0, node, ip) else Failed(node, NoFreeAddress));
      if LowestFree(Used(Nodes(s)), IsControl(node), None) {
        LowestFreeUnique(Used(Nodes(s)), IsControl(node), ip, None);
      }
      forall j | j in s.store && ip.Some? ensures s.store[j].node.ip != ip {
        assert s.store[j] in s.store.Values && s.store[j].node in Nodes(s);
      }
    }
  }
}
