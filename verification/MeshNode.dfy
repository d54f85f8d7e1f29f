/** Cluster nodes as the mesh sees them. */
module MeshNode {
  import opened Options

  /** Node ids are compared only for equality and order, so naturals stand for them. */
  type NodeId = nat

  /** The address 10.90.b.c; only the two free octets are kept. */
  datatype Ip = Ip(b: nat, c: nat)

  /** `netip.Addr.Compare(x, y) < 0`. */
  predicate Lower(x: Ip, y: Ip) {
    x.b < y.b || (x.b == y.b && x.c < y.c)
  }

  datatype Role = Worker | Control

  datatype NodeStatus = Unspecified | Alive | Suspect | Down | Draining | Drained

  datatype Node = Node(
    id: NodeId,
    roles: seq<Role>,
    key: string,          // WireGuard public key, "" until known
    ip: Option<Ip>,       // mesh address
    endpoints: seq<string>,
    meshsock: bool,       // carries the label zattera.dev/meshsock=true
    status: NodeStatus)

  predicate HasControlRole(roles: seq<Role>) {
    Control in roles
  }

  predicate IsControl(n: Node) {
    HasControlRole(n.roles)
  }

  /** The node has a WireGuard key and a mesh address. */
  predicate MeshReady(n: Node) {
    n.key != "" && n.ip.Some?
  }

  /** What `ListNodes` returns: one record per id. */
  ghost predicate DistinctIds(nodes: seq<Node>) {
    forall i, j :: 0 <= i < j < |nodes| ==> nodes[i].id != nodes[j].id
  }
}
