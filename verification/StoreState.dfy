/** The replicated state store as a value: collections, secondary indexes, bounded rings and
    the idempotency window, and every mutation of them. */
module StoreState {
  import opened Sequences

  const EVENT_RING_CAP := 10_000
  const AUDIT_RING_CAP := 50_000
  const APPLIED_RING_CAP := 8_192

  type Id = string

  datatype InstanceState =
    | StatePending | StatePulling | StateStarting | StateRunning | StateHealthy | StateUnhealthy
    | StateStopping | StateStopped | StateFailed

  /** A reported status; `ports` are the host ports it reports as bound. */
  datatype Observed = Observed(state: InstanceState, containerId: string, message: string, ports: map<string, nat>)

  datatype Assignment = Assignment(id: Id, nodeId: Id, config: string, observed: Observed, ports: map<string, nat>)
  datatype User = User(id: Id, email: string, name: string)
  datatype Token = Token(id: Id, hash: string, userId: Id)
  datatype Domain = Domain(id: Id, hostname: string, pathPrefix: string)
  datatype Project = Project(id: Id, name: string)
  datatype Member = Member(projectId: Id, userId: Id, role: string)
  datatype EnvVar = EnvVar(envId: Id, key: string, value: string)
  datatype Kv = Kv(key: string, value: string, version: nat, expiresAt: int) // unix ms, 0 = none
  datatype Event = Event(id: Id, projectId: Id, ms: int)

  datatype Accounts = Accounts(
    users: map<Id, User>,
    usersByEmail: map<string, Id>,
    tokens: map<Id, Token>,
    tokensByHash: map<string, Id>)

  datatype Projects = Projects(
    projects: map<Id, Project>,
    members: map<Id, map<Id, Member>>,
    envVars: map<Id, map<string, EnvVar>>)

  datatype Placement = Placement(
    assignments: map<Id, Assignment>,
    byNode: map<Id, set<Id>>)

  datatype Domains = Domains(
    domains: map<Id, Domain>,
    byHostname: map<string, set<Id>>)

  datatype Rings = Rings(
    events: seq<Event>,
    audit: seq<Event>,
    applied: seq<string>,
    appliedSet: set<string>)

  /** The fields of the store, grouped by the mutations that touch them. */
  datatype State = State(
    accounts: Accounts,
    projects: Projects,
    placement: Placement,
    domains: Domains,
    kv: map<string, Kv>,
    rings: Rings)

  const EMPTY := State(
    Accounts(map[], map[], map[], map[]), Projects(map[], map[], map[]), Placement(map[], map[]),
    Domains(map[], map[]), map[], Rings([], [], [], {}))

  // ---------- helpers ----------

  function SetAt<K, V>(m: map<K, set<V>>, k: K): set<V> {
    if k in m then m[k] else {}
  }

  function MapAt<K, L, V>(m: map<K, map<L, V>>, k: K): map<L, V> {
    if k in m then m[k] else map[]
  }

  // ---------- mutations ----------

  function PutUser(s: Accounts, u: User): Accounts {
    var byEmail := if u.id in s.users then s.usersByEmail - {s.users[u.id].email} else s.usersByEmail;
    s.(users := s.users[u.id := u], usersByEmail := byEmail[u.email := u.id])
  }

  function DeleteUser(s: Accounts, id: Id): Accounts {
    if id !in s.users then s else
    s.(users := s.users - {id}, usersByEmail := s.usersByEmail - {s.users[id].email})
  }

  function PutToken(s: Accounts, t: Token): Accounts {
    var byHash := if t.id in s.tokens then s.tokensByHash - {s.tokens[t.id].hash} else s.tokensByHash;
    s.(tokens := s.tokens[t.id := t], tokensByHash := byHash[t.hash := t.id])
  }

  function DeleteToken(s: Accounts, id: Id): Accounts {
    if id !in s.tokens then s else
    s.(tokens := s.tokens - {id}, tokensByHash := s.tokensByHash - {s.tokens[id].hash})
  }

  function PutProject(s: Projects, p: Project): Projects {
    s.(projects := s.projects[p.id := p])
  }

  function DeleteProject(s: Projects, id: Id): Projects {
    if id !in s.projects then s else s.(projects := s.projects - {id}, members := s.members - {id})
  }

  function PutMember(s: Projects, m: Member): Projects {
    s.(members := s.members[m.projectId := MapAt(s.members, m.projectId)[m.userId := m]])
  }

  function DeleteMember(s: Projects, projectId: Id, userId: Id): Projects {
    if projectId !in s.members then s else
    s.(members := s.members[projectId := s.members[projectId] - {userId}])
  }

  /** Sets come before unsets, as in the source's two loops. */
  function SetEnvVars(s: Projects, envId: Id, sets: map<string, string>, unsets: set<string>): Projects {
    var added := map k | k in sets :: EnvVar(envId, k, sets[k]);
    s.(envVars := s.envVars[envId := (MapAt(s.envVars, envId) + added) - unsets])
  }

  function PutAssignment(s: Placement, a: Assignment): Placement {
    var byNode :=
      if a.id in s.assignments && s.assignments[a.id].nodeId != a.nodeId && s.assignments[a.id].nodeId in s.byNode then
        var from := s.assignments[a.id].nodeId;
        s.byNode[from := s.byNode[from] - {a.id}]
      else s.byNode;
    Placement(s.assignments[a.id := a], byNode[a.nodeId := SetAt(byNode, a.nodeId) + {a.id}])
  }

  function PutAssignments(s: Placement, list: seq<Assignment>): Placement {
    if list == [] then s else PutAssignment(PutAssignments(s, list[..|list| - 1]), list[|list| - 1])
  }

  function DeleteAssignment(s: Placement, id: Id): Placement {
    if id !in s.assignments then s else
      var from := s.assignments[id].nodeId;
      Placement(s.assignments - {id}, if from in s.byNode then s.byNode[from := s.byNode[from] - {id}] else s.byNode)
  }

  function DeleteAssignments(s: Placement, ids: seq<Id>): Placement {
    if ids == [] then s else DeleteAssignment(DeleteAssignments(s, ids[..|ids| - 1]), ids[|ids| - 1])
  }

  /** One status report applied to its assignment: a RUNNING report does not hide the finer
      HEALTHY or UNHEALTHY, and reported ports replace the assignment's unless there are none. */
  function Observe(a: Assignment, o: Observed): Assignment {
    var keep := o.state == StateRunning && (a.observed.state == StateHealthy || a.observed.state == StateUnhealthy);
    a.(observed := if keep then o.(state := a.observed.state) else o,
       ports := if o.ports != map[] then o.ports else a.ports)
  }

  /** Reports for unknown assignments, or from a node that does not hold them, are skipped. */
  predicate Accepts(s: Placement, nodeId: Id, id: Id) {
    id in s.assignments && s.assignments[id].nodeId == nodeId
  }

  function SetObserved(s: Placement, nodeId: Id, batch: map<Id, Observed>): Placement {
    s.(assignments := map id | id in s.assignments ::
         if id in batch && Accepts(s, nodeId, id) then Observe(s.assignments[id], batch[id]) else s.assignments[id])
  }

  function Unindexed(index: map<string, set<Id>>, host: string, id: Id): map<string, set<Id>> {
    if host !in index then index
    else if index[host] - {id} == {} then index - {host}
    else index[host := index[host] - {id}]
  }

  function Indexed(index: map<string, set<Id>>, host: string, id: Id): map<string, set<Id>> {
    index[host := SetAt(index, host) + {id}]
  }

  function PutDomain(s: Domains, d: Domain): Domains {
    var index := if d.id in s.domains then Unindexed(s.byHostname, s.domains[d.id].hostname, s.domains[d.id].id)
                 else s.byHostname;
    Domains(s.domains[d.id := d], Indexed(index, d.hostname, d.id))
  }

  function DeleteDomain(s: Domains, id: Id): Domains {
    if id !in s.domains then s else
    Domains(s.domains - {id}, Unindexed(s.byHostname, s.domains[id].hostname, s.domains[id].id))
  }

  function KvVersion(kv: map<string, Kv>, key: string): nat {
    if key in kv then kv[key].version else 0
  }

  /** -1 is unconditional, 0 requires absence, more requires that version. */
  predicate KvConflict(kv: map<string, Kv>, key: string, expected: int) {
    expected >= 0 && expected != KvVersion(kv, key)
  }

  function PutKv(kv: map<string, Kv>, key: string, value: string, expected: int, expiresAt: int): map<string, Kv> {
    if KvConflict(kv, key, expected) then kv else kv[key := Kv(key, value, KvVersion(kv, key) + 1, expiresAt)]
  }

  /** Deleting an absent key succeeds whatever version is expected. */
  function DeleteKv(kv: map<string, Kv>, key: string, expected: int): map<string, Kv> {
    if key !in kv || KvConflict(kv, key, expected) then kv else kv - {key}
  }

  function AppendEvents(s: Rings, es: seq<Event>): Rings {
    s.(events := Last(EVENT_RING_CAP, s.events + es))
  }

  function AppendAudit(s: Rings, es: seq<Event>): Rings {
    s.(audit := Last(AUDIT_RING_CAP, s.audit + es))
  }

  function MarkApplied(s: Rings, request: string): Rings {
    if request in s.appliedSet then s else
      var all := s.applied + [request];
      var kept := Last(APPLIED_RING_CAP, all);
      s.(applied := kept, appliedSet := s.appliedSet + {request} - Elements(all[..|all| - |kept|]))
  }

  // ---------- snapshots ----------

  datatype Snapshot = Snapshot(
    users: seq<User>,
    projects: seq<Project>,
    members: seq<Member>,
    envVars: seq<EnvVar>,
    assignments: seq<Assignment>,
    tokens: seq<Token>,
    domains: seq<Domain>,
    kv: seq<Kv>,
    events: seq<Event>,
    audit: seq<Event>,
    applied: seq<string>)

  /** Refilling a map, an index to ids, an index to sets of ids, and a nested map. */
  function Refill<K, V>(items: seq<V>, key: V -> K): map<K, V> {
    if items == [] then map[] else
      var x := items[|items| - 1];
      Refill(items[..|items| - 1], key)[key(x) := x]
  }

  function RefillIndex<K, V>(items: seq<V>, key: V -> K, id: V -> Id): map<K, Id> {
    if items == [] then map[] else
      var x := items[|items| - 1];
      RefillIndex(items[..|items| - 1], key, id)[key(x) := id(x)]
  }

  function RefillGroups<K, V>(items: seq<V>, key: V -> K, id: V -> Id): map<K, set<Id>> {
    if items == [] then map[] else
      var x, groups := items[|items| - 1], RefillGroups(items[..|items| - 1], key, id);
      groups[key(x) := SetAt(groups, key(x)) + {id(x)}]
  }

  function RefillNested<K, L, V>(items: seq<V>, outer: V -> K, inner: V -> L): map<K, map<L, V>> {
    if items == [] then map[] else
      var x, nested := items[|items| - 1], RefillNested(items[..|items| - 1], outer, inner);
      nested[outer(x) := MapAt(nested, outer(x))[inner(x) := x]]
  }

  function UserId(u: User): Id { u.id }
  function UserEmail(u: User): string { u.email }
  function ProjectId(p: Project): Id { p.id }
  function MemberProject(m: Member): Id { m.projectId }
  function MemberUser(m: Member): Id { m.userId }
  function EnvVarEnv(e: EnvVar): Id { e.envId }
  function EnvVarKey(e: EnvVar): string { e.key }
  function AssignmentId(a: Assignment): Id { a.id }
  function AssignmentNode(a: Assignment): Id { a.nodeId }
  function TokenId(t: Token): Id { t.id }
  function TokenHash(t: Token): string { t.hash }
  function DomainId(d: Domain): Id { d.id }
  function DomainHost(d: Domain): string { d.hostname }
  function KvKey(e: Kv): string { e.key }

  function Restored(snap: Snapshot): State {
    State(
      Accounts(
        Refill(snap.users, UserId), RefillIndex(snap.users, UserEmail, UserId),
        Refill(snap.tokens, TokenId), RefillIndex(snap.tokens, TokenHash, TokenId)),
      Projects(
        Refill(snap.projects, ProjectId),
        RefillNested(snap.members, MemberProject, MemberUser),
        RefillNested(snap.envVars, EnvVarEnv, EnvVarKey)),
      Placement(Refill(snap.assignments, AssignmentId), RefillGroups(snap.assignments, AssignmentNode, AssignmentId)),
      Domains(Refill(snap.domains, DomainId), RefillGroups(snap.domains, DomainHost, DomainId)),
      Refill(snap.kv, KvKey),
      Rings(snap.events, snap.audit, snap.applied, Elements(snap.applied)))
  }

  /** `items` lists the values of `m`, each once, in any order. */
  ghost predicate Enumerates<K, V>(items: seq<V>, m: map<K, V>, key: V -> K) {
    && (forall x :: x in items ==> key(x) in m && m[key(x)] == x)
    && (forall k :: k in m ==> m[k] in items && key(m[k]) == k)
    && (forall i, j :: 0 <= i < j < |items| ==> key(items[i]) != key(items[j]))
  }

  ghost predicate EnumeratesNested<K, L, V>(items: seq<V>, m: map<K, map<L, V>>, outer: V -> K, inner: V -> L) {
    && (forall x :: x in items ==> outer(x) in m && inner(x) in m[outer(x)] && m[outer(x)][inner(x)] == x)
    && (forall k, l :: k in m && l in m[k] ==> m[k][l] in items && outer(m[k][l]) == k && inner(m[k][l]) == l)
    && (forall i, j :: 0 <= i < j < |items| ==>
         outer(items[i]) != outer(items[j]) || inner(items[i]) != inner(items[j]))
  }

  /** What `SnapshotProto` may produce: maps are enumerated in an arbitrary order. */
  ghost predicate Describes(snap: Snapshot, s: State) {
    && Enumerates(snap.users, s.accounts.users, UserId)
    && Enumerates(snap.tokens, s.accounts.tokens, TokenId)
    && Enumerates(snap.projects, s.projects.projects, ProjectId)
    && EnumeratesNested(snap.members, s.projects.members, MemberProject, MemberUser)
    && EnumeratesNested(snap.envVars, s.projects.envVars, EnvVarEnv, EnvVarKey)
    && Enumerates(snap.assignments, s.placement.assignments, AssignmentId)
    && Enumerates(snap.domains, s.domains.domains, DomainId)
    && Enumerates(snap.kv, s.kv, KvKey)
    && snap.events == s.rings.events && snap.audit == s.rings.audit && snap.applied == s.rings.applied
  }

  // ---------- invariants ----------

  /** Objects are stored under their own keys. */
  ghost predicate Keyed<V>(m: map<string, V>, key: V -> string) {
    forall k :: k in m ==> key(m[k]) == k
  }

  ghost predicate KeyedNested<V>(m: map<string, map<string, V>>, outer: V -> string, inner: V -> string) {
    forall k, l :: k in m && l in m[k] ==> outer(m[k][l]) == k && inner(m[k][l]) == l
  }

  /** `groups` holds, for every field value, exactly the ids of the objects that have it. */
  ghost predicate GroupsAgree<V>(objects: map<Id, V>, groups: map<string, set<Id>>, field: V -> string) {
    forall f, id :: id in SetAt(groups, f) <==> id in objects && field(objects[id]) == f
  }

  /** `index` finds exactly the object that has the field value. */
  ghost predicate IndexAgrees<V>(objects: map<Id, V>, index: map<string, Id>, field: V -> string) {
    forall f, id :: Finds(index, f, id) <==> id in objects && field(objects[id]) == f
  }

  predicate Finds(index: map<string, Id>, f: string, id: Id) {
    f in index && index[f] == id
  }

  /** An index entry leads to an object that has the field value, whatever was put. */
  ghost predicate IndexSound<V>(objects: map<Id, V>, index: map<string, Id>, field: V -> string) {
    forall f :: f in index ==> index[f] in objects && field(objects[index[f]]) == f
  }

  ghost predicate AccountsInv(s: Accounts) {
    && Keyed(s.users, UserId) && Keyed(s.tokens, TokenId)
    && IndexSound(s.users, s.usersByEmail, UserEmail) && IndexSound(s.tokens, s.tokensByHash, TokenHash)
  }

  /** No two users share an e-mail, no two tokens a hash, and the indexes find them. */
  ghost predicate AccountsAgree(s: Accounts) {
    IndexAgrees(s.users, s.usersByEmail, UserEmail) && IndexAgrees(s.tokens, s.tokensByHash, TokenHash)
  }

  ghost predicate ProjectsInv(s: Projects) {
    && Keyed(s.projects, ProjectId)
    && KeyedNested(s.members, MemberProject, MemberUser)
    && KeyedNested(s.envVars, EnvVarEnv, EnvVarKey)
  }

  ghost predicate PlacementInv(s: Placement) {
    Keyed(s.assignments, AssignmentId) && GroupsAgree(s.assignments, s.byNode, AssignmentNode)
  }

  ghost predicate NoEmptyGroup(groups: map<string, set<Id>>) {
    forall h :: h in groups ==> groups[h] != {}
  }

  ghost predicate DomainsInv(s: Domains) {
    Keyed(s.domains, DomainId) && GroupsAgree(s.domains, s.byHostname, DomainHost) && NoEmptyGroup(s.byHostname)
  }

  ghost predicate RingsInv(s: Rings) {
    && |s.events| <= EVENT_RING_CAP && |s.audit| <= AUDIT_RING_CAP && |s.applied| <= APPLIED_RING_CAP
    && s.appliedSet == Elements(s.applied) && Distinct(s.applied)
  }

  /** Versions of stored keys count from 1; 0 stands for an absent key. */
  ghost predicate Counted(kv: map<string, Kv>) {
    forall k :: k in kv ==> kv[k].version >= 1
  }

  /** Holds whatever the commands are. */
  ghost predicate Inv(s: State) {
    && AccountsInv(s.accounts) && ProjectsInv(s.projects) && PlacementInv(s.placement) && DomainsInv(s.domains)
    && Keyed(s.kv, KvKey) && Counted(s.kv) && RingsInv(s.rings)
  }

  /** Holds as long as no put takes over another user's e-mail or another token's hash. */
  ghost predicate Valid(s: State) {
    Inv(s) && AccountsAgree(s.accounts)
  }
}
