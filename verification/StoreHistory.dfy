/** What the store holds after any run of commands, told from the commands alone: under each id
    what was written last, reports only from the node an assignment is on, and compare-and-set by
    versions that count the writes. */
module StoreHistory {
  import opened Options
  import opened WatchHub
  import opened StoreState
  import opened StoreRuns
  import opened StorePublish

  function At<K, V>(m: map<K, V>, k: K): Option<V> {
    if k in m then Some(m[k]) else None
  }

  /** The last of a list that has the key. */
  function LastWith<K(==), V>(list: seq<V>, key: V -> K, k: K): Option<V> {
    if list == [] then None
    else if key(list[|list| - 1]) == k then Some(list[|list| - 1])
    else LastWith(list[..|list| - 1], key, k)
  }

  lemma {:induction false} RefillAt<K, V>(list: seq<V>, key: V -> K, k: K)
    ensures At(Refill(list, key), k) == LastWith(list, key, k)
  {
    if list != [] {
      RefillAt(list[..|list| - 1], key, k);
    }
  }

  // ---------- one object under each id ----------

  /** The user a run leaves under an id: the one put last, unless it was deleted since. */
  function UserNow(cs: seq<Command>, id: Id): Option<User> {
    if cs == [] then None else
      var before := UserNow(cs[..|cs| - 1], id);
      match cs[|cs| - 1]
      case DoPutUser(u) => if u.id == id then Some(u) else before
      case DoDeleteUser(gone) => if gone == id then None else before
      case DoRestore(snap) => LastWith(snap.users, (u: User) => u.id, id)
      case _ => before
  }

  function TokenNow(cs: seq<Command>, id: Id): Option<Token> {
    if cs == [] then None else
      var before := TokenNow(cs[..|cs| - 1], id);
      match cs[|cs| - 1]
      case DoPutToken(t) => if t.id == id then Some(t) else before
      case DoDeleteToken(gone) => if gone == id then None else before
      case DoRestore(snap) => LastWith(snap.tokens, (t: Token) => t.id, id)
      case _ => before
  }

  function ProjectNow(cs: seq<Command>, id: Id): Option<Project> {
    if cs == [] then None else
      var before := ProjectNow(cs[..|cs| - 1], id);
      match cs[|cs| - 1]
      case DoPutProject(p) => if p.id == id then Some(p) else before
      case DoDeleteProject(gone) => if gone == id then None else before
      case DoRestore(snap) => LastWith(snap.projects, (p: Project) => p.id, id)
      case _ => before
  }

  function DomainNow(cs: seq<Command>, id: Id): Option<Domain> {
    if cs == [] then None else
      var before := DomainNow(cs[..|cs| - 1], id);
      match cs[|cs| - 1]
      case DoPutDomain(d) => if d.id == id then Some(d) else before
      case DoDeleteDomain(gone) => if gone == id then None else before
      case DoRestore(snap) => LastWith(snap.domains, (d: Domain) => d.id, id)
      case _ => before
  }

  /** A member goes with its membership or with the project. */
  function MemberNow(cs: seq<Command>, project: Id, user: Id): Option<Member> {
    if cs == [] then None else
      var front := cs[..|cs| - 1];
      var before := MemberNow(front, project, user);
      match cs[|cs| - 1]
      case DoPutMember(m) => if m.projectId == project && m.userId == user then Some(m) else before
      case DoDeleteMember(p, u) => if p == project && u == user then None else before
      case DoDeleteProject(gone) => if gone == project && ProjectNow(front, project).Some? then None else before
      case DoRestore(snap) => LastWith(snap.members, (m: Member) => (m.projectId, m.userId), (project, user))
      case _ => before
  }

  /** A variable that is both set and unset by one command is unset. */
  function EnvVarNow(cs: seq<Command>, env: Id, key: string): Option<EnvVar> {
    if cs == [] then None else
      var before := EnvVarNow(cs[..|cs| - 1], env, key);
      match cs[|cs| - 1]
      case DoSetEnvVars(e, sets, unsets) =>
        if e != env then before
        else if key in unsets then None
        else if key in sets then Some(EnvVar(env, key, sets[key]))
        else before
      case DoRestore(snap) => LastWith(snap.envVars, (v: EnvVar) => (v.envId, v.key), (env, key))
      case _ => before
  }

  lemma UserStep(s: State, c: Command, id: Id)
    ensures At(Do(s, c).accounts.users, id) ==
              match c
              case DoPutUser(u) => if u.id == id then Some(u) else At(s.accounts.users, id)
              case DoDeleteUser(gone) => if gone == id then None else At(s.accounts.users, id)
              case DoRestore(snap) => LastWith(snap.users, (u: User) => u.id, id)
              case _ => At(s.accounts.users, id)
  {
    if c.DoRestore? {
      RefillAt(c.snap.users, UserId, id);
      SameKeys(c.snap.users, UserId, (u: User) => u.id, id);
    }
  }

  lemma {:induction false} SameKeys<K, V>(list: seq<V>, key: V -> K, key': V -> K, k: K)
    requires forall x :: x in list ==> key(x) == key'(x)
    ensures LastWith(list, key, k) == LastWith(list, key', k)
  {
    if list != [] {
      assert list[|list| - 1] in list;
      SameKeys(list[..|list| - 1], key, key', k);
    }
  }

  lemma TokenStep(s: State, c: Command, id: Id)
    ensures At(Do(s, c).accounts.tokens, id) ==
              match c
              case DoPutToken(t) => if t.id == id then Some(t) else At(s.accounts.tokens, id)
              case DoDeleteToken(gone) => if gone == id then None else At(s.accounts.tokens, id)
              case DoRestore(snap) => LastWith(snap.tokens, (t: Token) => t.id, id)
              case _ => At(s.accounts.tokens, id)
  {
    if c.DoRestore? {
      RefillAt(c.snap.tokens, TokenId, id);
      SameKeys(c.snap.tokens, TokenId, (t: Token) => t.id, id);
    }
  }

  lemma ProjectStep(s: State, c: Command, id: Id)
    ensures At(Do(s, c).projects.projects, id) ==
              match c
              case DoPutProject(p) => if p.id == id then Some(p) else At(s.projects.projects, id)
              case DoDeleteProject(gone) => if gone == id then None else At(s.projects.projects, id)
              case DoRestore(snap) => LastWith(snap.projects, (p: Project) => p.id, id)
              case _ => At(s.projects.projects, id)
  {
    if c.DoRestore? {
      RefillAt(c.snap.projects, ProjectId, id);
      SameKeys(c.snap.projects, ProjectId, (p: Project) => p.id, id);
    }
  }

  lemma DomainStep(s: State, c: Command, id: Id)
    ensures At(Do(s, c).domains.domains, id) ==
              match c
              case DoPutDomain(d) => if d.id == id then Some(d) else At(s.domains.domains, id)
              case DoDeleteDomain(gone) => if gone == id then None else At(s.domains.domains, id)
              case DoRestore(snap) => LastWith(snap.domains, (d: Domain) => d.id, id)
              case _ => At(s.domains.domains, id)
  {
    if c.DoRestore? {
      RefillAt(c.snap.domains, DomainId, id);
      SameKeys(c.snap.domains, DomainId, (d: Domain) => d.id, id);
    }
  }

  lemma {:induction false} RefillNestedAt<K, L, V>(list: seq<V>, outer: V -> K, inner: V -> L, key: V -> (K, L),
        k: K, l: L)
    requires forall x :: x in list ==> key(x) == (outer(x), inner(x))
    ensures At(MapAt(RefillNested(list, outer, inner), k), l) == LastWith(list, key, (k, l))
  {
    if list != [] {
      assert list[|list| - 1] in list;
      RefillNestedAt(list[..|list| - 1], outer, inner, key, k, l);
    }
  }

  lemma MemberStep(s: State, c: Command, project: Id, user: Id)
    ensures var before := At(MapAt(s.projects.members, project), user);
            At(MapAt(Do(s, c).projects.members, project), user) ==
              match c
              case DoPutMember(m) => if m.projectId == project && m.userId == user then Some(m) else before
              case DoDeleteMember(p, u) => if p == project && u == user then None else before
              case DoDeleteProject(gone) => if gone == project && project in s.projects.projects then None else before
              case DoRestore(snap) => LastWith(snap.members, (m: Member) => (m.projectId, m.userId), (project, user))
              case _ => before
  {
    if c.DoRestore? {
      RefillNestedAt(c.snap.members, MemberProject, MemberUser, (m: Member) => (m.projectId, m.userId), project, user);
    }
  }

  lemma EnvVarStep(s: State, c: Command, env: Id, key: string)
    ensures var before := At(MapAt(s.projects.envVars, env), key);
            At(MapAt(Do(s, c).projects.envVars, env), key) ==
              match c
              case DoSetEnvVars(e, sets, unsets) =>
                if e != env then before
                else if key in unsets then None
                else if key in sets then Some(EnvVar(env, key, sets[key]))
                else before
              case DoRestore(snap) => LastWith(snap.envVars, (v: EnvVar) => (v.envId, v.key), (env, key))
              case _ => before
  {
    if c.DoRestore? {
      RefillNestedAt(c.snap.envVars, EnvVarEnv, EnvVarKey, (v: EnvVar) => (v.envId, v.key), env, key);
    }
  }

  /** After any run the store holds under each id exactly what was written last. */
  lemma {:induction false} HoldsLastWritten(cs: seq<Command>)
    ensures forall id :: At(Run(cs).accounts.users, id) == UserNow(cs, id)
    ensures forall id :: At(Run(cs).accounts.tokens, id) == TokenNow(cs, id)
    ensures forall id :: At(Run(cs).projects.projects, id) == ProjectNow(cs, id)
    ensures forall id :: At(Run(cs).domains.domains, id) == DomainNow(cs, id)
    ensures forall p, u :: At(MapAt(Run(cs).projects.members, p), u) == MemberNow(cs, p, u)
    ensures forall e, k :: At(MapAt(Run(cs).projects.envVars, e), k) == EnvVarNow(cs, e, k)
  {
    if cs != [] {
      var front, c := cs[..|cs| - 1], cs[|cs| - 1];
      var s := Run(front);
      HoldsLastWritten(front);
      hide Do, At, MapAt;
      forall id ensures At(Run(cs).accounts.users, id) == UserNow(cs, id) { UserStep(s, c, id); }
      forall id ensures At(Run(cs).accounts.tokens, id) == TokenNow(cs, id) { TokenStep(s, c, id); }
      forall id ensures At(Run(cs).projects.projects, id) == ProjectNow(cs, id) { ProjectStep(s, c, id); }
      forall id ensures At(Run(cs).domains.domains, id) == DomainNow(cs, id) { DomainStep(s, c, id); }
      forall p, u ensures At(MapAt(Run(cs).projects.members, p), u) == MemberNow(cs, p, u) {
        MemberStep(s, c, p, u);
        PresentAt(s.projects.projects, p);
      }
      forall e, k ensures At(MapAt(Run(cs).projects.envVars, e), k) == EnvVarNow(cs, e, k) { EnvVarStep(s, c, e, k); }
    }
  }

  lemma PresentAt<K, V>(m: map<K, V>, k: K)
    ensures k in m <==> At(m, k).Some?
  {
  }

  // ---------- assignments and reports ----------

  /** What a report of the node an assignment is on makes of it: a RUNNING report does not hide
      HEALTHY or UNHEALTHY, and a report without ports leaves the assignment's. */
  ghost predicate Shows(a: Assignment, o: Observed, b: Assignment) {
    && b.id == a.id && b.nodeId == a.nodeId && b.config == a.config
    && b.observed.containerId == o.containerId && b.observed.message == o.message && b.observed.ports == o.ports
    && b.observed.state ==
         (if o.state == StateRunning && a.observed.state in {StateHealthy, StateUnhealthy} then a.observed.state
          else o.state)
    && b.ports == (if o.ports == map[] then a.ports else o.ports)
  }

  /** Exactly which assignments a batch of reports changes, and how: those on the reporting node
      that the batch names. Nothing else in the store changes. */
  lemma ReportsStay(s: State, nodeId: Id, batch: map<Id, Observed>)
    ensures var t := Do(s, DoSetObserved(nodeId, batch));
            && t == s.(placement := s.placement.(assignments := t.placement.assignments))
            && t.placement.assignments.Keys == s.placement.assignments.Keys
            && forall id :: id in s.placement.assignments ==>
                 var a, b := s.placement.assignments[id], t.placement.assignments[id];
                 if a.nodeId == nodeId && id in batch then Shows(a, batch[id], b) else b == a
    ensures forall ch :: ch in Published(s, DoSetObserved(nodeId, batch)) <==>
              && ch.kind == KindAssignment && ch.id in batch && ch.id in s.placement.assignments
              && s.placement.assignments[ch.id].nodeId == nodeId
  {
  }

  lemma {:induction false} PutAssignmentsAt(s: Placement, list: seq<Assignment>, id: Id)
    ensures At(PutAssignments(s, list).assignments, id) ==
              match LastWith(list, (a: Assignment) => a.id, id)
              case Some(a) => Some(a)
              case None => At(s.assignments, id)
  {
    if list != [] {
      PutAssignmentsAt(s, list[..|list| - 1], id);
    }
  }

  /** A command that neither puts, deletes nor restores the assignment, nor brings a report on it
      from its own node, leaves it alone. */
  predicate LeavesAlone(c: Command, id: Id, nodeId: Id) {
    match c
    case DoPutAssignments(list) => forall a :: a in list ==> a.id != id
    case DoDeleteAssignments(ids) => id !in ids
    case DoSetObserved(n, batch) => n != nodeId || id !in batch
    case DoRestore(_) => false
    case _ => true
  }

  lemma AloneStep(s: State, c: Command, id: Id)
    requires id in s.placement.assignments && LeavesAlone(c, id, s.placement.assignments[id].nodeId)
    ensures At(Do(s, c).placement.assignments, id) == At(s.placement.assignments, id)
  {
    match c
    case DoPutAssignments(list) => NoneListed(list, id); PutAssignmentsAt(s.placement, list, id);
    case DoDeleteAssignments(ids) => DeletedAssignments(s.placement, ids);
    case DoSetObserved(n, batch) => ReportsStay(s, n, batch);
    case _ =>
  }

  lemma {:induction false} NoneListed(list: seq<Assignment>, id: Id)
    requires forall a :: a in list ==> a.id != id
    ensures LastWith(list, (a: Assignment) => a.id, id) == None
  {
    if list != [] {
      assert list[|list| - 1] in list;
      NoneListed(list[..|list| - 1], id);
    }
  }

  lemma RunNext(cs: seq<Command>, c: Command)
    ensures Run(cs + [c]) == Do(Run(cs), c)
  {
    assert (cs + [c])[..|cs|] == cs;
  }

  /** Reports are fenced by the node, over every run: once a put has placed an assignment on a
      node, nothing any other node reports ever changes it, whatever else is done meanwhile, until
      it is put again, deleted or restored, or its own node reports. */
  lemma {:induction false} OldNodeIsMute(cs: seq<Command>, list: seq<Assignment>, a: Assignment, later: seq<Command>)
    requires LastWith(list, (x: Assignment) => x.id, a.id) == Some(a)
    requires forall c :: c in later ==> LeavesAlone(c, a.id, a.nodeId)
    ensures At(Run(cs + [DoPutAssignments(list)] + later).placement.assignments, a.id) == Some(a)
  {
    var all := cs + [DoPutAssignments(list)] + later;
    hide Do, LeavesAlone;
    if later == [] {
      assert all == cs + [DoPutAssignments(list)];
      RunNext(cs, DoPutAssignments(list));
      PlacedAt(Run(cs), list, a.id);
    } else {
      var front, c := later[..|later| - 1], later[|later| - 1];
      OldNodeIsMute(cs, list, a, front);
      assert all == (cs + [DoPutAssignments(list)] + front) + [c];
      RunNext(cs + [DoPutAssignments(list)] + front, c);
      AloneStep(Run(cs + [DoPutAssignments(list)] + front), c, a.id);
    }
  }

  lemma PlacedAt(s: State, list: seq<Assignment>, id: Id)
    requires LastWith(list, (x: Assignment) => x.id, id).Some?
    ensures At(Do(s, DoPutAssignments(list)).placement.assignments, id) == LastWith(list, (x: Assignment) => x.id, id)
  {
    PutAssignmentsAt(s.placement, list, id);
  }

  // ---------- compare-and-set ----------

  /** The version a compare-and-set meets: 0 for an absent key. */
  function Present(s: State, key: string): nat {
    match At(s.kv, key)
    case None => 0
    case Some(e) => e.version
  }

  /** Exactly what a put does: with a negative expectation always, otherwise only if the key has
      the version expected, it writes the value under the next version; nothing else changes. A
      refused put changes and publishes nothing. */
  lemma PutWritesNextVersion(s: State, key: string, value: string, expected: int, expiresAt: int)
    ensures var c := DoPutKv(key, value, expected, expiresAt);
            if expected < 0 || expected == Present(s, key) then
              && At(Do(s, c).kv, key) == Some(Kv(key, value, Present(s, key) + 1, expiresAt))
              && (forall k :: k != key ==> At(Do(s, c).kv, k) == At(s.kv, k))
              && Do(s, c) == s.(kv := Do(s, c).kv) && Published(s, c) == {Change(KindKV, key)}
            else Do(s, c) == s && Published(s, c) == {}
  {
  }

  /** Exactly what a delete does; of an absent key nothing, whatever is expected. */
  lemma DeleteNeedsVersion(s: State, key: string, expected: int)
    ensures var c := DoDeleteKv(key, expected);
            if key in s.kv && (expected < 0 || expected == Present(s, key)) then
              && At(Do(s, c).kv, key) == None
              && (forall k :: k != key ==> At(Do(s, c).kv, k) == At(s.kv, k))
              && Do(s, c) == s.(kv := Do(s, c).kv) && Published(s, c) == {Change(KindKV, key)}
            else Do(s, c) == s && Published(s, c) == {}
  {
  }

  /** The command `i` of a run is a put of the key that took effect. */
  ghost predicate Writes(cs: seq<Command>, i: nat, key: string)
    requires i < |cs|
  {
    cs[i].DoPutKv? && cs[i].key == key && Run(cs[..i + 1]) != Run(cs[..i])
  }

  /** A command that may take a key back to version 0 or set any version. */
  predicate Resets(c: Command, key: string) {
    (c.DoDeleteKv? && c.key == key) || c.DoRestore?
  }

  lemma WritesIff(cs: seq<Command>, i: nat, key: string)
    requires i < |cs| && cs[i].DoPutKv? && cs[i].key == key
    ensures Run(cs[..i + 1]) == Do(Run(cs[..i]), cs[i])
    ensures Writes(cs, i, key) <==> cs[i].expected < 0 || cs[i].expected == Present(Run(cs[..i]), key)
    ensures Writes(cs, i, key) ==> Present(Run(cs[..i + 1]), key) == Present(Run(cs[..i]), key) + 1
  {
    assert cs[..i + 1][..i] == cs[..i];
    var c := cs[i];
    PutWritesNextVersion(Run(cs[..i]), key, c.value, c.expected, c.expiresAt);
  }

  lemma VersionStep(s: State, c: Command, key: string)
    requires !Resets(c, key)
    ensures Present(Do(s, c), key) >= Present(s, key)
  {
  }

  /** Between two moments without a delete or a restore the version of a key never falls. */
  lemma {:induction false} VersionGrows(cs: seq<Command>, i: nat, j: nat, key: string)
    requires i <= j <= |cs| && forall m :: i <= m < j ==> !Resets(cs[m], key)
    ensures Present(Run(cs[..j]), key) >= Present(Run(cs[..i]), key)
    decreases j
  {
    hide Do, Present;
    if i < j {
      VersionGrows(cs, i, j - 1, key);
      assert cs[..j][..j - 1] == cs[..j - 1];
      VersionStep(Run(cs[..j - 1]), cs[j - 1], key);
    }
  }

  /** Compare-and-set excludes, over every run: of two puts of a key that expect the same version
      and both take effect, the key was deleted or the store restored in between. So whoever else
      expected the version a lock had when it was taken has lost. */
  lemma OneWinner(cs: seq<Command>, i: nat, j: nat, key: string)
    requires i < j < |cs| && Writes(cs, i, key) && Writes(cs, j, key)
    requires cs[i].expected == cs[j].expected >= 0
    ensures exists m :: i < m < j && Resets(cs[m], key)
  {
    hide Writes, Resets, Present;
    WritesPut(cs, i, key);
    WritesPut(cs, j, key);
    WritesIff(cs, i, key);
    WritesIff(cs, j, key);
    if forall m :: i < m < j ==> !Resets(cs[m], key) {
      VersionGrows(cs, i + 1, j, key);
      assert false;
    }
  }

  lemma WritesPut(cs: seq<Command>, i: nat, key: string)
    requires i < |cs| && Writes(cs, i, key)
    ensures cs[i].DoPutKv? && cs[i].key == key
  {
  }

  /** Over every run of genuine commands a put that expects 0 takes effect exactly when the key is
      absent. */
  lemma ZeroMeansAbsent(cs: seq<Command>, i: nat, key: string)
    requires AllGenuine(cs) && i < |cs| && cs[i].DoPutKv? && cs[i].key == key && cs[i].expected == 0
    ensures Writes(cs, i, key) <==> key !in Run(cs[..i]).kv
  {
    hide Writes, AllGenuine, Run;
    GenuineFront(cs, i);
    RunKeepsInv(cs[..i]);
    WritesIff(cs, i, key);
  }

  lemma GenuineFront(cs: seq<Command>, i: nat)
    requires AllGenuine(cs) && i <= |cs|
    ensures AllGenuine(cs[..i])
  {
  }

  // ---------- announcements ----------

  /** No false alarms: a delete or a compare-and-set announces something exactly when it changes
      the store. */
  lemma AnnouncesIffDone(s: State, c: Command)
    requires c.DoDeleteUser? || c.DoDeleteToken? || c.DoDeleteProject? || c.DoDeleteDomain? || c.DoDeleteMember? ||
             c.DoPutKv? || c.DoDeleteKv?
    ensures Published(s, c) != {} <==> Do(s, c) != s
  {
    match c
    case DoDeleteMember(p, u) =>
      if u !in MapAt(s.projects.members, p) {
        DeleteMemberQuiet(s.projects, p, u);
      } else {
        MemberStep(s, c, p, u);
      }
    case DoPutKv(k, v, expected, expiresAt) => PutWritesNextVersion(s, k, v, expected, expiresAt);
    case DoDeleteKv(k, expected) => DeleteNeedsVersion(s, k, expected);
    case DoDeleteUser(id) => UserStep(s, c, id);
    case DoDeleteToken(id) => TokenStep(s, c, id);
    case DoDeleteProject(id) => ProjectStep(s, c, id);
    case DoDeleteDomain(id) => DomainStep(s, c, id);
  }

  /** What each command announces, and nothing besides: the object it names under the kind of that
      object, once it is there to be changed; a restore, every kind as a whole. */
  lemma AnnouncesOwnObjects(s: State, c: Command, ch: Change)
    ensures ch in Published(s, c) <==>
              match c
              case DoPutUser(u) => ch.kind == KindUser && ch.id == u.id
              case DoDeleteUser(id) => ch.kind == KindUser && ch.id == id && id in s.accounts.users
              case DoPutToken(t) => ch.kind == KindToken && ch.id == t.id
              case DoDeleteToken(id) => ch.kind == KindToken && ch.id == id && id in s.accounts.tokens
              case DoPutProject(p) => ch.kind == KindProject && ch.id == p.id
              case DoDeleteProject(id) => ch.kind == KindProject && ch.id == id && id in s.projects.projects
              case DoPutMember(m) => ch.kind == KindProjectMember && ch.id == m.projectId + "/" + m.userId
              case DoDeleteMember(p, u) =>
                ch.kind == KindProjectMember && ch.id == p + "/" + u &&
                p in s.projects.members && u in s.projects.members[p]
              case DoSetEnvVars(e, _, _) => ch.kind == KindEnvVar && ch.id == e
              case DoPutAssignments(list) => ch.kind == KindAssignment && exists a :: a in list && a.id == ch.id
              case DoDeleteAssignments(ids) =>
                ch.kind == KindAssignment && ch.id in ids && ch.id in s.placement.assignments
              case DoSetObserved(n, batch) =>
                ch.kind == KindAssignment && ch.id in batch && ch.id in s.placement.assignments &&
                s.placement.assignments[ch.id].nodeId == n
              case DoPutDomain(d) => ch.kind == KindDomain && ch.id == d.id
              case DoDeleteDomain(id) => ch.kind == KindDomain && ch.id == id && id in s.domains.domains
              case DoPutKv(k, _, expected, _) =>
                ch.kind == KindKV && ch.id == k && (expected < 0 || expected == Present(s, k))
              case DoDeleteKv(k, expected) =>
                ch.kind == KindKV && ch.id == k && k in s.kv && (expected < 0 || expected == Present(s, k))
              case DoAppendEvents(es) => ch.kind == KindEvent && exists e :: e in es && e.id == ch.id
              case DoAppendAudit(_) => ch.kind == KindEvent && ch.id == "audit"
              case DoMarkApplied(_) => false
              case DoRestore(_) => ch.id == "*"
  {
    EveryKindListed(ch.kind);
  }
}
