/** Properties of the store over every run: index agreement, the rings and the idempotency
    window, publication of changes, and the snapshot round trip. */
module StoreRuns {
  import opened Sequences
  import opened StoreState

  datatype Command =
    | DoPutUser(u: User)
    | DoDeleteUser(id: Id)
    | DoPutProject(p: Project)
    | DoDeleteProject(id: Id)
    | DoPutMember(m: Member)
    | DoDeleteMember(projectId: Id, userId: Id)
    | DoSetEnvVars(envId: Id, sets: map<string, string>, unsets: set<string>)
    | DoPutAssignments(list: seq<Assignment>)
    | DoDeleteAssignments(ids: seq<Id>)
    | DoSetObserved(nodeId: Id, batch: map<Id, Observed>)
    | DoPutToken(t: Token)
    | DoDeleteToken(id: Id)
    | DoPutDomain(d: Domain)
    | DoDeleteDomain(id: Id)
    | DoPutKv(key: string, value: string, expected: int, expiresAt: int)
    | DoDeleteKv(key: string, expected: int)
    | DoAppendEvents(es: seq<Event>)
    | DoAppendAudit(es: seq<Event>)
    | DoMarkApplied(request: string)
    | DoRestore(snap: Snapshot)

  function Do(s: State, c: Command): State {
    match c
    case DoPutUser(u) => s.(accounts := PutUser(s.accounts, u))
    case DoDeleteUser(id) => s.(accounts := DeleteUser(s.accounts, id))
    case DoPutToken(t) => s.(accounts := PutToken(s.accounts, t))
    case DoDeleteToken(id) => s.(accounts := DeleteToken(s.accounts, id))
    case DoPutProject(p) => s.(projects := PutProject(s.projects, p))
    case DoDeleteProject(id) => s.(projects := DeleteProject(s.projects, id))
    case DoPutMember(m) => s.(projects := PutMember(s.projects, m))
    case DoDeleteMember(p, u) => s.(projects := DeleteMember(s.projects, p, u))
    case DoSetEnvVars(e, sets, unsets) => s.(projects := SetEnvVars(s.projects, e, sets, unsets))
    case DoPutAssignments(list) => s.(placement := PutAssignments(s.placement, list))
    case DoDeleteAssignments(ids) => s.(placement := DeleteAssignments(s.placement, ids))
    case DoSetObserved(n, batch) => s.(placement := SetObserved(s.placement, n, batch))
    case DoPutDomain(d) => s.(domains := PutDomain(s.domains, d))
    case DoDeleteDomain(id) => s.(domains := DeleteDomain(s.domains, id))
    case DoPutKv(k, v, expected, exp) => s.(kv := PutKv(s.kv, k, v, expected, exp))
    case DoDeleteKv(k, expected) => s.(kv := DeleteKv(s.kv, k, expected))
    case DoAppendEvents(es) => s.(rings := AppendEvents(s.rings, es))
    case DoAppendAudit(es) => s.(rings := AppendAudit(s.rings, es))
    case DoMarkApplied(r) => s.(rings := MarkApplied(s.rings, r))
    case DoRestore(snap) => Restored(snap)
  }

  function Run(cs: seq<Command>): State {
    if cs == [] then EMPTY else Do(Run(cs[..|cs| - 1]), cs[|cs| - 1])
  }

  // ---------- indexes under one mutation ----------

  lemma GroupPut<V>(objects: map<Id, V>, groups: map<string, set<Id>>, groups': map<string, set<Id>>, id: Id, v: V,
        field: V -> string)
    requires GroupsAgree(objects, groups, field)
    requires forall f :: SetAt(groups', f) == (SetAt(groups, f) - {id}) + (if f == field(v) then {id} else {})
    ensures GroupsAgree(objects[id := v], groups', field)
  {
    forall f, x ensures x in SetAt(groups', f) <==> x in objects[id := v] && field(objects[id := v][x]) == f {
      assert x in SetAt(groups, f) <==> x in objects && field(objects[x]) == f;
    }
  }

  lemma GroupDelete<V>(objects: map<Id, V>, groups: map<string, set<Id>>, groups': map<string, set<Id>>, id: Id,
        field: V -> string)
    requires GroupsAgree(objects, groups, field)
    requires forall f :: SetAt(groups', f) == SetAt(groups, f) - {id}
    ensures GroupsAgree(objects - {id}, groups', field)
  {
    forall f, x ensures x in SetAt(groups', f) <==> x in objects - {id} && field((objects - {id})[x]) == f {
      assert x in SetAt(groups, f) <==> x in objects && field(objects[x]) == f;
    }
  }

  /** Putting an object keeps an index in agreement exactly when no other object has its
      field value. */
  lemma IndexPut<V>(objects: map<Id, V>, index: map<string, Id>, id: Id, v: V, field: V -> string)
    requires IndexAgrees(objects, index, field)
    ensures var cleared := if id in objects then index - {field(objects[id])} else index;
            IndexAgrees(objects[id := v], cleared[field(v) := id], field) <==>
              forall x :: x in objects && x != id ==> field(objects[x]) != field(v)
  {
    var cleared := if id in objects then index - {field(objects[id])} else index;
    var objects', index' := objects[id := v], cleared[field(v) := id];
    if forall x :: x in objects && x != id ==> field(objects[x]) != field(v) {
      forall f, x ensures Finds(index', f, x) <==> x in objects' && field(objects'[x]) == f {
        assert Finds(index, f, x) <==> x in objects && field(objects[x]) == f;
        if id in objects {
          assert Finds(index, field(objects[id]), id);
        }
      }
    } else {
      var x :| x in objects && x != id && field(objects[x]) == field(v);
      assert !Finds(index', field(v), x) && x in objects' && field(objects'[x]) == field(v);
    }
  }

  lemma IndexDelete<V>(objects: map<Id, V>, index: map<string, Id>, id: Id, field: V -> string)
    requires IndexAgrees(objects, index, field) && id in objects
    ensures IndexAgrees(objects - {id}, index - {field(objects[id])}, field)
  {
    forall f, x
      ensures Finds(index - {field(objects[id])}, f, x) <==> x in objects - {id} && field((objects - {id})[x]) == f
    {
      assert Finds(index, f, x) <==> x in objects && field(objects[x]) == f;
      assert Finds(index, field(objects[id]), id);
    }
  }

  // ---------- single mutations keep the unconditional invariant ----------

  lemma PutAssignmentKeepsInv(s: Placement, a: Assignment)
    requires PlacementInv(s)
    ensures PlacementInv(PutAssignment(s, a))
  {
    forall n
      ensures SetAt(PutAssignment(s, a).byNode, n) ==
                (SetAt(s.byNode, n) - {a.id}) + (if n == a.nodeId then {a.id} else {})
    {
      assert a.id in SetAt(s.byNode, n) <==> a.id in s.assignments && AssignmentNode(s.assignments[a.id]) == n;
    }
    GroupPut(s.assignments, s.byNode, PutAssignment(s, a).byNode, a.id, a, AssignmentNode);
  }

  lemma {:induction false} PutAssignmentsKeepsInv(s: Placement, list: seq<Assignment>)
    requires PlacementInv(s)
    ensures PlacementInv(PutAssignments(s, list))
  {
    if list != [] {
      PutAssignmentsKeepsInv(s, list[..|list| - 1]);
      PutAssignmentKeepsInv(PutAssignments(s, list[..|list| - 1]), list[|list| - 1]);
    }
  }

  lemma DeleteAssignmentKeepsInv(s: Placement, id: Id)
    requires PlacementInv(s)
    ensures PlacementInv(DeleteAssignment(s, id))
  {
    if id in s.assignments {
      forall n ensures SetAt(DeleteAssignment(s, id).byNode, n) == SetAt(s.byNode, n) - {id} {
        assert id in SetAt(s.byNode, n) <==> AssignmentNode(s.assignments[id]) == n;
      }
      GroupDelete(s.assignments, s.byNode, DeleteAssignment(s, id).byNode, id, AssignmentNode);
    }
  }

  lemma {:induction false} DeleteAssignmentsKeepsInv(s: Placement, ids: seq<Id>)
    requires PlacementInv(s)
    ensures PlacementInv(DeleteAssignments(s, ids))
  {
    if ids != [] {
      DeleteAssignmentsKeepsInv(s, ids[..|ids| - 1]);
      DeleteAssignmentKeepsInv(DeleteAssignments(s, ids[..|ids| - 1]), ids[|ids| - 1]);
    }
  }

  lemma SetObservedKeepsInv(s: Placement, nodeId: Id, batch: map<Id, Observed>)
    requires PlacementInv(s)
    ensures PlacementInv(SetObserved(s, nodeId, batch))
  {
    var t := SetObserved(s, nodeId, batch);
    forall n, id
      ensures id in SetAt(t.byNode, n) <==> id in t.assignments && AssignmentNode(t.assignments[id]) == n
    {
      assert id in SetAt(s.byNode, n) <==> id in s.assignments && AssignmentNode(s.assignments[id]) == n;
    }
  }

  lemma DeleteDomainKeepsInv(s: Domains, id: Id)
    requires DomainsInv(s)
    ensures DomainsInv(DeleteDomain(s, id))
  {
    if id in s.domains {
      forall f ensures SetAt(DeleteDomain(s, id).byHostname, f) == SetAt(s.byHostname, f) - {id} {
        assert id in SetAt(s.byHostname, f) <==> DomainHost(s.domains[id]) == f;
      }
      GroupDelete(s.domains, s.byHostname, DeleteDomain(s, id).byHostname, id, DomainHost);
    }
  }

  lemma PutDomainKeepsInv(s: Domains, d: Domain)
    requires DomainsInv(s)
    ensures DomainsInv(PutDomain(s, d))
  {
    var r, t := DeleteDomain(s, d.id), PutDomain(s, d);
    DeleteDomainKeepsInv(s, d.id);
    forall f
      ensures SetAt(t.byHostname, f) == (SetAt(r.byHostname, f) - {d.id}) + (if f == d.hostname then {d.id} else {})
    {
      assert d.id !in r.domains;
      assert d.id !in SetAt(r.byHostname, f);
    }
    GroupPut(r.domains, r.byHostname, t.byHostname, d.id, d, DomainHost);
    assert t.domains == r.domains[d.id := d];
  }

  lemma MarkAppliedKeepsInv(s: Rings, request: string)
    requires RingsInv(s)
    ensures RingsInv(MarkApplied(s, request))
  {
    if request !in s.appliedSet {
      var all := s.applied + [request];
      assert Distinct(all);
      LastSplits(all, APPLIED_RING_CAP);
    }
  }

  /** A distinct sequence is cut into its last elements and the rest without overlap. */
  lemma LastSplits<T>(all: seq<T>, cap: nat)
    requires Distinct(all)
    ensures Distinct(Last(cap, all))
    ensures Elements(Last(cap, all)) == Elements(all) - Elements(all[..|all| - |Last(cap, all)|])
  {
    var kept := Last(cap, all);
    var cut := |all| - |kept|;
    assert all == all[..cut] + kept;
    assert forall i :: 0 <= i < |kept| ==> kept[i] == all[cut + i];
  }

  // ---------- snapshot round trip ----------

  lemma {:induction false} RefillHas<K, V>(items: seq<V>, key: V -> K)
    ensures forall k :: k in Refill(items, key) ==> Refill(items, key)[k] in items && key(Refill(items, key)[k]) == k
    ensures forall x :: x in items ==> key(x) in Refill(items, key)
  {
    if items != [] {
      RefillHas(items[..|items| - 1], key);
      assert items == items[..|items| - 1] + [items[|items| - 1]];
    }
  }

  lemma RefillIsMap<K, V>(items: seq<V>, m: map<K, V>, key: V -> K)
    requires Enumerates(items, m, key)
    ensures Refill(items, key) == m
  {
    RefillHas(items, key);
  }

  lemma {:induction false} RefillIndexHas<V>(items: seq<V>, field: V -> string, id: V -> Id, f: string)
    ensures f in RefillIndex(items, field, id) ==>
              exists x :: x in items && field(x) == f && id(x) == RefillIndex(items, field, id)[f]
    ensures (exists x :: x in items && field(x) == f) ==> f in RefillIndex(items, field, id)
  {
    if items != [] {
      var front, last := items[..|items| - 1], items[|items| - 1];
      RefillIndexHas(front, field, id, f);
      assert items == front + [last];
      if f in RefillIndex(front, field, id) && field(last) != f {
        var x :| x in front && field(x) == f && id(x) == RefillIndex(front, field, id)[f];
        assert x in items;
      }
    }
  }

  lemma RefillIndexIsIndex<V>(items: seq<V>, objects: map<Id, V>, index: map<string, Id>, field: V -> string,
        id: V -> Id)
    requires Enumerates(items, objects, id) && IndexAgrees(objects, index, field)
    ensures RefillIndex(items, field, id) == index
  {
    var filled := RefillIndex(items, field, id);
    forall f ensures f in filled <==> f in index
             ensures f in filled ==> filled[f] == index[f]
    {
      RefillIndexHas(items, field, id, f);
      if f in filled {
        var x :| x in items && field(x) == f && id(x) == filled[f];
        assert Finds(index, f, id(x));
      }
      if f in index {
        assert Finds(index, f, index[f]);
        assert objects[index[f]] in items;
      }
    }
  }

  lemma {:induction false} RefillGroupsHas<V>(items: seq<V>, field: V -> string, id: V -> Id, f: string, i: Id)
    ensures i in SetAt(RefillGroups(items, field, id), f) <==> exists x :: x in items && field(x) == f && id(x) == i
    ensures f in RefillGroups(items, field, id) ==> RefillGroups(items, field, id)[f] != {}
  {
    if items != [] {
      var front, last := items[..|items| - 1], items[|items| - 1];
      RefillGroupsHas(front, field, id, f, i);
      assert items == front + [last];
      if x :| x in items && field(x) == f && id(x) == i {
        assert x in front || x == last;
      }
      if x :| x in front && field(x) == f && id(x) == i {
        assert x in items;
      }
    }
  }

  lemma RefillGroupsAgree<V>(items: seq<V>, objects: map<Id, V>, field: V -> string, id: V -> Id)
    requires Enumerates(items, objects, id)
    ensures GroupsAgree(objects, RefillGroups(items, field, id), field)
    ensures NoEmptyGroup(RefillGroups(items, field, id))
  {
    forall f, i ensures i in SetAt(RefillGroups(items, field, id), f) <==> i in objects && field(objects[i]) == f {
      RefillGroupsHas(items, field, id, f, i);
      if i in objects && field(objects[i]) == f {
        assert objects[i] in items && id(objects[i]) == i;
      }
    }
    forall f | f in RefillGroups(items, field, id) ensures RefillGroups(items, field, id)[f] != {} {
      RefillGroupsHas(items, field, id, f, "");
    }
  }

  lemma GroupsUnique<V>(objects: map<Id, V>, g: map<string, set<Id>>, h: map<string, set<Id>>, field: V -> string,
        f: string)
    requires GroupsAgree(objects, g, field) && GroupsAgree(objects, h, field)
    ensures SetAt(g, f) == SetAt(h, f)
  {
    forall i ensures i in SetAt(g, f) <==> i in SetAt(h, f) {
      assert i in SetAt(g, f) <==> i in objects && field(objects[i]) == f;
      assert i in SetAt(h, f) <==> i in objects && field(objects[i]) == f;
    }
  }

  lemma {:induction false} RefillNestedHas<K, L, V>(items: seq<V>, outer: V -> K, inner: V -> L, k: K, l: L)
    ensures l in MapAt(RefillNested(items, outer, inner), k) ==>
              var x := MapAt(RefillNested(items, outer, inner), k)[l]; x in items && outer(x) == k && inner(x) == l
    ensures forall x :: x in items && outer(x) == k && inner(x) == l ==>
              l in MapAt(RefillNested(items, outer, inner), k)
  {
    if items != [] {
      RefillNestedHas(items[..|items| - 1], outer, inner, k, l);
      assert items == items[..|items| - 1] + [items[|items| - 1]];
    }
  }

  lemma RefillNestedIsMap<K, L, V>(items: seq<V>, m: map<K, map<L, V>>, outer: V -> K, inner: V -> L, k: K)
    requires EnumeratesNested(items, m, outer, inner)
    ensures MapAt(RefillNested(items, outer, inner), k) == MapAt(m, k)
  {
    var filled, wanted := MapAt(RefillNested(items, outer, inner), k), MapAt(m, k);
    forall l ensures l in filled <==> l in wanted
             ensures l in filled ==> filled[l] == wanted[l]
    {
      RefillNestedHas(items, outer, inner, k, l);
      if l in wanted {
        assert m[k][l] in items;
      }
    }
    assert filled == wanted;
  }

  /** `t` holds what `s` holds; only empty inner maps and sets may differ. */
  ghost predicate SameContents(s: State, t: State) {
    && t.accounts == s.accounts && t.domains == s.domains && t.kv == s.kv && t.rings == s.rings
    && t.projects.projects == s.projects.projects && t.placement.assignments == s.placement.assignments
    && (forall p :: MapAt(t.projects.members, p) == MapAt(s.projects.members, p))
    && (forall e :: MapAt(t.projects.envVars, e) == MapAt(s.projects.envVars, e))
    && (forall n :: SetAt(t.placement.byNode, n) == SetAt(s.placement.byNode, n))
  }

  lemma RestoredAccounts(s: State, snap: Snapshot)
    requires Describes(snap, s) && AccountsAgree(s.accounts)
    ensures Restored(snap).accounts == s.accounts
  {
    RefillIsMap(snap.users, s.accounts.users, UserId);
    RefillIsMap(snap.tokens, s.accounts.tokens, TokenId);
    RefillIndexIsIndex(snap.users, s.accounts.users, s.accounts.usersByEmail, UserEmail, UserId);
    RefillIndexIsIndex(snap.tokens, s.accounts.tokens, s.accounts.tokensByHash, TokenHash, TokenId);
  }

  lemma RestoredProjects(s: State, snap: Snapshot)
    requires Describes(snap, s) && ProjectsInv(s.projects)
    ensures var t := Restored(snap).projects;
            && t.projects == s.projects.projects && ProjectsInv(t)
            && (forall p :: MapAt(t.members, p) == MapAt(s.projects.members, p))
            && (forall e :: MapAt(t.envVars, e) == MapAt(s.projects.envVars, e))
  {
    var t := Restored(snap).projects;
    RefillIsMap(snap.projects, s.projects.projects, ProjectId);
    forall p ensures MapAt(t.members, p) == MapAt(s.projects.members, p) {
      RefillNestedIsMap(snap.members, s.projects.members, MemberProject, MemberUser, p);
    }
    forall e ensures MapAt(t.envVars, e) == MapAt(s.projects.envVars, e) {
      RefillNestedIsMap(snap.envVars, s.projects.envVars, EnvVarEnv, EnvVarKey, e);
    }
    NestedKeysMatch(s.projects.members, t.members, MemberProject, MemberUser);
    NestedKeysMatch(s.projects.envVars, t.envVars, EnvVarEnv, EnvVarKey);
  }

  lemma RestoredPlacement(s: State, snap: Snapshot)
    requires Describes(snap, s) && PlacementInv(s.placement)
    ensures var t := Restored(snap).placement;
            && PlacementInv(t) && t.assignments == s.placement.assignments
            && forall n :: SetAt(t.byNode, n) == SetAt(s.placement.byNode, n)
  {
    var t := Restored(snap).placement;
    RefillIsMap(snap.assignments, s.placement.assignments, AssignmentId);
    RefillGroupsAgree(snap.assignments, s.placement.assignments, AssignmentNode, AssignmentId);
    forall n ensures SetAt(t.byNode, n) == SetAt(s.placement.byNode, n) {
      GroupsUnique(s.placement.assignments, t.byNode, s.placement.byNode, AssignmentNode, n);
    }
  }

  lemma RestoredDomains(s: State, snap: Snapshot)
    requires Describes(snap, s) && DomainsInv(s.domains)
    ensures Restored(snap).domains == s.domains
  {
    var t := Restored(snap).domains;
    RefillIsMap(snap.domains, s.domains.domains, DomainId);
    RefillGroupsAgree(snap.domains, s.domains.domains, DomainHost, DomainId);
    forall h ensures SetAt(t.byHostname, h) == SetAt(s.domains.byHostname, h) {
      GroupsUnique(s.domains.domains, t.byHostname, s.domains.byHostname, DomainHost, h);
    }
    NonEmptyGroupsEqual(t.byHostname, s.domains.byHostname);
  }

  lemma NonEmptyGroupsEqual(g: map<string, set<Id>>, h: map<string, set<Id>>)
    requires forall f :: SetAt(g, f) == SetAt(h, f)
    requires NoEmptyGroup(g) && NoEmptyGroup(h)
    ensures g == h
  {
    forall f ensures f in g <==> f in h
             ensures f in g ==> g[f] == h[f]
    {
      assert SetAt(g, f) == SetAt(h, f);
    }
  }

  /** Snapshot round trip: whatever order the maps of a valid store were enumerated in,
      restoring the snapshot gives the same contents, with every index and the idempotency
      set rebuilt in agreement. */
  lemma SnapshotRoundTrip(s: State, snap: Snapshot)
    requires Valid(s) && Describes(snap, s)
    ensures SameContents(s, Restored(snap)) && Valid(Restored(snap))
  {
    RestoredAccounts(s, snap);
    RestoredProjects(s, snap);
    RestoredPlacement(s, snap);
    RestoredDomains(s, snap);
    RefillIsMap(snap.kv, s.kv, KvKey);
  }

  lemma NestedKeysMatch<V>(m: map<string, map<string, V>>, m': map<string, map<string, V>>, outer: V -> string,
        inner: V -> string)
    requires KeyedNested(m, outer, inner)
    requires forall k :: MapAt(m', k) == MapAt(m, k)
    ensures KeyedNested(m', outer, inner)
  {
    forall k, l | k in m' && l in m'[k] ensures outer(m'[k][l]) == k && inner(m'[k][l]) == l {
      assert MapAt(m', k) == MapAt(m, k);
    }
  }

  // ---------- every command ----------

  /** A restored snapshot was taken from some store. */
  ghost predicate Genuine(c: Command) {
    c.DoRestore? ==> exists s :: Inv(s) && Describes(c.snap, s)
  }

  ghost predicate FieldsDistinct<V>(items: seq<V>, field: V -> string) {
    forall i, j :: 0 <= i < j < |items| ==> field(items[i]) != field(items[j])
  }

  /** A rebuilt index is sound always, and agrees exactly when no two objects share the field. */
  lemma RefillIndexSound<V>(items: seq<V>, objects: map<Id, V>, field: V -> string, id: V -> Id)
    requires Enumerates(items, objects, id)
    ensures IndexSound(objects, RefillIndex(items, field, id), field)
  {
    var filled := RefillIndex(items, field, id);
    forall f | f in filled ensures filled[f] in objects && field(objects[filled[f]]) == f {
      RefillIndexHas(items, field, id, f);
      var x :| x in items && field(x) == f && id(x) == filled[f];
    }
  }

  lemma RefillIndexAgrees<V>(items: seq<V>, objects: map<Id, V>, field: V -> string, id: V -> Id)
    requires Enumerates(items, objects, id)
    ensures IndexAgrees(objects, RefillIndex(items, field, id), field) <==> FieldsDistinct(items, field)
  {
    if FieldsDistinct(items, field) {
      forall f, i ensures Finds(RefillIndex(items, field, id), f, i) <==> i in objects && field(objects[i]) == f {
        RefillIndexFinds(items, objects, field, id, f, i);
      }
    }
    if IndexAgrees(objects, RefillIndex(items, field, id), field) {
      forall i, j | 0 <= i < j < |items| ensures field(items[i]) != field(items[j]) {
        var x, y, filled := items[i], items[j], RefillIndex(items, field, id);
        assert x in items && y in items && id(x) != id(y);
        assert Finds(filled, field(x), id(x)) && Finds(filled, field(y), id(y));
      }
    }
  }

  lemma RefillIndexFinds<V>(items: seq<V>, objects: map<Id, V>, field: V -> string, id: V -> Id, f: string, i: Id)
    requires Enumerates(items, objects, id) && FieldsDistinct(items, field)
    ensures Finds(RefillIndex(items, field, id), f, i) <==> i in objects && field(objects[i]) == f
  {
    var filled := RefillIndex(items, field, id);
    RefillIndexHas(items, field, id, f);
    assert i in objects ==> objects[i] in items;
    if f in filled {
      var x :| x in items && field(x) == f && id(x) == filled[f];
      if i in objects && field(objects[i]) == f {
        var a :| 0 <= a < |items| && items[a] == x;
        var b :| 0 <= b < |items| && items[b] == objects[i];
        assert a == b;
      }
    }
  }

  lemma RestoreKeepsInv(s: State, snap: Snapshot)
    requires Inv(s) && Describes(snap, s)
    ensures Inv(Restored(snap))
    ensures AccountsAgree(Restored(snap).accounts) <==>
              FieldsDistinct(snap.users, UserEmail) && FieldsDistinct(snap.tokens, TokenHash)
  {
    hide FieldsDistinct, IndexAgrees, IndexSound, Enumerates, EnumeratesNested, PlacementInv, DomainsInv, ProjectsInv;
    RestoredProjects(s, snap);
    RestoredPlacement(s, snap);
    RestoredDomains(s, snap);
    RefillIsMap(snap.users, s.accounts.users, UserId);
    RefillIsMap(snap.tokens, s.accounts.tokens, TokenId);
    RefillIsMap(snap.kv, s.kv, KvKey);
    RefillIndexSound(snap.users, s.accounts.users, UserEmail, UserId);
    RefillIndexSound(snap.tokens, s.accounts.tokens, TokenHash, TokenId);
    RefillIndexAgrees(snap.users, s.accounts.users, UserEmail, UserId);
    RefillIndexAgrees(snap.tokens, s.accounts.tokens, TokenHash, TokenId);
  }

  lemma AccountsStaySound(s: Accounts, u: User, t: Token, id: Id)
    requires AccountsInv(s)
    ensures AccountsInv(PutUser(s, u)) && AccountsInv(DeleteUser(s, id))
    ensures AccountsInv(PutToken(s, t)) && AccountsInv(DeleteToken(s, id))
  {
  }

  lemma ProjectsStayKeyed(s: Projects, p: Project, m: Member, id: Id, userId: Id)
    requires ProjectsInv(s)
    ensures ProjectsInv(PutProject(s, p)) && ProjectsInv(DeleteProject(s, id))
    ensures ProjectsInv(PutMember(s, m)) && ProjectsInv(DeleteMember(s, id, userId))
  {
  }

  lemma EnvVarsStayKeyed(s: Projects, envId: Id, sets: map<string, string>, unsets: set<string>)
    requires ProjectsInv(s)
    ensures ProjectsInv(SetEnvVars(s, envId, sets, unsets))
  {
  }

  lemma AppendsKeepInv(s: Rings, es: seq<Event>)
    requires RingsInv(s)
    ensures RingsInv(AppendEvents(s, es)) && RingsInv(AppendAudit(s, es))
  {
  }

  lemma DoKeepsInv(s: State, c: Command)
    requires Inv(s) && Genuine(c)
    ensures Inv(Do(s, c))
  {
    hide AccountsInv, ProjectsInv, PlacementInv, DomainsInv, RingsInv;
    hide PutUser, DeleteUser, PutToken, DeleteToken, PutProject, DeleteProject, PutMember, DeleteMember, SetEnvVars;
    hide PutAssignments, DeleteAssignments, SetObserved, PutDomain, DeleteDomain, MarkApplied, AppendEvents,
           AppendAudit;
    match c
    case DoPutUser(u) => AccountsStaySound(s.accounts, u, Token("", "", ""), "");
    case DoDeleteUser(id) => AccountsStaySound(s.accounts, User("", "", ""), Token("", "", ""), id);
    case DoPutToken(t) => AccountsStaySound(s.accounts, User("", "", ""), t, "");
    case DoDeleteToken(id) => AccountsStaySound(s.accounts, User("", "", ""), Token("", "", ""), id);
    case DoPutProject(p) => ProjectsStayKeyed(s.projects, p, Member("", "", ""), "", "");
    case DoDeleteProject(id) => ProjectsStayKeyed(s.projects, Project("", ""), Member("", "", ""), id, "");
    case DoPutMember(m) => ProjectsStayKeyed(s.projects, Project("", ""), m, "", "");
    case DoDeleteMember(p, u) => ProjectsStayKeyed(s.projects, Project("", ""), Member("", "", ""), p, u);
    case DoSetEnvVars(e, sets, unsets) => EnvVarsStayKeyed(s.projects, e, sets, unsets);
    case DoPutAssignments(list) => PutAssignmentsKeepsInv(s.placement, list);
    case DoDeleteAssignments(ids) => DeleteAssignmentsKeepsInv(s.placement, ids);
    case DoSetObserved(n, batch) => SetObservedKeepsInv(s.placement, n, batch);
    case DoPutDomain(d) => PutDomainKeepsInv(s.domains, d);
    case DoDeleteDomain(id) => DeleteDomainKeepsInv(s.domains, id);
    case DoPutKv(_, _, _, _) =>
    case DoDeleteKv(_, _) =>
    case DoAppendEvents(es) => AppendsKeepInv(s.rings, es);
    case DoAppendAudit(es) => AppendsKeepInv(s.rings, es);
    case DoMarkApplied(r) => MarkAppliedKeepsInv(s.rings, r);
    case DoRestore(snap) =>
      var was :| Inv(was) && Describes(snap, was);
      RestoreKeepsInv(was, snap);
  }

  ghost predicate AllGenuine(cs: seq<Command>) {
    forall i :: 0 <= i < |cs| ==> Genuine(cs[i])
  }

  /** Index agreement over all runs: after any commands, the node and hostname indexes hold
      exactly the ids the primary maps imply, and the idempotency set is the window. */
  lemma {:induction false} RunKeepsInv(cs: seq<Command>)
    requires AllGenuine(cs)
    ensures Inv(Run(cs))
  {
    if cs != [] {
      RunKeepsInv(cs[..|cs| - 1]);
      DoKeepsInv(Run(cs[..|cs| - 1]), cs[|cs| - 1]);
    }
  }

  // ---------- the hash and e-mail indexes ----------

  /** A put that takes over a hash or an e-mail another object has, or a restore of a store in
      which two objects share one. */
  ghost predicate Steals(s: Accounts, c: Command) {
    || (c.DoRestore? && !(FieldsDistinct(c.snap.users, UserEmail) && FieldsDistinct(c.snap.tokens, TokenHash)))
    || (c.DoPutToken? && exists id :: id in s.tokens && id != c.t.id && s.tokens[id].hash == c.t.hash)
    || (c.DoPutUser? && exists id :: id in s.users && id != c.u.id && s.users[id].email == c.u.email)
  }

  lemma AgreesUnlessStolen(s: Accounts, c: Command)
    requires AccountsAgree(s)
    ensures c.DoPutUser? ==> (AccountsAgree(PutUser(s, c.u)) <==> !Steals(s, c))
    ensures c.DoPutToken? ==> (AccountsAgree(PutToken(s, c.t)) <==> !Steals(s, c))
    ensures c.DoDeleteUser? ==> AccountsAgree(DeleteUser(s, c.id))
    ensures c.DoDeleteToken? ==> AccountsAgree(DeleteToken(s, c.id))
  {
    match c
    case DoPutToken(t) => IndexPut(s.tokens, s.tokensByHash, t.id, t, TokenHash);
    case DoPutUser(u) => IndexPut(s.users, s.usersByEmail, u.id, u, UserEmail);
    case DoDeleteToken(id) => if id in s.tokens { IndexDelete(s.tokens, s.tokensByHash, id, TokenHash); }
    case DoDeleteUser(id) => if id in s.users { IndexDelete(s.users, s.usersByEmail, id, UserEmail); }
    case _ =>
  }

  /** Exactly which commands keep the hash and e-mail indexes in agreement: all but a put that
      reuses the hash of another token or the e-mail of another user, and a restore of a store
      where that had happened. */
  lemma ValidUnlessStolen(s: State, c: Command)
    requires Valid(s) && Genuine(c)
    ensures Valid(Do(s, c)) <==> !Steals(s.accounts, c)
  {
    hide Inv, AccountsAgree, Steals, Do, Genuine;
    DoKeepsInv(s, c);
    if c.DoRestore? {
      RestoreUnlessStolen(s, c);
    } else if c.DoPutUser? || c.DoPutToken? || c.DoDeleteUser? || c.DoDeleteToken? {
      AgreesUnlessStolen(s.accounts, c);
      AccountsChanged(s, c);
    } else {
      AccountsUntouched(s, c);
    }
  }

  lemma RestoreUnlessStolen(s: State, c: Command)
    requires c.DoRestore? && Genuine(c)
    ensures AccountsAgree(Do(s, c).accounts) <==> !Steals(s.accounts, c)
  {
    hide Inv, AccountsAgree, Describes, FieldsDistinct, Restored;
    var was :| Inv(was) && Describes(c.snap, was);
    RestoreKeepsInv(was, c.snap);
  }

  lemma AccountsChanged(s: State, c: Command)
    requires c.DoPutUser? || c.DoPutToken? || c.DoDeleteUser? || c.DoDeleteToken?
    ensures Do(s, c).accounts ==
            match c
            case DoPutUser(u) => PutUser(s.accounts, u)
            case DoPutToken(t) => PutToken(s.accounts, t)
            case DoDeleteUser(id) => DeleteUser(s.accounts, id)
            case DoDeleteToken(id) => DeleteToken(s.accounts, id)
    ensures c.DoDeleteUser? || c.DoDeleteToken? ==> !Steals(s.accounts, c)
  {
  }

  lemma AccountsUntouched(s: State, c: Command)
    requires !c.DoPutUser? && !c.DoPutToken? && !c.DoDeleteUser? && !c.DoDeleteToken? && !c.DoRestore?
    ensures Do(s, c).accounts == s.accounts && !Steals(s.accounts, c)
  {
  }

  lemma {:induction false} RunStaysValid(cs: seq<Command>)
    requires AllGenuine(cs)
    requires forall i :: 0 <= i < |cs| ==> !Steals(Run(cs[..i]).accounts, cs[i])
    ensures Valid(Run(cs))
  {
    if cs != [] {
      var front := cs[..|cs| - 1];
      forall i | 0 <= i < |front| ensures !Steals(Run(front[..i]).accounts, front[i]) {
        assert front[..i] == cs[..i];
      }
      RunStaysValid(front);
      ValidUnlessStolen(Run(front), cs[|cs| - 1]);
    }
  }

  /** The restriction is needed: two users with one e-mail, the later one deleted, and the
      lookup misses the one who still has it. */
  lemma ReuseHidesUser(a: Id, b: Id, email: string)
    requires a != b
    ensures var s := Run([DoPutUser(User(a, email, "")), DoPutUser(User(b, email, "")), DoDeleteUser(b)]).accounts;
            a in s.users && s.users[a].email == email && email !in s.usersByEmail
  {
    var first, second, third := DoPutUser(User(a, email, "")), DoPutUser(User(b, email, "")), DoDeleteUser(b);
    var cs := [first, second, third];
    assert cs[..2] == [first, second] && cs[..2][..1] == [first] && cs[..2][..1][..0] == [];
    var s0 := EMPTY.accounts;
    var s1, s2 := PutUser(s0, first.u), PutUser(PutUser(s0, first.u), second.u);
    assert Run([first]).accounts == s1 && Run([first, second]).accounts == s2;
    assert a in s1.users && b !in s1.users && s2.users[b].email == email;
  }

  // ---------- rings and the idempotency window ----------

  /** What one command makes of the history of a ring: it grows, or a restore replaces it. */
  function EventsAfter(log: seq<Event>, c: Command): seq<Event> {
    match c
    case DoAppendEvents(es) => log + es
    case DoRestore(snap) => snap.events
    case _ => log
  }

  function AuditAfter(log: seq<Event>, c: Command): seq<Event> {
    match c
    case DoAppendAudit(es) => log + es
    case DoRestore(snap) => snap.audit
    case _ => log
  }

  /** Among the last 8192. */
  predicate Recent(log: seq<string>, r: string) {
    exists i :: 0 <= i < |log| && i >= |log| - 8192 && log[i] == r
  }

  lemma RecentIsLast(log: seq<string>, r: string)
    ensures Recent(log, r) <==> r in Last(APPLIED_RING_CAP, log)
  {
    var tail := Last(APPLIED_RING_CAP, log);
    if i :| 0 <= i < |log| && i >= |log| - 8192 && log[i] == r {
      assert tail[i - (|log| - |tail|)] == r;
    }
    if j :| 0 <= j < |tail| && tail[j] == r {
      assert log[|log| - |tail| + j] == r;
    }
  }

  /** A request id is accepted unless it is among the last 8192 accepted. */
  function AcceptedAfter(log: seq<string>, c: Command): seq<string> {
    match c
    case DoMarkApplied(r) => if Recent(log, r) then log else log + [r]
    case DoRestore(snap) => snap.applied
    case _ => log
  }

  function EventLog(cs: seq<Command>): seq<Event> {
    if cs == [] then [] else EventsAfter(EventLog(cs[..|cs| - 1]), cs[|cs| - 1])
  }

  function AuditLog(cs: seq<Command>): seq<Event> {
    if cs == [] then [] else AuditAfter(AuditLog(cs[..|cs| - 1]), cs[|cs| - 1])
  }

  function AcceptedLog(cs: seq<Command>): seq<string> {
    if cs == [] then [] else AcceptedAfter(AcceptedLog(cs[..|cs| - 1]), cs[|cs| - 1])
  }

  lemma LastOfLast<T>(cap: nat, s: seq<T>, t: seq<T>)
    ensures Last(cap, Last(cap, s) + t) == Last(cap, s + t)
  {
  }

  lemma RestoredRingsFit(c: Command)
    requires c.DoRestore? && Genuine(c)
    ensures |c.snap.events| <= EVENT_RING_CAP && |c.snap.audit| <= AUDIT_RING_CAP &&
            |c.snap.applied| <= APPLIED_RING_CAP
  {
  }

  lemma RingsUntouched(s: State, c: Command)
    requires !c.DoAppendEvents? && !c.DoAppendAudit? && !c.DoMarkApplied? && !c.DoRestore?
    ensures Do(s, c).rings == s.rings
  {
  }

  lemma EventStep(s: State, c: Command, log: seq<Event>)
    requires Genuine(c) && s.rings.events == Last(EVENT_RING_CAP, log)
    ensures Do(s, c).rings.events == Last(EVENT_RING_CAP, EventsAfter(log, c))
  {
    match c
    case DoAppendEvents(es) => LastOfLast(EVENT_RING_CAP, log, es);
    case DoRestore(snap) => RestoredRingsFit(c);
    case DoAppendAudit(_) =>
    case DoMarkApplied(_) =>
    case _ => RingsUntouched(s, c);
  }

  lemma AuditStep(s: State, c: Command, log: seq<Event>)
    requires Genuine(c) && s.rings.audit == Last(AUDIT_RING_CAP, log)
    ensures Do(s, c).rings.audit == Last(AUDIT_RING_CAP, AuditAfter(log, c))
  {
    match c
    case DoAppendAudit(es) => LastOfLast(AUDIT_RING_CAP, log, es);
    case DoRestore(snap) => RestoredRingsFit(c);
    case DoAppendEvents(_) =>
    case DoMarkApplied(_) =>
    case _ => RingsUntouched(s, c);
  }

  lemma AcceptedStep(s: State, c: Command, log: seq<string>)
    requires Genuine(c) && RingsInv(s.rings) && s.rings.applied == Last(APPLIED_RING_CAP, log)
    ensures Do(s, c).rings.applied == Last(APPLIED_RING_CAP, AcceptedAfter(log, c))
  {
    match c
    case DoMarkApplied(r) => LastOfLast(APPLIED_RING_CAP, log, [r]); RecentIsLast(log, r);
    case DoRestore(snap) => RestoredRingsFit(c);
    case DoAppendEvents(_) =>
    case DoAppendAudit(_) =>
    case _ => RingsUntouched(s, c);
  }

  lemma {:induction false} RingsAreLast(cs: seq<Command>)
    requires AllGenuine(cs)
    ensures Run(cs).rings.events == Last(EVENT_RING_CAP, EventLog(cs))
    ensures Run(cs).rings.audit == Last(AUDIT_RING_CAP, AuditLog(cs))
    ensures Run(cs).rings.applied == Last(APPLIED_RING_CAP, AcceptedLog(cs))
  {
    hide Do, EventsAfter, AuditAfter, AcceptedAfter;
    if cs != [] {
      var front, c := cs[..|cs| - 1], cs[|cs| - 1];
      RingsAreLast(front);
      RunKeepsInv(front);
      EventStep(Run(front), c, EventLog(front));
      AuditStep(Run(front), c, AuditLog(front));
      AcceptedStep(Run(front), c, AcceptedLog(front));
    }
  }

  /** `ring` is the end of `log`, as long as `cap` allows. */
  ghost predicate IsTail<T>(ring: seq<T>, log: seq<T>, cap: nat) {
    |ring| == (if |log| < cap then |log| else cap) && forall i :: 0 <= i < |ring| ==> ring[i] == log[|log| - |ring| + i]
  }

  /** Over every run each ring holds exactly the newest entries of its history, in append
      order, up to its capacity: 10000 events, 50000 audit entries, 8192 request ids. */
  lemma RingsAreNewest(cs: seq<Command>)
    requires AllGenuine(cs)
    ensures IsTail(Run(cs).rings.events, EventLog(cs), 10_000)
    ensures IsTail(Run(cs).rings.audit, AuditLog(cs), 50_000)
    ensures IsTail(Run(cs).rings.applied, AcceptedLog(cs), 8_192)
  {
    RingsAreLast(cs);
  }

  /** `MarkApplied` refuses exactly the ids among the last 8192 accepted. */
  lemma WindowIsExact(cs: seq<Command>, request: string)
    requires AllGenuine(cs)
    ensures request in Run(cs).rings.appliedSet <==> Recent(AcceptedLog(cs), request)
  {
    hide Do;
    RingsAreLast(cs);
    RunKeepsInv(cs);
    RecentIsLast(AcceptedLog(cs), request);
  }
}
