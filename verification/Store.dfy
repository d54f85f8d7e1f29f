/** The replicated state store: its mutable fields and every method that changes them,
    proved against the commands of the value model. */
module Store {
  import opened IdOrder
  import opened Options
  import opened Sequences
  import opened StorePublish
  import opened StoreRuns
  import opened StoreState
  import opened WatchHub

  datatype KvResult = Written(version: nat) | Deleted | Conflict

  lemma MissingIsAbsent<V>(objects: map<Id, V>, index: map<string, Id>, field: V -> string, f: string)
    ensures IndexAgrees(objects, index, field) && f !in index ==> forall id :: id in objects ==> field(objects[id]) != f
  {
    if IndexAgrees(objects, index, field) && f !in index {
      forall id | id in objects ensures field(objects[id]) != f {
        assert !Finds(index, f, id);
      }
    }
  }

  // The commands spelled out in groups, so that a method's proof sees only its own.

  lemma UserCommands(s: State, u: User, id: Id)
    ensures Do(s, DoPutUser(u)) == s.(accounts := PutUser(s.accounts, u)) &&
            Published(s, DoPutUser(u)) == {Change(KindUser, u.id)}
    ensures TouchCount(s, DoPutUser(u)) == 1
    ensures Do(s, DoDeleteUser(id)) == s.(accounts := DeleteUser(s.accounts, id)) &&
            Published(s, DoDeleteUser(id)) == Only(KindUser, id, id in s.accounts.users)
    ensures TouchCount(s, DoDeleteUser(id)) == Once(id in s.accounts.users)
  {
  }

  lemma TokenCommands(s: State, t: Token, id: Id)
    ensures Do(s, DoPutToken(t)) == s.(accounts := PutToken(s.accounts, t)) &&
            Published(s, DoPutToken(t)) == {Change(KindToken, t.id)}
    ensures TouchCount(s, DoPutToken(t)) == 1
    ensures Do(s, DoDeleteToken(id)) == s.(accounts := DeleteToken(s.accounts, id)) &&
            Published(s, DoDeleteToken(id)) == Only(KindToken, id, id in s.accounts.tokens)
    ensures TouchCount(s, DoDeleteToken(id)) == Once(id in s.accounts.tokens)
  {
  }

  lemma ProjectCommands(s: State, p: Project, id: Id)
    ensures Do(s, DoPutProject(p)) == s.(projects := PutProject(s.projects, p)) &&
            Published(s, DoPutProject(p)) == {Change(KindProject, p.id)}
    ensures TouchCount(s, DoPutProject(p)) == 1
    ensures Do(s, DoDeleteProject(id)) == s.(projects := DeleteProject(s.projects, id)) &&
            Published(s, DoDeleteProject(id)) == Only(KindProject, id, id in s.projects.projects)
    ensures TouchCount(s, DoDeleteProject(id)) == Once(id in s.projects.projects)
  {
  }

  lemma MemberCommands(s: State, m: Member, p: Id, u: Id)
    ensures Do(s, DoPutMember(m)) == s.(projects := PutMember(s.projects, m)) &&
            Published(s, DoPutMember(m)) == {Change(KindProjectMember, MemberKey(m.projectId, m.userId))}
    ensures TouchCount(s, DoPutMember(m)) == 1
    ensures Do(s, DoDeleteMember(p, u)) == s.(projects := DeleteMember(s.projects, p, u)) &&
            Published(s, DoDeleteMember(p, u)) ==
              Only(KindProjectMember, MemberKey(p, u), u in MapAt(s.projects.members, p))
    ensures TouchCount(s, DoDeleteMember(p, u)) == Once(u in MapAt(s.projects.members, p))
  {
  }

  lemma EnvVarCommand(s: State, e: Id, sets: map<string, string>, unsets: set<string>)
    ensures Do(s, DoSetEnvVars(e, sets, unsets)) == s.(projects := SetEnvVars(s.projects, e, sets, unsets)) &&
            Published(s, DoSetEnvVars(e, sets, unsets)) == {Change(KindEnvVar, e)}
    ensures TouchCount(s, DoSetEnvVars(e, sets, unsets)) == 1
  {
  }

  lemma AssignmentCommands(s: State, list: seq<Assignment>, ids: seq<Id>)
    ensures Do(s, DoPutAssignments(list)) == s.(placement := PutAssignments(s.placement, list)) &&
            Published(s, DoPutAssignments(list)) == Touches(KindAssignment, AssignmentIds(list))
    ensures TouchCount(s, DoPutAssignments(list)) == |list|
    ensures Do(s, DoDeleteAssignments(ids)) == s.(placement := DeleteAssignments(s.placement, ids)) &&
            Published(s, DoDeleteAssignments(ids)) ==
              Touches(KindAssignment, Elements(ids) * s.placement.assignments.Keys)
    ensures TouchCount(s, DoDeleteAssignments(ids)) == |Elements(ids) * s.placement.assignments.Keys|
  {
  }

  lemma ObservedCommand(s: State, n: Id, batch: map<Id, Observed>)
    ensures Do(s, DoSetObserved(n, batch)) == s.(placement := SetObserved(s.placement, n, batch)) &&
            Published(s, DoSetObserved(n, batch)) == Touches(KindAssignment, Accepted(s.placement, n, batch))
    ensures TouchCount(s, DoSetObserved(n, batch)) == |Accepted(s.placement, n, batch)|
  {
  }

  lemma DomainCommands(s: State, d: Domain, id: Id)
    ensures Do(s, DoPutDomain(d)) == s.(domains := PutDomain(s.domains, d)) &&
            Published(s, DoPutDomain(d)) == {Change(KindDomain, d.id)}
    ensures TouchCount(s, DoPutDomain(d)) == 1
    ensures Do(s, DoDeleteDomain(id)) == s.(domains := DeleteDomain(s.domains, id)) &&
            Published(s, DoDeleteDomain(id)) == Only(KindDomain, id, id in s.domains.domains)
    ensures TouchCount(s, DoDeleteDomain(id)) == Once(id in s.domains.domains)
  {
  }

  lemma KvCommands(s: State, k: string, v: string, expected: int, expiresAt: int)
    ensures Do(s, DoPutKv(k, v, expected, expiresAt)) == s.(kv := PutKv(s.kv, k, v, expected, expiresAt)) &&
            Published(s, DoPutKv(k, v, expected, expiresAt)) == Only(KindKV, k, !KvConflict(s.kv, k, expected))
    ensures TouchCount(s, DoPutKv(k, v, expected, expiresAt)) == Once(!KvConflict(s.kv, k, expected))
    ensures Do(s, DoDeleteKv(k, expected)) == s.(kv := DeleteKv(s.kv, k, expected)) &&
            Published(s, DoDeleteKv(k, expected)) == Only(KindKV, k, k in s.kv && !KvConflict(s.kv, k, expected))
    ensures TouchCount(s, DoDeleteKv(k, expected)) == Once(k in s.kv && !KvConflict(s.kv, k, expected))
  {
  }

  lemma RingCommands(s: State, es: seq<Event>, request: string)
    ensures Do(s, DoAppendEvents(es)) == s.(rings := AppendEvents(s.rings, es)) &&
            Published(s, DoAppendEvents(es)) == Touches(KindEvent, EventIds(es))
    ensures TouchCount(s, DoAppendEvents(es)) == |es|
    ensures Do(s, DoAppendAudit(es)) == s.(rings := AppendAudit(s.rings, es)) &&
            Published(s, DoAppendAudit(es)) == {Change(KindEvent, "audit")}
    ensures TouchCount(s, DoAppendAudit(es)) == 1
    ensures Do(s, DoMarkApplied(request)) == s.(rings := MarkApplied(s.rings, request)) &&
            Published(s, DoMarkApplied(request)) == {}
    ensures TouchCount(s, DoMarkApplied(request)) == 0
  {
  }

  lemma RestoreCommand(s: State, snap: Snapshot)
    ensures Do(s, DoRestore(snap)) == Restored(snap) && Published(s, DoRestore(snap)) == Stars(ALL_KINDS)
    ensures TouchCount(s, DoRestore(snap)) == |ALL_KINDS|
  {
  }

  lemma NothingObserved(s: Placement, nodeId: Id)
    ensures SetObserved(s, nodeId, map[]) == s
  {
    assert SetObserved(s, nodeId, map[]).assignments == s.assignments;
  }

  lemma OneMoreObserved(s: Placement, nodeId: Id, batch: map<Id, Observed>, left: set<Id>, id: Id)
    requires left <= batch.Keys && id in left
    ensures var t, accepted := SetObserved(s, nodeId, batch - left), Accepted(s, nodeId, batch - left);
            && Accepts(t, nodeId, id) == Accepts(s, nodeId, id)
            && SetObserved(s, nodeId, batch - (left - {id})) ==
               (if Accepts(s, nodeId, id)
                 then t.(assignments := t.assignments[id := Observe(t.assignments[id], batch[id])]) else t)
            && Accepted(s, nodeId, batch - (left - {id})) == accepted + (if Accepts(s, nodeId, id) then {id} else {})
  {
    hide Observe;
    var t, t' := SetObserved(s, nodeId, batch - left), SetObserved(s, nodeId, batch - (left - {id}));
    if Accepts(s, nodeId, id) {
      assert t'.assignments == t.assignments[id := Observe(t.assignments[id], batch[id])];
    } else {
      assert t'.assignments == t.assignments;
    }
  }

  /** The known ids among the first `n`. */
  function Gone(ids: seq<Id>, n: nat, present: set<Id>): set<Id>
    requires n <= |ids|
  {
    Elements(ids[..n]) * present
  }

  lemma {:induction false} NextGone(s: Placement, ids: seq<Id>, i: nat, present: set<Id>)
    requires i < |ids| && present == s.assignments.Keys
    ensures var found := ids[i] in StoreState.DeleteAssignments(s, ids[..i]).assignments;
            && Gone(ids, i + 1, present) == Gone(ids, i, present) + (if found then {ids[i]} else {})
            && |Gone(ids, i + 1, present)| == |Gone(ids, i, present)| + Once(found)
  {
    DeletedAssignments(s, ids[..i]);
    assert ids[..i + 1] == ids[..i] + [ids[i]];
    if ids[i] in present && ids[i] !in ids[..i] {
      assert Gone(ids, i + 1, present) == Gone(ids, i, present) + {ids[i]};
    } else {
      assert Gone(ids, i + 1, present) == Gone(ids, i, present);
    }
  }

  lemma GoneEnds(ids: seq<Id>, present: set<Id>)
    ensures Gone(ids, 0, present) == {} && Gone(ids, |ids|, present) == Elements(ids) * present
  {
    assert ids[..|ids|] == ids;
  }

  lemma NoneTouched(kind: Kind, ids: set<Id>)
    ensures Touches(kind, ids) == {} <==> ids == {}
  {
    if id :| id in ids {
      assert Change(kind, id) in Touches(kind, ids);
    }
  }

  lemma GrowValues<K, V>(items: seq<V>, m: map<K, V>, left: set<K>, k: K, key: V -> K)
    requires left <= m.Keys && k in left && key(m[k]) == k
    requires Enumerates(items, m - left, key)
    ensures Enumerates(items + [m[k]], m - (left - {k}), key)
  {
    var all, m' := items + [m[k]], m - (left - {k});
    forall k' | k' in m' ensures m'[k'] in all && key(m'[k']) == k' {
      if k' == k {
        assert all[|items|] == m[k];
      } else {
        assert (m - left)[k'] in items;
      }
    }
  }

  /** The members of two groups listed one after the other. */
  lemma GrowNestedCovers<K, L, V>(items: seq<V>, one: seq<V>, m: map<K, map<L, V>>, left: set<K>, k: K, outer: V -> K,
        inner: V -> L)
    requires left <= m.Keys && k in left
    requires EnumeratesNested(items, m - left, outer, inner) && Enumerates(one, m[k], inner)
    requires forall l :: l in m[k] ==> outer(m[k][l]) == k
    ensures forall k', l :: k' in m - (left - {k}) && l in m[k'] ==>
              m[k'][l] in items + one && outer(m[k'][l]) == k' && inner(m[k'][l]) == l
  {
    forall k', l | k' in m - (left - {k}) && l in m[k']
      ensures m[k'][l] in items + one && outer(m[k'][l]) == k' && inner(m[k'][l]) == l
    {
      if k' == k {
        assert m[k][l] in one;
      } else {
        assert (m - left)[k'][l] in items;
      }
    }
  }

  lemma GrowNestedMembers<K, L, V>(items: seq<V>, one: seq<V>, m: map<K, map<L, V>>, left: set<K>, k: K, outer: V -> K,
        inner: V -> L)
    requires left <= m.Keys && k in left
    requires EnumeratesNested(items, m - left, outer, inner) && Enumerates(one, m[k], inner)
    requires forall l :: l in m[k] ==> outer(m[k][l]) == k
    ensures forall x :: x in items ==>
              outer(x) in m - (left - {k}) && outer(x) != k && inner(x) in m[outer(x)] && m[outer(x)][inner(x)] == x
    ensures forall x :: x in one ==> outer(x) == k && inner(x) in m[k] && m[k][inner(x)] == x
  {
    forall x | x in items ensures outer(x) in m - left && inner(x) in m[outer(x)] && m[outer(x)][inner(x)] == x {
      assert (m - left)[outer(x)] == m[outer(x)];
    }
  }

  lemma GrowNested<K, L, V>(items: seq<V>, one: seq<V>, m: map<K, map<L, V>>, left: set<K>, k: K, outer: V -> K,
        inner: V -> L)
    requires left <= m.Keys && k in left
    requires forall l :: l in m[k] ==> outer(m[k][l]) == k
    requires EnumeratesNested(items, m - left, outer, inner) && Enumerates(one, m[k], inner)
    ensures EnumeratesNested(items + one, m - (left - {k}), outer, inner)
  {
    GrowNestedCovers(items, one, m, left, k, outer, inner);
    GrowNestedMembers(items, one, m, left, k, outer, inner);
    var all := items + one;
    forall i, j | 0 <= i < j < |all| ensures outer(all[i]) != outer(all[j]) || inner(all[i]) != inner(all[j]) {
      if i < |items| <= j {
        assert all[i] in items && all[j] in one;
      }
    }
  }

  // ---------- what every subscriber has been offered ----------

  ghost predicate Offers(before: map<Subscription, Sub>, after: map<Subscription, Sub>, cs: set<Change>) {
    before.Keys == after.Keys && forall sub :: sub in before ==> after[sub] == OfferedAll(before[sub], cs)
  }

  lemma OffersNothing(views: map<Subscription, Sub>)
    ensures Offers(views, views, {})
  {
  }

  lemma OffersMore(start: map<Subscription, Sub>, mid: map<Subscription, Sub>, now: map<Subscription, Sub>,
        cs: set<Change>, ds: set<Change>)
    requires Offers(start, mid, cs) && Offers(mid, now, ds)
    ensures Offers(start, now, cs + ds)
  {
    forall sub | sub in start ensures now[sub] == OfferedAll(start[sub], cs + ds) {
      OfferedTwice(start[sub], cs, ds);
    }
  }

  lemma OffersNoMore(start: map<Subscription, Sub>, mid: map<Subscription, Sub>, now: map<Subscription, Sub>,
        cs: set<Change>)
    requires Offers(start, mid, cs) && Offers(mid, now, {})
    ensures Offers(start, now, cs)
  {
    OffersMore(start, mid, now, cs, {});
    assert cs + {} == cs;
  }

  lemma TouchesMore(kind: Kind, ids: set<Id>, id: Id)
    ensures Touches(kind, ids + {id}) == Touches(kind, ids) + {Change(kind, id)}
  {
  }

  lemma NodeListIs(s: State, nodeId: Id)
    requires PlacementInv(s.placement)
    ensures var ids, m := SetAt(s.placement.byNode, nodeId), s.placement.assignments;
            && (forall id :: id in ids ==> id in m && m[id].id == id)
            && (forall a :: a in NodeList(s, nodeId) <==> a.id in ids && m[a.id] == a)
  {
    var ids, m := SetAt(s.placement.byNode, nodeId), s.placement.assignments;
    forall id ensures id in ids <==> id in m && m[id].nodeId == nodeId {
      assert id in ids <==> id in m && AssignmentNode(m[id]) == nodeId;
    }
    forall id | id in m ensures m[id].id == id {
      assert AssignmentId(m[id]) == id;
    }
  }

  class Store {
    var version: nat
    var users: map<Id, User>
    var usersByEmail: map<string, Id>
    var projects: map<Id, Project>
    var projectMembers: map<Id, map<Id, Member>>
    var envVars: map<Id, map<string, EnvVar>>
    var assignments: map<Id, Assignment>
    var assignmentsByNode: map<Id, set<Id>>
    var tokens: map<Id, Token>
    var tokensByHash: map<string, Id>
    var domains: map<Id, Domain>
    var domainsByHostname: map<string, set<Id>>
    var kv: map<string, Kv>
    var events: seq<Event>
    var audit: seq<Event>
    var appliedRequests: seq<string>
    var appliedSet: set<string>
    const hub: Hub

    function View(): State
      reads this
    {
      State(
        Accounts(users, usersByEmail, tokens, tokensByHash),
        Projects(projects, projectMembers, envVars),
        Stored(),
        Domains(domains, domainsByHostname),
        kv,
        Rings(events, audit, appliedRequests, appliedSet))
    }

    ghost predicate Valid()
      reads this
    {
      Inv(View())
    }

    ghost function Views(): (views: map<Subscription, Sub>)
      reads hub, hub.subs
    {
      map sub | sub in hub.subs :: sub.View()
    }

    /** Every subscription has been offered these changes, over `n` calls of `touch`. */
    twostate predicate Announced(cs: set<Change>, n: nat)
      reads this, hub, hub.subs
    {
      && Offers(old(Views()), Views(), cs)
      && version == old(version) + n
    }

    /** The method did exactly what the command says, and announced it. */
    twostate predicate Did(c: Command)
      reads this, hub, hub.subs
    {
      View() == Do(old(View()), c) && Announced(Published(old(View()), c), TouchCount(old(View()), c))
    }

    /** What any method does keeps a valid store valid. */
    twostate lemma {:induction false} StaysValid(c: Command)
      requires old(Valid()) && Genuine(c) && Did(c)
      ensures Valid()
    {
      DoKeepsInv(old(View()), c);
    }

    constructor ()
      ensures Valid() && View() == EMPTY && version == 0 && fresh(hub) && hub.subs == {}
    {
      version := 0;
      users, usersByEmail, projects, projectMembers, envVars := map[], map[], map[], map[], map[];
      assignments, assignmentsByNode, tokens, tokensByHash := map[], map[], map[], map[];
      domains, domainsByHostname, kv := map[], map[], map[];
      events, audit, appliedRequests, appliedSet := [], [], [], {};
      hub := new Hub();
      new;
      RunKeepsInv([]);
    }

    /** `touch`. */
    method Touch(kind: Kind, id: Id)
      modifies this`version, hub.subs
      ensures Announced({Change(kind, id)}, 1)
    {
      version := version + 1;
      ghost var start := Views();
      hub.Publish(Change(kind, id));
      forall sub | sub in hub.subs ensures sub.View() == OfferedAll(start[sub], {Change(kind, id)}) {
        OfferedOneMore(start[sub], {}, Change(kind, id));
      }
    }

    method PutUser(u: User)
      modifies this, hub.subs
      ensures Did(DoPutUser(u))
    {
      hide Do, Published, TouchCount, OfferedAll, Offers, Views;
      UserCommands(View(), u, "");
      if u.id in users {
        usersByEmail := usersByEmail - {users[u.id].email};
      }
      users := users[u.id := u];
      usersByEmail := usersByEmail[u.email := u.id];
      Touch(KindUser, u.id);
    }

    method DeleteUser(id: Id)
      modifies this, hub.subs
      ensures Did(DoDeleteUser(id))
    {
      hide Do, Published, TouchCount, OfferedAll, Offers, Views;
      UserCommands(View(), User("", "", ""), id);
      if id in users {
        usersByEmail := usersByEmail - {users[id].email};
        users := users - {id};
        Touch(KindUser, id);
      } else {
        OffersNothing(Views());
      }
    }

    method PutToken(t: Token)
      modifies this, hub.subs
      ensures Did(DoPutToken(t))
    {
      hide Do, Published, TouchCount, OfferedAll, Offers, Views;
      TokenCommands(View(), t, "");
      if t.id in tokens {
        tokensByHash := tokensByHash - {tokens[t.id].hash};
      }
      tokens := tokens[t.id := t];
      tokensByHash := tokensByHash[t.hash := t.id];
      Touch(KindToken, t.id);
    }

    method DeleteToken(id: Id)
      modifies this, hub.subs
      ensures Did(DoDeleteToken(id))
    {
      hide Do, Published, TouchCount, OfferedAll, Offers, Views;
      TokenCommands(View(), Token("", "", ""), id);
      if id in tokens {
        tokensByHash := tokensByHash - {tokens[id].hash};
        tokens := tokens - {id};
        Touch(KindToken, id);
      } else {
        OffersNothing(Views());
      }
    }

    /** Whatever was put, the token found has the hash; while no hash was ever reused, a token
        is found exactly when one has it. */
    function TokenByHash(hash: string): (found: Option<Token>)
      requires Valid()
      reads this
      ensures found.Some? ==>
                found.value.id in tokens && tokens[found.value.id] == found.value && found.value.hash == hash
      ensures AccountsAgree(View().accounts) && found.None? ==> forall id :: id in tokens ==> tokens[id].hash != hash
    {
      MissingIsAbsent(tokens, tokensByHash, TokenHash, hash);
      if hash !in tokensByHash then None else Some(tokens[tokensByHash[hash]])
    }

    function UserByEmail(email: string): (found: Option<User>)
      requires Valid()
      reads this
      ensures found.Some? ==>
                found.value.id in users && users[found.value.id] == found.value && found.value.email == email
      ensures AccountsAgree(View().accounts) && found.None? ==> forall id :: id in users ==> users[id].email != email
    {
      MissingIsAbsent(users, usersByEmail, UserEmail, email);
      if email !in usersByEmail then None else Some(users[usersByEmail[email]])
    }

    method PutProject(p: Project)
      modifies this, hub.subs
      ensures Did(DoPutProject(p))
    {
      hide Do, Published, TouchCount, OfferedAll, Offers, Views;
      ProjectCommands(View(), p, "");
      projects := projects[p.id := p];
      Touch(KindProject, p.id);
    }

    method DeleteProject(id: Id)
      modifies this, hub.subs
      ensures Did(DoDeleteProject(id))
    {
      hide Do, Published, TouchCount, OfferedAll, Offers, Views;
      ProjectCommands(View(), Project("", ""), id);
      if id in projects {
        projects := projects - {id};
        projectMembers := projectMembers - {id};
        Touch(KindProject, id);
      } else {
        OffersNothing(Views());
      }
    }

    method PutProjectMember(m: Member)
      modifies this, hub.subs
      ensures Did(DoPutMember(m))
    {
      hide Do, Published, TouchCount, OfferedAll, Offers, Views;
      MemberCommands(View(), m, "", "");
      var byUser := if m.projectId in projectMembers then projectMembers[m.projectId] else map[];
      projectMembers := projectMembers[m.projectId := byUser[m.userId := m]];
      Touch(KindProjectMember, MemberKey(m.projectId, m.userId));
    }

    method DeleteProjectMember(projectId: Id, userId: Id)
      modifies this, hub.subs
      ensures Did(DoDeleteMember(projectId, userId))
    {
      hide Do, Published, TouchCount, OfferedAll, Offers, Views;
      MemberCommands(View(), Member("", "", ""), projectId, userId);
      if projectId in projectMembers && userId in projectMembers[projectId] {
        projectMembers := projectMembers[projectId := projectMembers[projectId] - {userId}];
        Touch(KindProjectMember, MemberKey(projectId, userId));
      } else {
        DeleteMemberQuiet(View().projects, projectId, userId);
        OffersNothing(Views());
      }
    }

    method SetEnvVars(envId: Id, sets: map<string, string>, unsets: seq<string>)
      modifies this, hub.subs
      ensures Did(DoSetEnvVars(envId, sets, Elements(unsets)))
    {
      hide Do, Published, TouchCount, OfferedAll, Offers, Views;
      EnvVarCommand(View(), envId, sets, Elements(unsets));
      var vars := WithVars(MapAt(envVars, envId), envId, sets);
      vars := WithoutVars(vars, unsets);
      envVars := envVars[envId := vars];
      Touch(KindEnvVar, envId);
    }

    /** The two loops of `SetEnvVars`; a map is ranged over in any order. */
    static method WithVars(vars0: map<string, EnvVar>, envId: Id, sets: map<string, string>)
      returns (vars: map<string, EnvVar>)
      ensures vars == vars0 + (map k | k in sets :: EnvVar(envId, k, sets[k]))
    {
      vars := vars0;
      var left := sets.Keys;
      while left != {}
        invariant left <= sets.Keys
        invariant vars == vars0 + (map k | k in sets && k !in left :: EnvVar(envId, k, sets[k]))
        decreases left
      {
        var k :| k in left;
        vars := vars[k := EnvVar(envId, k, sets[k])];
        left := left - {k};
      }
    }

    static method WithoutVars(vars0: map<string, EnvVar>, unsets: seq<string>) returns (vars: map<string, EnvVar>)
      ensures vars == vars0 - Elements(unsets)
    {
      vars := vars0;
      for i := 0 to |unsets|
        invariant vars == vars0 - Elements(unsets[..i])
      {
        vars := vars - {unsets[i]};
        assert Elements(unsets[..i + 1]) == Elements(unsets[..i]) + {unsets[i]};
      }
      assert unsets[..|unsets|] == unsets;
    }

    function Stored(): Placement
      reads this`assignments, this`assignmentsByNode
    {
      Placement(assignments, assignmentsByNode)
    }

    /** `putAssignmentLocked`. */
    method PutAssignmentLocked(a: Assignment)
      modifies this`version, this`assignments, this`assignmentsByNode, hub.subs
      ensures Stored() == PutAssignment(old(Stored()), a)
      ensures Announced({Change(KindAssignment, a.id)}, 1)
    {
      hide OfferedAll, Offers, Views;
      if a.id in assignments && assignments[a.id].nodeId != a.nodeId {
        var from := assignments[a.id].nodeId;
        if from in assignmentsByNode {
          assignmentsByNode := assignmentsByNode[from := assignmentsByNode[from] - {a.id}];
        }
      }
      assignments := assignments[a.id := a];
      if a.nodeId !in assignmentsByNode {
        assignmentsByNode := assignmentsByNode[a.nodeId := {}];
      }
      assignmentsByNode := assignmentsByNode[a.nodeId := assignmentsByNode[a.nodeId] + {a.id}];
      Touch(KindAssignment, a.id);
    }

    method PutAssignments(list: seq<Assignment>)
      modifies this`version, this`assignments, this`assignmentsByNode, hub.subs
      ensures Did(DoPutAssignments(list))
    {
      hide Do, Published, TouchCount, OfferedAll, Offers, Views, PutAssignment;
      AssignmentCommands(View(), list, []);
      ghost var start := Views();
      OffersNothing(start);
      NoneTouched(KindAssignment, {});
      assert AssignmentIds(list[..0]) == {};
      for i := 0 to |list|
        invariant version == old(version) + i
        invariant Stored() == StoreState.PutAssignments(old(Stored()), list[..i])
        invariant Offers(start, Views(), Touches(KindAssignment, AssignmentIds(list[..i])))
      {
        ghost var mid := Views();
        PutAssignmentLocked(list[i]);
        assert list[..i + 1][..i] == list[..i];
        assert AssignmentIds(list[..i + 1]) == AssignmentIds(list[..i]) + {list[i].id};
        TouchesMore(KindAssignment, AssignmentIds(list[..i]), list[i].id);
        OffersMore(start, mid, Views(), Touches(KindAssignment, AssignmentIds(list[..i])),
          {Change(KindAssignment, list[i].id)});
      }
      assert list[..|list|] == list;
    }

    /** Read through the index, then sorted by id. */
    method ListAssignmentsByNode(nodeId: Id) returns (out: seq<Assignment>)
      requires Valid()
      ensures InIdOrder(out, AssignmentId)
      ensures forall a :: a in out <==> a in NodeList(View(), nodeId)
    {
      out := [];
      var ids := SetAt(assignmentsByNode, nodeId);
      var left := ids;
      NodeListIs(View(), nodeId);
      while left != {}
        invariant left <= ids
        invariant forall a :: a in out <==> a.id in ids - left && assignments[a.id] == a
        invariant forall i, j :: 0 <= i < j < |out| ==> AssignmentId(out[i]) != AssignmentId(out[j])
        decreases left
      {
        var id :| id in left;
        out := out + [assignments[id]];
        left := left - {id};
      }
      SortedById(out, AssignmentId);
      out := SortById(out, AssignmentId);
    }

    /** One turn of the loop in `DeleteAssignments`. */
    method DropAssignment(id: Id)
      modifies this`version, this`assignments, this`assignmentsByNode, hub.subs
      ensures Stored() == DeleteAssignment(old(Stored()), id)
      ensures Announced(Only(KindAssignment, id, id in old(assignments)), Once(id in old(assignments)))
    {
      hide OfferedAll, Offers, Views;
      if id in assignments {
        var from := assignments[id].nodeId;
        if from in assignmentsByNode {
          assignmentsByNode := assignmentsByNode[from := assignmentsByNode[from] - {id}];
        }
        assignments := assignments - {id};
        Touch(KindAssignment, id);
      } else {
        OffersNothing(Views());
      }
    }

    /** The first `n` of `ids` have been dropped since the store was `was`. */
    ghost predicate Dropped(start: map<Subscription, Sub>, was: Placement, from: nat, ids: seq<Id>, n: nat)
      requires n <= |ids|
      reads this, hub, hub.subs
    {
      && version == from + |Gone(ids, n, was.assignments.Keys)|
      && Stored() == StoreState.DeleteAssignments(was, ids[..n])
      && Offers(start, Views(), Touches(KindAssignment, Gone(ids, n, was.assignments.Keys)))
    }

    method DropNext(ids: seq<Id>, i: nat, ghost start: map<Subscription, Sub>, ghost was: Placement, ghost from: nat)
      requires i < |ids| && Dropped(start, was, from, ids, i)
      modifies this`version, this`assignments, this`assignmentsByNode, hub.subs
      ensures Dropped(start, was, from, ids, i + 1)
    {
      hide OfferedAll, Offers, Views, DeleteAssignment, Gone, Touches;
      ghost var mid, gone := Views(), Gone(ids, i, was.assignments.Keys);
      NextGone(was, ids, i, was.assignments.Keys);
      ghost var found := ids[i] in assignments;
      DropAssignment(ids[i]);
      assert ids[..i + 1][..i] == ids[..i];
      if found {
        TouchesMore(KindAssignment, gone, ids[i]);
        OffersMore(start, mid, Views(), Touches(KindAssignment, gone), {Change(KindAssignment, ids[i])});
      } else {
        assert gone + {} == gone;
        OffersNoMore(start, mid, Views(), Touches(KindAssignment, gone));
      }
    }

    method DeleteAssignments(ids: seq<Id>)
      modifies this`version, this`assignments, this`assignmentsByNode, hub.subs
      ensures Did(DoDeleteAssignments(ids))
    {
      hide Do, Published, TouchCount, OfferedAll, Offers, Views, Gone, Touches;
      AssignmentCommands(View(), [], ids);
      ghost var start, was, from := Views(), Stored(), version;
      OffersNothing(start);
      NoneTouched(KindAssignment, {});
      GoneEnds(ids, assignments.Keys);
      for i := 0 to |ids|
        invariant Dropped(start, was, from, ids, i)
      {
        DropNext(ids, i, start, was, from);
      }
      assert ids[..|ids|] == ids;
    }

    /** One turn of the loop in `SetAssignmentObserved`. */
    method ObserveOne(nodeId: Id, id: Id, obs: Observed)
      modifies this`version, this`assignments, hub.subs
      ensures assignments == if Accepts(old(Stored()), nodeId, id)
                             then old(assignments)[id := Observe(old(assignments)[id], obs)] else old(assignments)
      ensures Announced(Only(KindAssignment, id, Accepts(old(Stored()), nodeId, id)),
                Once(Accepts(old(Stored()), nodeId, id)))
    {
      hide OfferedAll, Offers, Views;
      if id !in assignments || assignments[id].nodeId != nodeId {
        OffersNothing(Views());
        return;
      }
      var a, next := assignments[id], obs;
      if next.state == StateRunning {
        var cur := a.observed.state;
        if cur == StateHealthy || cur == StateUnhealthy {
          next := next.(state := cur);
        }
      }
      a := a.(observed := next);
      if |obs.ports| > 0 {
        a := a.(ports := obs.ports);
      }
      assignments := assignments[id := a];
      Touch(KindAssignment, id);
    }

    method SetAssignmentObserved(nodeId: Id, batch: map<Id, Observed>)
      modifies this`version, this`assignments, hub.subs
      ensures Did(DoSetObserved(nodeId, batch))
    {
      hide Do, Published, TouchCount, OfferedAll, Offers, Views, SetObserved, Observe;
      ObservedCommand(View(), nodeId, batch);
      ghost var start, was := Views(), Stored();
      OffersNothing(start);
      NoneTouched(KindAssignment, {});
      NothingObserved(was, nodeId);
      var left := batch.Keys;
      assert batch - left == map[] && Accepted(was, nodeId, map[]) == {};
      while left != {}
        invariant left <= batch.Keys
        invariant version == old(version) + |Accepted(was, nodeId, batch - left)|
        invariant Stored() == SetObserved(was, nodeId, batch - left)
        invariant Offers(start, Views(), Touches(KindAssignment, Accepted(was, nodeId, batch - left)))
        decreases left
      {
        ghost var mid := Views();
        var id :| id in left;
        OneMoreObserved(was, nodeId, batch, left, id);
        ghost var accepted := Accepts(was, nodeId, id);
        ObserveOne(nodeId, id, batch[id]);
        if accepted {
          TouchesMore(KindAssignment, Accepted(was, nodeId, batch - left), id);
          OffersMore(start, mid, Views(), Touches(KindAssignment, Accepted(was, nodeId, batch - left)),
            {Change(KindAssignment, id)});
        } else {
          assert Accepted(was, nodeId, batch - (left - {id})) == Accepted(was, nodeId, batch - left);
          OffersNoMore(start, mid, Views(), Touches(KindAssignment, Accepted(was, nodeId, batch - left)));
        }
        left := left - {id};
      }
      assert batch - left == batch;
    }

    method IndexDomain(d: Domain)
      modifies this`domainsByHostname
      ensures domainsByHostname == Indexed(old(domainsByHostname), d.hostname, d.id)
    {
      if d.hostname !in domainsByHostname {
        domainsByHostname := domainsByHostname[d.hostname := {}];
      }
      domainsByHostname := domainsByHostname[d.hostname := domainsByHostname[d.hostname] + {d.id}];
    }

    method UnindexDomain(d: Domain)
      modifies this`domainsByHostname
      ensures domainsByHostname == Unindexed(old(domainsByHostname), d.hostname, d.id)
    {
      if d.hostname !in domainsByHostname {
        return;
      }
      var ids := domainsByHostname[d.hostname] - {d.id};
      domainsByHostname := domainsByHostname[d.hostname := ids];
      if |ids| == 0 {
        domainsByHostname := domainsByHostname - {d.hostname};
      }
    }

    method PutDomain(d: Domain)
      modifies this`version, this`domains, this`domainsByHostname, hub.subs
      ensures Did(DoPutDomain(d))
    {
      hide Do, Published, TouchCount, OfferedAll, Indexed, Unindexed;
      DomainCommands(View(), d, "");
      if d.id in domains {
        UnindexDomain(domains[d.id]);
      }
      domains := domains[d.id := d];
      IndexDomain(d);
      Touch(KindDomain, d.id);
    }

    method DeleteDomain(id: Id)
      modifies this`version, this`domains, this`domainsByHostname, hub.subs
      ensures Did(DoDeleteDomain(id))
    {
      hide Do, Published, TouchCount, OfferedAll, Indexed, Unindexed;
      DomainCommands(View(), Domain("", "", ""), id);
      if id in domains {
        UnindexDomain(domains[id]);
        domains := domains - {id};
        Touch(KindDomain, id);
      } else {
        OffersNothing(Views());
      }
    }

    method PutKV(key: string, value: string, expected: int, expiresAt: int) returns (r: KvResult)
      modifies this`version, this`kv, hub.subs
      ensures Did(DoPutKv(key, value, expected, expiresAt))
      ensures var v := if key in old(kv) then old(kv)[key].version else 0;
              if expected < 0 || expected == v then
                r == Written(v + 1) && kv == old(kv)[key := Kv(key, value, v + 1, expiresAt)]
              else r == Conflict && kv == old(kv)
    {
      hide Do, Published, TouchCount, OfferedAll, Offers, Views;
      KvCommands(View(), key, value, expected, expiresAt);
      var present := key in kv;
      if expected >= 0 {
        var curVersion := if present then kv[key].version else 0;
        if curVersion != expected {
          OffersNothing(Views());
          return Conflict;
        }
      }
      var next := (if present then kv[key].version else 0) + 1;
      kv := kv[key := Kv(key, value, next, expiresAt)];
      Touch(KindKV, key);
      r := Written(next);
    }

    method DeleteKV(key: string, expected: int) returns (r: KvResult)
      modifies this`version, this`kv, hub.subs
      ensures Did(DoDeleteKv(key, expected))
      ensures r == if key in old(kv) && expected >= 0 && expected != old(kv)[key].version then Conflict else Deleted
      ensures r.Deleted? ==> key !in kv
    {
      hide Do, Published, TouchCount, OfferedAll, Offers, Views;
      KvCommands(View(), key, "", expected, 0);
      if key !in kv {
        OffersNothing(Views());
        return Deleted;
      }
      if expected >= 0 && kv[key].version != expected {
        OffersNothing(Views());
        return Conflict;
      }
      kv := kv - {key};
      Touch(KindKV, key);
      r := Deleted;
    }

    /** The loop of `AppendEvents`. */
    method AppendEach(es: seq<Event>)
      modifies this`version, this`events, hub.subs
      ensures events == old(events) + es && Announced(Touches(KindEvent, EventIds(es)), |es|)
    {
      hide OfferedAll, Offers, Views;
      ghost var start := Views();
      OffersNothing(start);
      NoneTouched(KindEvent, {});
      assert EventIds(es[..0]) == {};
      for i := 0 to |es|
        invariant version == old(version) + i
        invariant events == old(events) + es[..i]
        invariant Offers(start, Views(), Touches(KindEvent, EventIds(es[..i])))
      {
        ghost var mid := Views();
        events := events + [es[i]];
        Touch(KindEvent, es[i].id);
        assert EventIds(es[..i + 1]) == EventIds(es[..i]) + {es[i].id};
        TouchesMore(KindEvent, EventIds(es[..i]), es[i].id);
        OffersMore(start, mid, Views(), Touches(KindEvent, EventIds(es[..i])), {Change(KindEvent, es[i].id)});
      }
      assert es[..|es|] == es;
    }

    method AppendEvents(es: seq<Event>)
      modifies this`version, this`events, hub.subs
      ensures Did(DoAppendEvents(es))
    {
      hide Do, Published, TouchCount, OfferedAll, Offers, Views;
      RingCommands(View(), es, "");
      AppendEach(es);
      if |events| > EVENT_RING_CAP {
        events := events[|events| - EVENT_RING_CAP..];
      }
    }

    method AppendAudit(es: seq<Event>)
      modifies this`version, this`audit, hub.subs
      ensures Did(DoAppendAudit(es))
    {
      hide Do, Published, TouchCount, OfferedAll, Offers, Views;
      RingCommands(View(), es, "");
      audit := audit + es;
      if |audit| > AUDIT_RING_CAP {
        audit := audit[|audit| - AUDIT_RING_CAP..];
      }
      Touch(KindEvent, "audit");
    }

    /** True when the request had not been applied within the window. */
    method MarkApplied(request: string) returns (first: bool)
      modifies this`appliedRequests, this`appliedSet
      ensures Did(DoMarkApplied(request))
      ensures first == (request !in old(appliedSet))
    {
      hide Do, Published, TouchCount, OfferedAll, Offers, Views;
      RingCommands(View(), [], request);
      OffersNothing(Views());
      if request in appliedSet {
        return false;
      }
      appliedSet := appliedSet + {request};
      appliedRequests := appliedRequests + [request];
      var over := |appliedRequests| - APPLIED_RING_CAP;
      if over > 0 {
        Forget(over);
        appliedRequests := appliedRequests[over..];
      }
      first := true;
    }

    method Forget(over: nat)
      requires over <= |appliedRequests|
      modifies this`appliedSet
      ensures appliedSet == old(appliedSet) - Elements(appliedRequests[..over])
    {
      for i := 0 to over
        invariant appliedSet == old(appliedSet) - Elements(appliedRequests[..i])
      {
        appliedSet := appliedSet - {appliedRequests[i]};
        assert Elements(appliedRequests[..i + 1]) == Elements(appliedRequests[..i]) + {appliedRequests[i]};
      }
    }

    // ---------- snapshots ----------

    /** `cloneMapValues`: the values of a map, in any order. */
    static method Values<K(==), V>(m: map<K, V>, ghost key: V -> K) returns (items: seq<V>)
      requires forall k :: k in m ==> key(m[k]) == k
      ensures Enumerates(items, m, key)
    {
      items := [];
      var left := m.Keys;
      while left != {}
        invariant left <= m.Keys
        invariant Enumerates(items, m - left, key)
        decreases left
      {
        var k :| k in left;
        GrowValues(items, m, left, k, key);
        items := items + [m[k]];
        left := left - {k};
      }
      assert m - left == m;
    }

    static method NestedValues<K(==), L(==), V>(m: map<K, map<L, V>>, ghost outer: V -> K, ghost inner: V -> L)
      returns (items: seq<V>)
      requires forall k, l :: k in m && l in m[k] ==> outer(m[k][l]) == k && inner(m[k][l]) == l
      ensures EnumeratesNested(items, m, outer, inner)
    {
      items := [];
      var left := m.Keys;
      while left != {}
        invariant left <= m.Keys
        invariant EnumeratesNested(items, m - left, outer, inner)
        decreases left
      {
        var k :| k in left;
        var one := Values(m[k], inner);
        GrowNested(items, one, m, left, k, outer, inner);
        items := items + one;
        left := left - {k};
      }
      assert m - left == m;
    }

    method SnapshotProto() returns (snap: Snapshot)
      requires Valid()
      ensures Describes(snap, View())
    {
      var us := Values(users, UserId);
      var ps := Values(projects, ProjectId);
      var ms := NestedValues(projectMembers, MemberProject, MemberUser);
      var es := NestedValues(envVars, EnvVarEnv, EnvVarKey);
      var xs := Values(assignments, AssignmentId);
      var ts := Values(tokens, TokenId);
      var ds := Values(domains, DomainId);
      var ks := Values(kv, KvKey);
      snap := Snapshot(us, ps, ms, es, xs, ts, ds, ks, events, audit, appliedRequests);
    }

    /** `resetLocked`, in two halves: the version and the hub stay. */
    method ResetIdentities()
      modifies this`users, this`usersByEmail, this`tokens, this`tokensByHash, this`projects, this`projectMembers,
                 this`envVars
      ensures users == map[] && usersByEmail == map[] && tokens == map[] && tokensByHash == map[]
      ensures projects == map[] && projectMembers == map[] && envVars == map[]
    {
      users, usersByEmail, tokens, tokensByHash := map[], map[], map[], map[];
      projects, projectMembers, envVars := map[], map[], map[];
    }

    method ResetOthers()
      modifies this`assignments, this`assignmentsByNode, this`domains, this`domainsByHostname, this`kv
      modifies this`events, this`audit, this`appliedRequests, this`appliedSet
      ensures assignments == map[] && assignmentsByNode == map[] && domains == map[] && domainsByHostname == map[]
      ensures kv == map[] && events == [] && audit == [] && appliedRequests == [] && appliedSet == {}
    {
      assignments, assignmentsByNode, domains, domainsByHostname, kv := map[], map[], map[], map[], map[];
      events, audit, appliedRequests, appliedSet := [], [], [], {};
    }

    // The loops of `RestoreProto`, one collection each.

    method RestoreUsers(list: seq<User>)
      requires users == map[] && usersByEmail == map[]
      modifies this`users, this`usersByEmail
      ensures users == Refill(list, UserId) && usersByEmail == RefillIndex(list, UserEmail, UserId)
    {
      for i := 0 to |list|
        invariant users == Refill(list[..i], UserId) && usersByEmail == RefillIndex(list[..i], UserEmail, UserId)
      {
        assert list[..i + 1][..i] == list[..i];
        users := users[list[i].id := list[i]];
        usersByEmail := usersByEmail[list[i].email := list[i].id];
      }
      assert list[..|list|] == list;
    }

    method RestoreTokens(list: seq<Token>)
      requires tokens == map[] && tokensByHash == map[]
      modifies this`tokens, this`tokensByHash
      ensures tokens == Refill(list, TokenId) && tokensByHash == RefillIndex(list, TokenHash, TokenId)
    {
      for i := 0 to |list|
        invariant tokens == Refill(list[..i], TokenId) && tokensByHash == RefillIndex(list[..i], TokenHash, TokenId)
      {
        assert list[..i + 1][..i] == list[..i];
        tokens := tokens[list[i].id := list[i]];
        tokensByHash := tokensByHash[list[i].hash := list[i].id];
      }
      assert list[..|list|] == list;
    }

    method RestoreProjects(list: seq<Project>)
      requires projects == map[]
      modifies this`projects
      ensures projects == Refill(list, ProjectId)
    {
      for i := 0 to |list|
        invariant projects == Refill(list[..i], ProjectId)
      {
        assert list[..i + 1][..i] == list[..i];
        projects := projects[list[i].id := list[i]];
      }
      assert list[..|list|] == list;
    }

    method RestoreMembers(list: seq<Member>)
      requires projectMembers == map[]
      modifies this`projectMembers
      ensures projectMembers == RefillNested(list, MemberProject, MemberUser)
    {
      for i := 0 to |list|
        invariant projectMembers == RefillNested(list[..i], MemberProject, MemberUser)
      {
        assert list[..i + 1][..i] == list[..i];
        var m := list[i];
        var byUser := if m.projectId in projectMembers then projectMembers[m.projectId] else map[];
        projectMembers := projectMembers[m.projectId := byUser[m.userId := m]];
      }
      assert list[..|list|] == list;
    }

    method RestoreEnvVars(list: seq<EnvVar>)
      requires envVars == map[]
      modifies this`envVars
      ensures envVars == RefillNested(list, EnvVarEnv, EnvVarKey)
    {
      for i := 0 to |list|
        invariant envVars == RefillNested(list[..i], EnvVarEnv, EnvVarKey)
      {
        assert list[..i + 1][..i] == list[..i];
        var e := list[i];
        var vars := if e.envId in envVars then envVars[e.envId] else map[];
        envVars := envVars[e.envId := vars[e.key := e]];
      }
      assert list[..|list|] == list;
    }

    method RestoreAssignments(list: seq<Assignment>)
      requires assignments == map[] && assignmentsByNode == map[]
      modifies this`assignments, this`assignmentsByNode
      ensures assignments == Refill(list, AssignmentId) &&
              assignmentsByNode == RefillGroups(list, AssignmentNode, AssignmentId)
    {
      for i := 0 to |list|
        invariant assignments == Refill(list[..i], AssignmentId) &&
                  assignmentsByNode == RefillGroups(list[..i], AssignmentNode, AssignmentId)
      {
        assert list[..i + 1][..i] == list[..i];
        var a := list[i];
        assignments := assignments[a.id := a];
        var byNode := if a.nodeId in assignmentsByNode then assignmentsByNode[a.nodeId] else {};
        assignmentsByNode := assignmentsByNode[a.nodeId := byNode + {a.id}];
      }
      assert list[..|list|] == list;
    }

    method RestoreDomains(list: seq<Domain>)
      requires domains == map[] && domainsByHostname == map[]
      modifies this`domains, this`domainsByHostname
      ensures domains == Refill(list, DomainId) && domainsByHostname == RefillGroups(list, DomainHost, DomainId)
    {
      for i := 0 to |list|
        invariant domains == Refill(list[..i], DomainId) &&
                  domainsByHostname == RefillGroups(list[..i], DomainHost, DomainId)
      {
        assert list[..i + 1][..i] == list[..i];
        domains := domains[list[i].id := list[i]];
        IndexDomain(list[i]);
      }
      assert list[..|list|] == list;
    }

    method RestoreKv(list: seq<Kv>)
      requires kv == map[]
      modifies this`kv
      ensures kv == Refill(list, KvKey)
    {
      for i := 0 to |list|
        invariant kv == Refill(list[..i], KvKey)
      {
        assert list[..i + 1][..i] == list[..i];
        kv := kv[list[i].key := list[i]];
      }
      assert list[..|list|] == list;
    }

    method RestoreApplied(list: seq<string>)
      requires appliedSet == {}
      modifies this`appliedSet
      ensures appliedSet == Elements(list)
    {
      for i := 0 to |list|
        invariant appliedSet == Elements(list[..i])
      {
        assert list[..i + 1][..i] == list[..i];
        assert list[..i + 1] == list[..i] + [list[i]];
        appliedSet := appliedSet + {list[i]};
      }
      assert list[..|list|] == list;
    }

    method TouchAll(ghost start: map<Subscription, Sub>)
      requires Offers(start, Views(), {})
      modifies this`version, hub.subs
      ensures Offers(start, Views(), Stars(ALL_KINDS)) && version == old(version) + |ALL_KINDS|
    {
      hide OfferedAll, Offers, Views;
      assert Stars(ALL_KINDS[..0]) == {};
      for i := 0 to |ALL_KINDS|
        invariant version == old(version) + i
        invariant Offers(start, Views(), Stars(ALL_KINDS[..i]))
      {
        ghost var mid := Views();
        Touch(ALL_KINDS[i], "*");
        assert ALL_KINDS[..i + 1] == ALL_KINDS[..i] + [ALL_KINDS[i]];
        assert Stars(ALL_KINDS[..i + 1]) == Stars(ALL_KINDS[..i]) + {Change(ALL_KINDS[i], "*")};
        OffersMore(start, mid, Views(), Stars(ALL_KINDS[..i]), {Change(ALL_KINDS[i], "*")});
      }
      assert ALL_KINDS[..|ALL_KINDS|] == ALL_KINDS;
    }

    method RestoreIdentities(snap: Snapshot)
      requires users == map[] && usersByEmail == map[] && tokens == map[] && tokensByHash == map[]
      requires projects == map[] && projectMembers == map[] && envVars == map[]
      modifies this`users, this`usersByEmail, this`tokens, this`tokensByHash, this`projects, this`projectMembers,
                 this`envVars
      ensures Accounts(users, usersByEmail, tokens, tokensByHash) == Restored(snap).accounts
      ensures Projects(projects, projectMembers, envVars) == Restored(snap).projects
    {
      hide Refill, RefillIndex, RefillGroups, RefillNested, Elements;
      RestoreUsers(snap.users);
      RestoreProjects(snap.projects);
      RestoreMembers(snap.members);
      RestoreEnvVars(snap.envVars);
      RestoreTokens(snap.tokens);
    }

    method RestoreOthers(snap: Snapshot)
      requires assignments == map[] && assignmentsByNode == map[] && domains == map[] && domainsByHostname == map[]
      requires kv == map[] && events == [] && audit == [] && appliedRequests == [] && appliedSet == {}
      modifies this`assignments, this`assignmentsByNode, this`domains, this`domainsByHostname, this`kv
      modifies this`events, this`audit, this`appliedRequests, this`appliedSet
      ensures Stored() == Restored(snap).placement && Domains(domains, domainsByHostname) == Restored(snap).domains
      ensures kv == Restored(snap).kv && Rings(events, audit, appliedRequests, appliedSet) == Restored(snap).rings
    {
      hide Refill, RefillIndex, RefillGroups, RefillNested, Elements;
      RestoreAssignments(snap.assignments);
      RestoreDomains(snap.domains);
      RestoreKv(snap.kv);
      events, audit, appliedRequests := snap.events, snap.audit, snap.applied;
      RestoreApplied(appliedRequests);
    }

    method RestoreProto(snap: Snapshot)
      modifies this, hub.subs
      ensures Did(DoRestore(snap))
    {
      hide Do, Published, TouchCount, OfferedAll, Offers, Views, Restored;
      RestoreCommand(View(), snap);
      ghost var start := Views();
      OffersNothing(start);
      ResetIdentities();
      ResetOthers();
      RestoreIdentities(snap);
      RestoreOthers(snap);
      TouchAll(start);
      RestoreTouches();
    }
  }
}
