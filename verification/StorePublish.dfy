/** What each command announces to watchers, and that no change goes unannounced. */
module StorePublish {
  import opened Sequences
  import opened WatchHub
  import opened StoreState
  import opened StoreRuns

  const ALL_KINDS: seq<Kind> := [
    KindOrg, KindUser, KindProject, KindProjectMember, KindApp, KindEnvironment,
    KindEnvVar, KindRelease, KindDeployment, KindBuild, KindNode, KindJoinToken,
    KindAssignment, KindToken, KindDomain, KindKV, KindDNSProvider, KindVolume,
    KindVolumeSnapshot, KindBackup, KindNetworkAlloc, KindServiceVIP, KindJob,
    KindAlertRule, KindNotifyChannel, KindEvent, KindClusterKey
  ]

  function Stars(kinds: seq<Kind>): set<Change> {
    set k | k in kinds :: Change(k, "*")
  }

  function Touches(kind: Kind, ids: set<Id>): set<Change> {
    set id | id in ids :: Change(kind, id)
  }

  function Only(kind: Kind, id: Id, when: bool): set<Change> {
    if when then {Change(kind, id)} else {}
  }

  function MemberKey(projectId: Id, userId: Id): string {
    projectId + "/" + userId
  }

  function AssignmentIds(list: seq<Assignment>): set<Id> {
    set a | a in list :: a.id
  }

  function EventIds(es: seq<Event>): set<Id> {
    set e | e in es :: e.id
  }

  function Accepted(s: Placement, nodeId: Id, batch: map<Id, Observed>): set<Id> {
    set id | id in batch && Accepts(s, nodeId, id)
  }

  /** The changes a command publishes. */
  function Published(s: State, c: Command): set<Change> {
    match c
    case DoPutUser(u) => {Change(KindUser, u.id)}
    case DoDeleteUser(id) => Only(KindUser, id, id in s.accounts.users)
    case DoPutProject(p) => {Change(KindProject, p.id)}
    case DoDeleteProject(id) => Only(KindProject, id, id in s.projects.projects)
    case DoPutMember(m) => {Change(KindProjectMember, MemberKey(m.projectId, m.userId))}
    case DoDeleteMember(p, u) => Only(KindProjectMember, MemberKey(p, u), u in MapAt(s.projects.members, p))
    case DoSetEnvVars(e, _, _) => {Change(KindEnvVar, e)}
    case DoPutAssignments(list) => Touches(KindAssignment, AssignmentIds(list))
    case DoDeleteAssignments(ids) => Touches(KindAssignment, Elements(ids) * s.placement.assignments.Keys)
    case DoSetObserved(n, batch) => Touches(KindAssignment, Accepted(s.placement, n, batch))
    case DoPutToken(t) => {Change(KindToken, t.id)}
    case DoDeleteToken(id) => Only(KindToken, id, id in s.accounts.tokens)
    case DoPutDomain(d) => {Change(KindDomain, d.id)}
    case DoDeleteDomain(id) => Only(KindDomain, id, id in s.domains.domains)
    case DoPutKv(k, _, expected, _) => Only(KindKV, k, !KvConflict(s.kv, k, expected))
    case DoDeleteKv(k, expected) => Only(KindKV, k, k in s.kv && !KvConflict(s.kv, k, expected))
    case DoAppendEvents(es) => Touches(KindEvent, EventIds(es))
    case DoAppendAudit(_) => {Change(KindEvent, "audit")}
    case DoMarkApplied(_) => {}
    case DoRestore(_) => Stars(ALL_KINDS)
  }

  function Once(when: bool): nat {
    if when then 1 else 0
  }

  /** How often a command calls `touch`, so how far it moves the version. */
  function TouchCount(s: State, c: Command): nat {
    match c
    case DoPutUser(_) => 1
    case DoDeleteUser(id) => Once(id in s.accounts.users)
    case DoPutProject(_) => 1
    case DoDeleteProject(id) => Once(id in s.projects.projects)
    case DoPutMember(_) => 1
    case DoDeleteMember(p, u) => Once(u in MapAt(s.projects.members, p))
    case DoSetEnvVars(_, _, _) => 1
    case DoPutAssignments(list) => |list|
    case DoDeleteAssignments(ids) => |Elements(ids) * s.placement.assignments.Keys|
    case DoSetObserved(n, batch) => |Accepted(s.placement, n, batch)|
    case DoPutToken(_) => 1
    case DoDeleteToken(id) => Once(id in s.accounts.tokens)
    case DoPutDomain(_) => 1
    case DoDeleteDomain(id) => Once(id in s.domains.domains)
    case DoPutKv(k, _, expected, _) => Once(!KvConflict(s.kv, k, expected))
    case DoDeleteKv(k, expected) => Once(k in s.kv && !KvConflict(s.kv, k, expected))
    case DoAppendEvents(es) => |es|
    case DoAppendAudit(_) => 1
    case DoMarkApplied(_) => 0
    case DoRestore(_) => |ALL_KINDS|
  }

  // ---------- no change goes unannounced ----------

  ghost predicate SameAt<V(!new)>(m: map<string, V>, m': map<string, V>, id: Id) {
    (id in m <==> id in m') && (id in m ==> m[id] == m'[id])
  }

  ghost predicate SameMember(s: Projects, t: Projects, p: Id, u: Id) {
    SameAt(MapAt(s.members, p), MapAt(t.members, p), u)
  }

  /** Nothing a watcher reads under this kind and id is different. */
  ghost predicate Same(s: State, t: State, c: Change) {
    match c.kind
    case KindUser => SameAt(s.accounts.users, t.accounts.users, c.id)
    case KindToken => SameAt(s.accounts.tokens, t.accounts.tokens, c.id)
    case KindProject => SameAt(s.projects.projects, t.projects.projects, c.id)
    case KindProjectMember => forall p, u :: MemberKey(p, u) == c.id ==> SameMember(s.projects, t.projects, p, u)
    case KindEnvVar => MapAt(s.projects.envVars, c.id) == MapAt(t.projects.envVars, c.id)
    case KindAssignment => SameAt(s.placement.assignments, t.placement.assignments, c.id)
    case KindDomain => SameAt(s.domains.domains, t.domains.domains, c.id)
    case KindKV => SameAt(s.kv, t.kv, c.id)
    case KindEvent =>
      && (c.id == "audit" ==> s.rings.audit == t.rings.audit)
      // ageing out of the ring is not a change
      && (forall e :: e in t.rings.events && e.id == c.id ==> e in s.rings.events)
    case _ => true
  }

  ghost predicate Announces(published: set<Change>, c: Change) {
    c in published || Change(c.kind, "*") in published
  }

  /** The one command that changes a collection silently: removing a project drops its members
      without publishing a membership change. */
  predicate DropsMembers(s: State, c: Command) {
    c.DoDeleteProject? && c.id in s.projects.projects && MapAt(s.projects.members, c.id) != map[]
  }

  lemma {:induction false} PutAssignmentsElsewhere(s: Placement, list: seq<Assignment>, id: Id)
    requires id !in AssignmentIds(list)
    ensures SameAt(s.assignments, PutAssignments(s, list).assignments, id)
  {
    if list != [] {
      assert list[|list| - 1].id in AssignmentIds(list);
      assert id !in AssignmentIds(list[..|list| - 1]);
      PutAssignmentsElsewhere(s, list[..|list| - 1], id);
    }
  }

  lemma {:induction false} DeletedAssignments(s: Placement, ids: seq<Id>)
    ensures DeleteAssignments(s, ids).assignments == s.assignments - Elements(ids)
  {
    if ids != [] {
      DeletedAssignments(s, ids[..|ids| - 1]);
      assert Elements(ids) == Elements(ids[..|ids| - 1]) + {ids[|ids| - 1]};
    }
  }

  lemma AssignmentsAnnounced(s: State, c: Command, ch: Change)
    requires c.DoPutAssignments? || c.DoDeleteAssignments? || c.DoSetObserved?
    ensures !Same(s, Do(s, c), ch) ==> Announces(Published(s, c), ch)
  {
    match c
    case DoPutAssignments(list) =>
      if ch.id !in AssignmentIds(list) { PutAssignmentsElsewhere(s.placement, list, ch.id); }
    case DoDeleteAssignments(ids) => DeletedAssignments(s.placement, ids);
    case DoSetObserved(_, _) =>
  }

  lemma ProjectsAnnounced(s: State, c: Command, ch: Change)
    requires c.DoPutProject? || c.DoPutMember? || c.DoDeleteMember? || c.DoSetEnvVars?
    ensures !Same(s, Do(s, c), ch) ==> Announces(Published(s, c), ch)
  {
    if ch.kind == KindProjectMember {
      forall p, u | MemberKey(p, u) == ch.id && !Announces(Published(s, c), ch)
        ensures SameMember(s.projects, Do(s, c).projects, p, u)
      {
      }
    }
  }

  lemma OthersAnnounced(s: State, c: Command, ch: Change)
    requires !c.DoPutAssignments? && !c.DoDeleteAssignments? && !c.DoSetObserved?
    requires !c.DoPutProject? && !c.DoPutMember? && !c.DoDeleteMember? && !c.DoSetEnvVars?
    requires !c.DoRestore? && !c.DoDeleteProject?
    ensures !Same(s, Do(s, c), ch) ==> Announces(Published(s, c), ch)
  {
  }

  lemma DeleteProjectAnnounced(s: State, id: Id, ch: Change)
    requires MapAt(s.projects.members, id) == map[]
    ensures !Same(s, Do(s, DoDeleteProject(id)), ch) ==> Announces(Published(s, DoDeleteProject(id)), ch)
  {
  }

  /** Every change of a stored object, and every appended event, is published under its own kind, for the object or for
      the whole kind, except exactly when a project with members is removed. */
  lemma NothingSilent(s: State, c: Command)
    ensures (forall ch :: !Same(s, Do(s, c), ch) ==> Announces(Published(s, c), ch)) <==> !DropsMembers(s, c)
  {
    hide Do, Same, Published;
    if DropsMembers(s, c) {
      SilentMember(s, c.id);
    } else {
      forall ch ensures !Same(s, Do(s, c), ch) ==> Announces(Published(s, c), ch) {
        if c.DoPutAssignments? || c.DoDeleteAssignments? || c.DoSetObserved? {
          AssignmentsAnnounced(s, c, ch);
        } else if c.DoPutProject? || c.DoPutMember? || c.DoDeleteMember? || c.DoSetEnvVars? {
          ProjectsAnnounced(s, c, ch);
        } else if c.DoRestore? {
          RestoreAnnounces(s, c, ch);
        } else if c.DoDeleteProject? {
          DeleteProjectStep(s, c.id, ch);
        } else {
          OthersAnnounced(s, c, ch);
        }
      }
    }
  }

  lemma EveryKindListed(k: Kind)
    ensures k in ALL_KINDS
  {
    match k
    case KindOrg => assert ALL_KINDS[0] == k;
    case KindUser => assert ALL_KINDS[1] == k;
    case KindProject => assert ALL_KINDS[2] == k;
    case KindProjectMember => assert ALL_KINDS[3] == k;
    case KindApp => assert ALL_KINDS[4] == k;
    case KindEnvironment => assert ALL_KINDS[5] == k;
    case KindEnvVar => assert ALL_KINDS[6] == k;
    case KindRelease => assert ALL_KINDS[7] == k;
    case KindDeployment => assert ALL_KINDS[8] == k;
    case KindBuild => assert ALL_KINDS[9] == k;
    case KindNode => assert ALL_KINDS[10] == k;
    case KindJoinToken => assert ALL_KINDS[11] == k;
    case KindAssignment => assert ALL_KINDS[12] == k;
    case KindToken => assert ALL_KINDS[13] == k;
    case KindDomain => assert ALL_KINDS[14] == k;
    case KindKV => assert ALL_KINDS[15] == k;
    case KindDNSProvider => assert ALL_KINDS[16] == k;
    case KindVolume => assert ALL_KINDS[17] == k;
    case KindVolumeSnapshot => assert ALL_KINDS[18] == k;
    case KindBackup => assert ALL_KINDS[19] == k;
    case KindNetworkAlloc => assert ALL_KINDS[20] == k;
    case KindServiceVIP => assert ALL_KINDS[21] == k;
    case KindJob => assert ALL_KINDS[22] == k;
    case KindAlertRule => assert ALL_KINDS[23] == k;
    case KindNotifyChannel => assert ALL_KINDS[24] == k;
    case KindEvent => assert ALL_KINDS[25] == k;
    case KindClusterKey => assert ALL_KINDS[26] == k;
  }

  /** The assignments of one node, whatever order they are listed in. */
  function NodeList(s: State, nodeId: Id): set<Assignment> {
    set id | id in s.placement.assignments && s.placement.assignments[id].nodeId == nodeId ::
      s.placement.assignments[id]
  }

  /** A command that changes the assignments of some node publishes an assignment change. */
  lemma NodeChangeAnnounced(s: State, c: Command, nodeId: Id)
    requires NodeList(Do(s, c), nodeId) != NodeList(s, nodeId)
    ensures exists ch :: ch in Published(s, c) && ch.kind == KindAssignment
  {
    var m, m' := s.placement.assignments, Do(s, c).placement.assignments;
    hide Do, Published, Same;
    if forall id :: SameAt(m, m', id) {
      SameEverywhere(m, m');
      assert false;
    }
    var id :| !SameAt(m, m', id);
    var ch := Change(KindAssignment, id);
    AssignmentDiffers(s, Do(s, c), id);
    DeletedProjectKeeps(s, c);
    if !DropsMembers(s, c) {
      NothingSilent(s, c);
      assert Announces(Published(s, c), ch);
    }
  }

  lemma SameEverywhere(m: map<Id, Assignment>, m': map<Id, Assignment>)
    requires forall id :: SameAt(m, m', id)
    ensures m == m'
  {
    forall id ensures id in m <==> id in m' {
      assert SameAt(m, m', id);
    }
    forall id | id in m ensures m[id] == m'[id] {
      assert SameAt(m, m', id);
    }
  }

  lemma AssignmentDiffers(s: State, t: State, id: Id)
    ensures Same(s, t, Change(KindAssignment, id)) <==> SameAt(s.placement.assignments, t.placement.assignments, id)
  {
  }

  lemma DeletedProjectKeeps(s: State, c: Command)
    ensures DropsMembers(s, c) ==> Do(s, c).placement == s.placement
  {
  }

  lemma RestoreAnnounces(s: State, c: Command, ch: Change)
    requires c.DoRestore?
    ensures Announces(Published(s, c), ch)
  {
    EveryKindListed(ch.kind);
  }

  lemma DeleteProjectStep(s: State, id: Id, ch: Change)
    requires !DropsMembers(s, DoDeleteProject(id))
    ensures !Same(s, Do(s, DoDeleteProject(id)), ch) ==> Announces(Published(s, DoDeleteProject(id)), ch)
  {
    if id in s.projects.projects {
      DeleteProjectAnnounced(s, id, ch);
    }
  }

  lemma SomeKey<K, V>(m: map<K, V>)
    requires m != map[]
    ensures exists k :: k in m
  {
    assert m.Keys != {};
  }

  lemma SilentMember(s: State, id: Id)
    requires DropsMembers(s, DoDeleteProject(id))
    ensures exists ch :: !Same(s, Do(s, DoDeleteProject(id)), ch) && !Announces(Published(s, DoDeleteProject(id)), ch)
  {
    var members := MapAt(s.projects.members, id);
    SomeKey(members);
    var u :| u in members;
    var ch := Change(KindProjectMember, MemberKey(id, u));
    assert !SameMember(s.projects, Do(s, DoDeleteProject(id)).projects, id, u);
    assert !Same(s, Do(s, DoDeleteProject(id)), ch);
  }

  lemma TouchesSome(kind: Kind, ids: set<Id>, id: Id)
    requires id in ids
    ensures Touches(kind, ids) != {}
  {
    assert Change(kind, id) in Touches(kind, ids);
  }

  lemma PutAssignmentsTouch(list: seq<Assignment>)
    requires list != []
    ensures Touches(KindAssignment, AssignmentIds(list)) != {}
  {
    assert list[0] in list;
    TouchesSome(KindAssignment, AssignmentIds(list), list[0].id);
  }

  lemma AppendEventsTouch(es: seq<Event>)
    requires es != []
    ensures Touches(KindEvent, EventIds(es)) != {}
  {
    assert es[0] in es;
    TouchesSome(KindEvent, EventIds(es), es[0].id);
  }

  lemma {:induction false} NoneDeleted(s: Placement, ids: seq<Id>)
    requires forall id :: id in ids ==> id !in s.assignments
    ensures DeleteAssignments(s, ids) == s
  {
    if ids != [] {
      NoneDeleted(s, ids[..|ids| - 1]);
      assert ids[|ids| - 1] in ids;
    }
  }

  lemma DeleteAssignmentsQuiet(s: Placement, ids: seq<Id>)
    ensures Touches(KindAssignment, Elements(ids) * s.assignments.Keys) != {} || DeleteAssignments(s, ids) == s
  {
    if id :| id in ids && id in s.assignments {
      TouchesSome(KindAssignment, Elements(ids) * s.assignments.Keys, id);
    } else {
      NoneDeleted(s, ids);
    }
  }

  lemma SetObservedQuiet(s: Placement, nodeId: Id, batch: map<Id, Observed>)
    ensures Touches(KindAssignment, Accepted(s, nodeId, batch)) != {} || SetObserved(s, nodeId, batch) == s
  {
    var hit := Accepted(s, nodeId, batch);
    if id :| id in batch && Accepts(s, nodeId, id) {
      TouchesSome(KindAssignment, hit, id);
    } else {
      assert SetObserved(s, nodeId, batch).assignments == s.assignments;
    }
  }

  lemma DeleteMemberQuiet(s: Projects, p: Id, u: Id)
    requires u !in MapAt(s.members, p)
    ensures DeleteMember(s, p, u) == s
  {
    if p in s.members {
      assert s.members[p] - {u} == s.members[p];
      assert s.members[p := s.members[p]] == s.members;
    }
  }

  lemma RestoreTouches()
    ensures Stars(ALL_KINDS) != {}
  {
    assert Change(ALL_KINDS[0], "*") in Stars(ALL_KINDS);
  }

  /** An unchanged version counter means an unchanged store, up to the idempotency window, and
      nothing published. */
  lemma QuietMeansUnchanged(s: State, c: Command)
    requires RingsInv(s.rings) && TouchCount(s, c) == 0
    ensures c.DoMarkApplied? || Do(s, c) == s
    ensures Published(s, c) == {}
  {
    hide Touches, Stars, Do;
    CountedIsPublished(s, c);
    match c
    case DoPutAssignments(list) => DoNothing(s, c);
    case DoDeleteAssignments(ids) =>
      DeleteAssignmentsQuiet(s.placement, ids);
      DoNothing(s, c);
    case DoSetObserved(n, batch) =>
      SetObservedQuiet(s.placement, n, batch);
      DoNothing(s, c);
    case DoAppendEvents(es) => DoNothing(s, c);
    case DoDeleteMember(p, u) =>
      DeleteMemberQuiet(s.projects, p, u);
      DoNothing(s, c);
    case _ => QuietOthers(s, c);
  }

  lemma CountedIsPublished(s: State, c: Command)
    ensures TouchCount(s, c) == 0 <==> Published(s, c) == {}
  {
    hide Touches, Stars;
    match c
    case DoPutAssignments(list) =>
      CountTouches(KindAssignment, AssignmentIds(list));
      if list != [] { PutAssignmentsTouch(list); }
    case DoDeleteAssignments(ids) => CountTouches(KindAssignment, Elements(ids) * s.placement.assignments.Keys);
    case DoSetObserved(n, batch) => CountTouches(KindAssignment, Accepted(s.placement, n, batch));
    case DoAppendEvents(es) => CountTouches(KindEvent, EventIds(es)); if es != [] { AppendEventsTouch(es); }
    case DoRestore(_) => RestoreTouches();
    case _ =>
  }

  lemma CountTouches(kind: Kind, ids: set<Id>)
    ensures Touches(kind, ids) == {} <==> |ids| == 0
  {
    if id :| id in ids {
      TouchesSome(kind, ids, id);
    }
  }

  lemma DoNothing(s: State, c: Command)
    requires RingsInv(s.rings)
    requires c.DoPutAssignments? ==> c.list == []
    requires c.DoDeleteAssignments? ==> DeleteAssignments(s.placement, c.ids) == s.placement
    requires c.DoSetObserved? ==> SetObserved(s.placement, c.nodeId, c.batch) == s.placement
    requires c.DoAppendEvents? ==> c.es == []
    requires c.DoDeleteMember? ==> DeleteMember(s.projects, c.projectId, c.userId) == s.projects
    requires c.DoPutAssignments? || c.DoDeleteAssignments? || c.DoSetObserved? || c.DoAppendEvents? || c.DoDeleteMember?
    ensures Do(s, c) == s
  {
  }

  lemma QuietOthers(s: State, c: Command)
    requires Published(s, c) == {} && !c.DoDeleteMember?
    requires !c.DoPutAssignments? && !c.DoDeleteAssignments? && !c.DoSetObserved? && !c.DoAppendEvents? && !c.DoRestore?
    ensures c.DoMarkApplied? || Do(s, c) == s
  {
  }

  // ---------- what a subscriber gets ----------

  /** A subscription after a set of changes was published, in whatever order and however often. */
  function OfferedAll(s: Sub, cs: set<Change>): Sub {
    var wanted := set c | c in cs && Wants(s, c);
    if wanted == {} then s else s.(pending := s.pending + wanted, signal := true)
  }

  lemma OfferedTwice(s: Sub, cs: set<Change>, ds: set<Change>)
    ensures OfferedAll(OfferedAll(s, cs), ds) == OfferedAll(s, cs + ds)
  {
    var w, w' := set c | c in cs && Wants(s, c), set c | c in ds && Wants(s, c);
    assert (set c | c in cs + ds && Wants(s, c)) == w + w';
    assert (set c | c in ds && Wants(OfferedAll(s, cs), c)) == w';
  }

  /** Publishing one by one, each subscriber offered every change, comes to the same. */
  lemma OfferedOneMore(s: Sub, cs: set<Change>, c: Change)
    ensures Offered(OfferedAll(s, cs), c) == OfferedAll(s, cs + {c})
  {
    var wanted, wanted' := set x | x in cs && Wants(s, x), set x | x in cs + {c} && Wants(s, x);
    if Wants(s, c) {
      assert wanted' == wanted + {c};
    } else {
      assert wanted' == wanted;
    }
  }
}
