/** Enrolment told of the addresses alone, and the number of attempts of a join. */
module JoinLaws {
  import opened Options
  import opened MeshNode
  import opened MeshJoin

  /** What the two roles may be given: 10.90.0.2 to 10.90.0.254, and 10.90.b.1 to 10.90.b.254 for b
      from 1 to 255. */
  predicate Allowed(ip: Ip, isControl: bool) {
    if isControl then ip.b == 0 && 2 <= ip.c <= 254 else 1 <= ip.b <= 255 && 1 <= ip.c <= 254
  }

  ghost predicate HeldBySome(nodes: seq<Node>, ip: Ip) {
    exists n :: n in nodes && n.ip == Some(ip)
  }

  /** The allocator: an allowed address no node has, with every allowed one of a lower number in
      use; or none, with all in use. */
  lemma AllocatesLowest(nodes: seq<Node>, isControl: bool, r: Option<Ip>)
    ensures LowestFree(Used(set n | n in nodes), isControl, r) <==>
              match r
              case Some(ip) =>
                && Allowed(ip, isControl) && !HeldBySome(nodes, ip)
                && forall a :: Allowed(a, isControl) && 256 * a.b + a.c < 256 * ip.b + ip.c ==> HeldBySome(nodes, a)
              case None => forall a :: Allowed(a, isControl) ==> HeldBySome(nodes, a)
  {
    var used := Used(set n | n in nodes);
    forall a ensures a in used <==> HeldBySome(nodes, a) {
      if a in used {
        var n :| n in (set m | m in nodes) && n.ip.Some? && n.ip.value == a;
        assert n in nodes;
      }
      if n :| n in nodes && n.ip == Some(a) {
        assert n in (set m | m in nodes);
      }
    }
    assert forall a :: Allowed(a, isControl) == InRange(a, isControl);
    if r.Some? && Allowed(r.value, isControl) {
      assert forall a :: Allowed(a, isControl) ==>
               (Lower(a, r.value) <==> 256 * a.b + a.c < 256 * r.value.b + r.value.c);
    }
  }

  /** A control node and a worker are never given one address. */
  lemma RolesApart(a: Ip, b: Ip, used: set<Ip>, used': set<Ip>)
    requires LowestFree(used, true, Some(a)) && LowestFree(used', false, Some(b))
    ensures a != b
  {
  }

  // ---------- attempts ----------

  /** How often a join has recorded its node so far. */
  function Applies(actions: seq<Action>, id: JoinId): nat {
    if actions == [] then 0
    else Applies(actions[..|actions| - 1], id) + if actions[|actions| - 1] == Apply(id) then 1 else 0
  }

  /** How far a join's phase says it has come. */
  ghost predicate Counts(s: Cluster, id: JoinId, n: nat) {
    if id !in s.joins then n == 0 else
    match s.joins[id]
    case Scanning(attempt, _) => n == attempt < 8
    case Scanned(attempt, _, _) => n == attempt < 8
    case Applied(attempt, _, _) => n == attempt + 1 <= 8
    case Resuming(_, _) => n == 0
    case Joined(_, _) => n <= 8
    case Failed(_, error) => if error == Aborted then n == 8 else n <= 7
  }

  lemma CountStep(s: Cluster, a: Action, t: Cluster, id: JoinId, n: nat)
    requires Next(s, a, t) && Counts(s, id, n)
    ensures Counts(t, id, n + if a == Apply(id) then 1 else 0)
  {
    hide LowestFree;
  }

  lemma {:induction false} RunCounts(states: seq<Cluster>, actions: seq<Action>, k: nat, id: JoinId)
    requires Execution(states, actions) && k <= |actions| && id !in states[0].joins
    ensures Counts(states[k], id, Applies(actions[..k], id))
  {
    hide Next, Counts;
    if k > 0 {
      RunCounts(states, actions, k - 1, id);
      assert actions[..k][..k - 1] == actions[..k - 1];
      assert Next(states[k - 1], actions[k - 1], states[k]);
      CountStep(states[k - 1], actions[k - 1], states[k], id, Applies(actions[..k - 1], id));
    } else {
      NotCounted(states[0], id);
    }
  }

  lemma NotCounted(s: Cluster, id: JoinId)
    requires id !in s.joins
    ensures Counts(s, id, 0)
  {
  }

  /** A join gives up exactly after its eighth attempt: over every run none records its node more
      than eight times, and one that aborted did so eight times. */
  lemma EightAttempts(states: seq<Cluster>, actions: seq<Action>, k: nat, id: JoinId)
    requires Execution(states, actions) && k <= |actions| && id !in states[0].joins
    ensures Applies(actions[..k], id) <= 8
    ensures id in states[k].joins && states[k].joins[id].Failed? ==>
              (states[k].joins[id].error == Aborted <==> Applies(actions[..k], id) == 8)
  {
    hide Next, Execution;
    RunCounts(states, actions, k, id);
  }
}
