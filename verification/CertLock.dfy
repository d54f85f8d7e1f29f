/** The lock that servers take on a key of the store before they obtain a certificate: a
    compare-and-set on a key that expires, stolen once it has. */
module CertLock {
  import opened Options
  import opened StoreState

  type Client = nat

  /** `lockTTL` in milliseconds; only that it is positive matters. */
  const TTL := 120_000

  /** Where a client's `Lock` is. */
  datatype Phase =
    | Idle
    | Trying(expected: nat, until: int) // it has read the key and is about to put it
    | Holding(until: int)

  /** History: `owner` wrote the lock that is there, and `outdated` have read it before a release. */
  datatype World = World(
    kv: map<string, Kv>,
    now: int,
    clients: map<Client, Phase>,
    owner: Option<Client>,
    outdated: set<Client>)

  datatype Action =
    | Read(id: Client)
    | Put(id: Client)
    | Unlock(id: Client)
    | Pass(now: int) // time passes

  function PhaseOf(w: World, id: Client): Phase {
    if id in w.clients then w.clients[id] else Idle
  }

  function Enter(w: World, id: Client, p: Phase): World {
    w.(clients := w.clients[id := p])
  }

  predicate Enabled(w: World, a: Action) {
    match a
    case Read(id) => PhaseOf(w, id).Idle?
    case Put(id) => PhaseOf(w, id).Trying?
    case Unlock(id) => PhaseOf(w, id).Holding?
    case Pass(now) => w.now <= now
  }

  /** One step; `key` is the name of the lock. */
  function Next(key: string, w: World, a: Action): World
    requires Enabled(w, a)
  {
    match a
    case Read(id) =>
      var t := w.(outdated := w.outdated - {id});
      if key !in w.kv then Enter(t, id, Trying(0, w.now + TTL))
      else if w.kv[key].expiresAt != 0 && w.kv[key].expiresAt <= w.now then
        Enter(t, id, Trying(w.kv[key].version, w.now + TTL))
      else w // it waits and reads again
    case Put(id) =>
      var p := PhaseOf(w, id);
      var kv := PutKv(w.kv, key, "1", p.expected, p.until);
      if KvConflict(w.kv, key, p.expected) then Enter(w, id, Idle)
      else Enter(w, id, Holding(p.until)).(kv := kv, owner := Some(id))
    case Unlock(id) =>
      Enter(w, id, Idle).(kv := DeleteKv(w.kv, key, -1), owner := None, outdated := w.clients.Keys)
    case Pass(now) => w.(now := now)
  }

  /** The client was given the lock, and its time is not up. */
  predicate Holds(w: World, id: Client) {
    PhaseOf(w, id).Holding? && w.now < PhaseOf(w, id).until
  }

  ghost predicate Exclusive(w: World) {
    forall a: Client, b: Client :: Holds(w, a) && Holds(w, b) ==> a == b
  }

  /** No lock yet, and nobody after one. */
  predicate Init(key: string, w: World) {
    key !in w.kv && w.clients == map[] && w.owner == None && w.outdated == {} && w.now > 0
  }

  ghost predicate Execution(key: string, worlds: seq<World>, actions: seq<Action>) {
    && |worlds| == |actions| + 1
    && Init(key, worlds[0])
    && forall i :: 0 <= i < |actions| ==>
         Enabled(worlds[i], actions[i]) && worlds[i + 1] == Next(key, worlds[i], actions[i])
  }

  // ---------- a discipline that is enough ----------

  /** A client releases only while its time is not up, and does not put a lock it read as expired
      once some lock has been released. */
  predicate Timely(w: World, a: Action) {
    match a
    case Unlock(id) => Holds(w, id)
    case Put(id) => PhaseOf(w, id).Trying? && PhaseOf(w, id).expected > 0 ==> id !in w.outdated
    case _ => true
  }

  /** Whoever holds the lock wrote the entry that is there, and its expiry is its own. */
  ghost predicate OwnersHold(key: string, w: World) {
    forall id: Client :: Holds(w, id) ==>
      key in w.kv && w.owner == Some(id) && w.kv[key].expiresAt == PhaseOf(w, id).until
  }

  /** Who tries to steal, and is not outdated, read the entry that is there, as expired, or one
      that has been overwritten. */
  ghost predicate StealersKnow(key: string, w: World) {
    forall id: Client :: PhaseOf(w, id).Trying? && PhaseOf(w, id).expected > 0 && id !in w.outdated ==>
      && key in w.kv && PhaseOf(w, id).expected <= w.kv[key].version
      && (PhaseOf(w, id).expected == w.kv[key].version ==> w.kv[key].expiresAt <= w.now)
  }

  ghost predicate Inv(key: string, w: World) {
    && w.now > 0 && OwnersHold(key, w) && StealersKnow(key, w)
    && (key in w.kv ==> w.kv[key].version >= 1)
  }

  lemma InvMeansExclusive(key: string, w: World)
    requires Inv(key, w)
    ensures Exclusive(w)
  {
  }

  lemma StepKeepsInv(key: string, w: World, a: Action)
    requires Inv(key, w) && Enabled(w, a) && Timely(w, a)
    ensures Inv(key, Next(key, w, a))
  {
    var t := Next(key, w, a);
    match a
    case Put(id) =>
      PutKeeps(key, w, id);
    case Read(id) =>
      assert forall x: Client :: x != id ==> PhaseOf(t, x) == PhaseOf(w, x);
    case Unlock(id) =>
      assert forall x: Client :: x != id ==> PhaseOf(t, x) == PhaseOf(w, x);
      assert forall x: Client :: Holds(w, x) ==> x == id;
    case Pass(now) =>
      assert forall x: Client :: PhaseOf(t, x) == PhaseOf(w, x);
  }

  lemma PutKeeps(key: string, w: World, id: Client)
    requires Inv(key, w) && PhaseOf(w, id).Trying? && (PhaseOf(w, id).expected > 0 ==> id !in w.outdated)
    ensures Inv(key, Next(key, w, Put(id)))
  {
    var t := Next(key, w, Put(id));
    assert forall x: Client :: x != id ==> PhaseOf(t, x) == PhaseOf(w, x);
    if !KvConflict(w.kv, key, PhaseOf(w, id).expected) {
      forall x: Client ensures !Holds(w, x) {
        if key in w.kv {
          assert w.kv[key].expiresAt <= w.now;
        }
      }
    }
  }

  ghost predicate AllTimely(worlds: seq<World>, actions: seq<Action>) {
    forall i :: 0 <= i < |actions| && i < |worlds| ==> Timely(worlds[i], actions[i])
  }

  lemma {:induction false} RunKeepsInv(key: string, worlds: seq<World>, actions: seq<Action>, k: nat)
    requires Execution(key, worlds, actions) && AllTimely(worlds, actions) && k <= |actions|
    ensures Inv(key, worlds[k])
  {
    hide Next, Enabled, Inv, Timely;
    if k > 0 {
      RunKeepsInv(key, worlds, actions, k - 1);
      assert Enabled(worlds[k - 1], actions[k - 1]) && worlds[k] == Next(key, worlds[k - 1], actions[k - 1]);
      StepKeepsInv(key, worlds[k - 1], actions[k - 1]);
    } else {
      InitHolds(key, worlds[0]);
    }
  }

  lemma InitHolds(key: string, w: World)
    requires Init(key, w)
    ensures Inv(key, w)
  {
  }

  /** Mutual exclusion, over every interleaving of any number of clients that may stop at any
      point: no two hold the lock at one time, if each releases only before its time is up and none
      takes an expired lock it read before some release. */
  lemma LockExcludes(key: string, worlds: seq<World>, actions: seq<Action>, k: nat)
    requires Execution(key, worlds, actions) && AllTimely(worlds, actions) && k <= |actions|
    ensures Exclusive(worlds[k])
  {
    RunKeepsInv(key, worlds, actions, k);
    InvMeansExclusive(key, worlds[k]);
  }

  // ---------- both halves are needed ----------

  lemma Step(key: string, worlds: seq<World>, actions: seq<Action>, a: Action)
    returns (worlds': seq<World>, actions': seq<Action>)
    requires Execution(key, worlds, actions) && Enabled(worlds[|actions|], a)
    ensures Execution(key, worlds', actions') && worlds'[|actions'|] == Next(key, worlds[|actions|], a)
    ensures actions' == actions + [a] && worlds'[..|worlds|] == worlds
  {
    hide Init, Enabled, Next;
    worlds', actions' := worlds + [Next(key, worlds[|actions|], a)], actions + [a];
  }

  /** The one release of a run comes before its holder's time is up. */
  ghost predicate ReleasesInTime(worlds: seq<World>, actions: seq<Action>) {
    forall i :: 0 <= i < |actions| && i < |worlds| && actions[i].Unlock? ==> Holds(worlds[i], actions[i].id)
  }

  /** No client puts a lock it read as expired after some lock was released. */
  ghost predicate StealsInTime(worlds: seq<World>, actions: seq<Action>) {
    forall i :: 0 <= i < |actions| && i < |worlds| && actions[i].Put? ==> Timely(worlds[i], actions[i])
  }

  lemma StepInTime(key: string, worlds: seq<World>, actions: seq<Action>, a: Action)
    returns (worlds': seq<World>, actions': seq<Action>)
    requires Execution(key, worlds, actions) && Enabled(worlds[|actions|], a)
    ensures Execution(key, worlds', actions') && worlds'[|actions'|] == Next(key, worlds[|actions|], a)
    ensures worlds'[0] == worlds[0]
    ensures ReleasesInTime(worlds, actions) && (a.Unlock? ==> Holds(worlds[|actions|], a.id)) ==>
              ReleasesInTime(worlds', actions')
    ensures StealsInTime(worlds, actions) && (a.Put? ==> Timely(worlds[|actions|], a)) ==>
              StealsInTime(worlds', actions')
  {
    worlds', actions' := Step(key, worlds, actions, a);
    hide Execution, Enabled, Next, Timely, Holds;
    forall i | 0 <= i < |actions| ensures worlds'[i] == worlds[i] && actions'[i] == actions[i] {
      assert worlds'[..|worlds|][i] == worlds[i];
    }
    assert worlds'[..|worlds|][|actions|] == worlds[|actions|];
  }

  /** A client takes the lock: it reads the key as absent or expired and puts it. */
  lemma Takes(key: string, worlds: seq<World>, actions: seq<Action>, id: Client)
    returns (worlds': seq<World>, actions': seq<Action>)
    requires Execution(key, worlds, actions) && PhaseOf(worlds[|actions|], id).Idle?
    requires var w := worlds[|actions|];
             key in w.kv ==> w.kv[key].version > 0 && w.kv[key].expiresAt != 0 && w.kv[key].expiresAt <= w.now
    ensures Execution(key, worlds', actions') && worlds'[0] == worlds[0]
    ensures var w, t := worlds[|actions|], worlds'[|actions'|];
            && t.now == w.now && t.clients == w.clients[id := Holding(w.now + TTL)]
            && t.kv == w.kv[key := Kv(key, "1", KvVersion(w.kv, key) + 1, w.now + TTL)]
            && t.outdated == w.outdated - {id}
    ensures ReleasesInTime(worlds, actions) ==> ReleasesInTime(worlds', actions')
    ensures StealsInTime(worlds, actions) ==> StealsInTime(worlds', actions')
  {
    var w := worlds[|actions|];
    hide ReleasesInTime, StealsInTime;
    worlds', actions' := StepInTime(key, worlds, actions, Read(id));
    worlds', actions' := StepInTime(key, worlds', actions', Put(id));
    assert worlds'[|actions'|].clients == w.clients[id := Holding(w.now + TTL)];
  }

  lemma Begin(key: string) returns (worlds: seq<World>, actions: seq<Action>)
    ensures Execution(key, worlds, actions) && actions == []
    ensures worlds == [World(map[], 1, map[], None, {})]
    ensures ReleasesInTime(worlds, actions) && StealsInTime(worlds, actions)
  {
    worlds, actions := [World(map[], 1, map[], None, {})], [];
  }

  /** A release that comes too late: client 1's time runs out, client 2 steals the lock, client 1
      releases it, and client 3 takes it while client 2 still holds it. */
  lemma LateReleaseBreaksLock(key: string) returns (worlds: seq<World>, actions: seq<Action>)
    ensures Execution(key, worlds, actions) && StealsInTime(worlds, actions)
    ensures Holds(worlds[|actions|], 2) && Holds(worlds[|actions|], 3)
  {
    hide Execution, ReleasesInTime, StealsInTime;
    worlds, actions := Begin(key);
    worlds, actions := Takes(key, worlds, actions, 1);
    worlds, actions := StepInTime(key, worlds, actions, Pass(1 + TTL));
    worlds, actions := Takes(key, worlds, actions, 2);
    worlds, actions := StepInTime(key, worlds, actions, Unlock(1));
    worlds, actions := Takes(key, worlds, actions, 3);
  }

  /** Versions begin again after a release: client 1 stops without releasing; client 2 reads its lock
      as expired; client 3 steals it and releases it in time; client 4 takes the lock anew, at the
      version client 2 has read; and client 2 steals it from client 4. */
  lemma ReusedVersionBreaksLock(key: string) returns (worlds: seq<World>, actions: seq<Action>)
    ensures Execution(key, worlds, actions) && ReleasesInTime(worlds, actions)
    ensures Holds(worlds[|actions|], 2) && Holds(worlds[|actions|], 4)
  {
    hide Execution, ReleasesInTime, StealsInTime;
    worlds, actions := Begin(key);
    worlds, actions := Takes(key, worlds, actions, 1);
    worlds, actions := StepInTime(key, worlds, actions, Pass(1 + TTL));
    worlds, actions := StepInTime(key, worlds, actions, Read(2));
    worlds, actions := Takes(key, worlds, actions, 3);
    worlds, actions := StepInTime(key, worlds, actions, Unlock(3));
    worlds, actions := Takes(key, worlds, actions, 4);
    worlds, actions := StepInTime(key, worlds, actions, Put(2));
  }
}
