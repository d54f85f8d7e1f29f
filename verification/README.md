# Verified models of Zattera

Zattera is a self-hosted platform that runs containers on a cluster of nodes. This project models
five parts of it in Dafny and proves what they promise.

* **The WireGuard mesh.** `MeshNode`, `MeshPeers`: which peers and allowed addresses each node is
  given, and that all peer sets together deliver packets under cryptokey routing. `MeshJoin`: the
  address allocator and the scan / apply / re-check enrolment protocol under any interleaving.
  `MeshLaws`, `JoinLaws`: both in the terms of the node records alone.
* **The replicated state store.** `WatchHub`, `AssignmentSender`: the coalescing change hub and the
  loop that sends a node its assignments, interleaved step by step with a writer, over one session
  after another. `StoreState`, `StoreRuns`, `StorePublish`: the store as a value, its indexes, rings,
  idempotency window, snapshots and announcements over every run. `Store`: the object with its
  mutable fields, each method proved against that value model and against what every subscription
  is offered. `StoreHistory`: what every run of commands leaves, told of the commands alone.
  `HubLife`: a subscription over its whole life. `CertLock`: the lock built on compare-and-set.
* **The node executor.** `RetryPolicy`, `ReconcileSpec`, `ReconcileRuns`, `Executor`: reconciling
  containers against a runtime any of whose calls may fail, once and over whole runs.
  `ReconcileLaws`: the same told of labels, assignments, payloads and calls alone.
  `HealthMachine`: the health state machine. `StatusBuffer`: status reports coalesced between
  flushes.
* **Ordered, bounded queries.** `LogFollow`: the windowed merge of log streams against the stable
  sort. `LogLaws`: what both forms send, told of times alone. `AuditQuery`, `BatchScan`,
  `AuditTopK`, `AuditObjects`: the query over ring and archive against the k newest of their union,
  and what the archive must be like. `EventTail`, `EventTailLate`: the polling cursor, with events in
  time order and out of it.
* **Codecs.** `Dotenv`, `DotenvRoundTrip`: the .env printer and parser. `DotenvRules`,
  `DotenvLines`: the rules of the format, told of the characters. `ShellQuote`: shell quoting against
  the POSIX rules. `Base62`: token secrets.

`Options`, `Sequences`, `Sorting` and `IdOrder` hold what several of these share. Code that updates
state in place is modelled by classes, arrays and loops; each such method is proved equal to a
function of its inputs or of the old state, and the theorems are lemmas about those functions. Ids,
hashes and messages are strings or naturals without structure; times are integers.

What turned out to hold only under a condition, or not as documented:

* A node that is already recorded gets its recorded address back without the re-check that follows
  a fresh allocation. If its record is deleted while it joins again, two nodes may hold one address:
  the resumed join writes an address given away meanwhile, or the next one resumes an address that
  no success gave. As ids are minted for every node not recorded
  (`internal/daemon/api/join.go:99`) and a node sends only an id it kept from a success
  (`internal/daemon/join.go:122`), this takes a deletion; without one, joins are safe.
* A session skips its first send when the agent names the store's version. The list and the version
  of a frame are read one after the other, and the version is a counter that each server keeps for
  itself and a restore leaves alone (`internal/state/state.go:80`, `internal/state/snapshot.go:16`).
  So an agent may be left with an old list until the next change of an assignment.
* An assignment parked with an empty configuration hash stays parked when its hash changes. Both
  places that build a release take the hash from a SHA-256 in hexadecimal
  (`internal/daemon/api/deploy.go:238`, `internal/daemon/api/githubroutes.go:192`), so no way to an
  empty hash is shown here.
* A put that reuses another token's hash or another user's e-mail leaves the indexes incomplete:
  a lookup can then miss an object, though it never finds a wrong one.
* The certificate lock is not exclusive when a holder releases it after its time is up, as a release
  asks for no version; nor when a server that read an expired lock acts on it after a release, as
  versions then begin again.
* In a .env file a comment with only blanks between it and the `=` becomes the value.
* Removing a project drops its memberships without announcing a membership change.
* Coalescing status reports hides a FAILED that is followed by RUNNING within one window, when the
  state before was HEALTHY or UNHEALTHY; and it carries ports into a stored report that had none.
* A .env value that starts or ends with a space character other than blank, tab, LF and CR, and
  holds nothing that needs quoting, loses it.
* The ring query gives the newest records only as long as entries enter the ring in time order.
* A batch that is archived again, because a sweep was interrupted before it saved its cursor, is not
  always harmless: a query counts the repeated records towards its limit, and may stop before an
  older record that belongs in the answer. The sort of the objects by start promises no order for
  equal starts; if of two such objects the one that repeats the other and goes on is listed first,
  newer records are missed.
* `events --follow` never prints an event that enters the log after a newer one was printed, and may
  print an event twice when, besides, a response was cut.

## Model

| member | source | states |
|---|---|---|
| MeshPeers.MeshDelivers | internal/daemon/api/meshsvc.go:140-212 | for nodes with distinct ids and mesh addresses, a packet between two mesh-ready nodes arrives in at most two hops with every receiver's source check passing if and only if a control node is mesh-ready or the two are a direct worker pair; otherwise no path of any length delivers it |
| MeshLaws.DeliversIff | internal/daemon/api/meshsvc.go:140-212 | the same in the terms of the records: delivered if and only if some node has the control role, a key and a mesh address, or the two both carry the mesh socket label, or both have a public endpoint |
| MeshLaws.PeersAre | internal/daemon/api/meshsvc.go:159-207 | who is a peer of whom, from roles, keys, addresses, labels and endpoints: every reachable node for a control node; for a worker every reachable control node, and the workers that share the label or have endpoints like it |
| MeshLaws.PeerSays | internal/daemon/api/meshsvc.go:159-207 | an entry has its node's key, address and endpoints; keepalives every 25 seconds come from workers only, to workers always and to control nodes when the worker has no endpoint; control nodes are the relays |
| MeshLaws.HubHasLowestAddress | internal/daemon/api/meshsvc.go:235-259 | the hub is the reachable control node whose address is the lowest number, among the ALIVE ones while there is one |
| MeshPeers.HopIsDeterministic | internal/daemon/api/meshsvc.go:140-212 | longest-prefix routing plus the source check leaves at most one next hop, so the path found is the one taken |
| MeshPeers.OneWholeMeshPeer | internal/daemon/api/meshsvc.go:140-212 | a peer carries the /16 exactly when it is the active hub and the set is a worker's, and a worker has such a peer as soon as a control node is mesh-ready |
| MeshPeers.HubPeer | internal/daemon/api/meshsvc.go:181-186 | with a mesh-ready control node every worker has the hub as a peer, carrying the /16 |
| MeshPeers.PrefixesDistinct | internal/daemon/api/meshsvc.go:140-212 | no two peers of a set share an allowed prefix |
| MeshPeers.BuildPeerSet | internal/daemon/api/meshsvc.go:140-212 | the loop gives exactly the specified peers, strictly sorted by node id, and an empty set for an unknown node |
| MeshPeers.PeerOf | internal/daemon/api/meshsvc.go:159-207 | the body of that loop: role-dependent allowed addresses, keepalive and the worker-worker rule |
| MeshPeers.ActiveHub | internal/daemon/api/meshsvc.go:235-259 | the loop finds the lowest-IP ALIVE mesh-ready control node, or the lowest of all when none is ALIVE |
| MeshPeers.HubIsActiveHub | internal/daemon/api/meshsvc.go:235-259 | the hub is ALIVE whenever some candidate is, and no candidate of its class has a lower address |
| MeshPeers.HubIgnoresOrder | internal/daemon/api/meshsvc.go:235-259 | the choice does not depend on the order of the node list |
| MeshPeers.FailoverClimbs | internal/daemon/api/meshsvc.go:235-259 | marking the hub DOWN moves every worker to the next lowest ALIVE control node, or to the lowest of all when none is ALIVE |
| MeshPeers.InitialPeersAgree | internal/daemon/api/join.go:329-364 | every initial join peer has the allowed addresses that the peer set later gives it |
| MeshPeers.BuildInitialPeers | internal/daemon/api/join.go:329-364 | the loop gives exactly the specified initial peers, and nothing when the mesh is off |
| MeshLaws.InitialPeerSays | internal/daemon/api/join.go:329-364 | a join hands out the reachable control nodes, and all reachable nodes to a control node, with keepalives, none as relay yet |
| MeshJoin.RunSafeIffNoClash | internal/daemon/api/join.go:254-296 | over any interleaving of the scan, apply and re-check steps of any number of joins, several of one node included, of applies and resumed applies that report an error and may have taken effect, and of deletions: no two nodes ever hold one address given by a successful join if and only if no resumed join records an address that another node holds |
| MeshJoin.JoinsAreSafe | internal/daemon/api/join.go:254-296 | no two nodes ever hold one mesh address in any run in which a node joins again only when a successful join gave it its record, and that record is neither deleted nor given another address while it does |
| MeshJoin.StepSafeIffNoClash | internal/daemon/api/join.go:254-296 | a step keeps addresses unique if and only if it is not a resumed join recording an address another success now holds |
| MeshJoin.DeleteUnderResumeBreaksSafety | internal/daemon/api/join.go:266-275 | a concrete run of such joins in which a record deleted under a re-joining node leads to one address held twice, as the resumed join never re-checks |
| MeshJoin.ClientsAreSafe | internal/daemon/api/join.go:85-115 | as long as no record is deleted, no two nodes ever hold one address, if joins come under ids just minted or under ids that a success gave the node and that are recorded, as this program's joins do: whatever applies fail, whether or not they took effect, and however many joins of one node are in flight |
| MeshJoin.UnconfirmedRejoinBreaksSafety | internal/daemon/api/join.go:266-275 | a concrete run of such joins with one deletion, just after the check that the node is recorded: the join allocates afresh, its apply reports an error but takes effect, and when the node joins again it resumes an address that another node had found free |
| MeshJoin.LoneJoin | internal/daemon/api/join.go:254-296 | a join nobody interferes with succeeds at its first attempt unless the range is full |
| MeshJoin.AllocateMeshIp | internal/daemon/api/join.go:380-405 | the nested loops return the lowest free address of the role's range, and fail only if none is free |
| MeshJoin.FailsOnlyWhenFull | internal/daemon/api/join.go:380-405 | allocation fails only with at least 253 (control) or 64770 (worker) nodes recorded |
| MeshJoin.LowestFreeUnique | internal/daemon/api/join.go:380-405 | the lowest free address is unique, so allocation is determined |
| JoinLaws.AllocatesLowest | internal/daemon/api/join.go:380-405 | in the terms of the records: an address of 10.90.0.2 to .254 for control nodes, of 10.90.b.1 to .254 with b from 1 to 255 for workers, that no node has while some node has each lower one; or none when all are in use |
| JoinLaws.RolesApart | internal/daemon/api/join.go:380-405 | a control node and a worker are never allocated the same address |
| JoinLaws.EightAttempts | internal/daemon/api/join.go:276-296 | over every run no join records its node more than eight times, and it aborts exactly when it has done so eight times |
| MeshJoin.JoinServer.RegisterNode | internal/daemon/api/join.go:254-296 | the retry loop against a store in which the records of other nodes may change at any time: an address returned with success is in the role's range, recorded for this node, and at the re-check that decided success held by no other; a re-join returns its old address |
| MeshJoin.JoinServer.MeshIpTaken | internal/daemon/api/join.go:408-415 | true exactly when another recorded node has the address |
| LogFollow.FollowSortsIffNoStragglers | internal/daemon/api/logsvc.go:128-189 | in every run, what was sent followed by the buffer is the stable sort by time of everything received if and only if no line arrived older than one already sent; then the output so far is a prefix of that sort and all of it after the final flush |
| LogFollow.PunctualHasNoStragglers | internal/daemon/api/logsvc.go:128-189 | if every line is dequeued at most the reorder window after its time and the clock never goes back, no straggler arrives |
| LogFollow.PunctualFollowSorts | internal/daemon/api/logsvc.go:128-189 | a punctual run whose streams close sends exactly the stable sort of all lines received |
| LogFollow.RunIsStable | internal/daemon/api/logsvc.go:128-189 | in every run lines of equal time leave in arrival order |
| LogFollow.RunLosesNothing | internal/daemon/api/logsvc.go:128-189 | in every run sent and buffered lines together are exactly the received ones, none lost or repeated |
| LogFollow.FollowMatchesCollect | internal/daemon/api/logsvc.go:80-189 | a punctual follow sends what the one-shot query with any bounds sends for the same lines, when all of them lie within the bounds and the limit does not cut them |
| LogFollow.Follower.Flush | internal/daemon/api/logsvc.go:137-160 | the closure sorts the buffer, sends its ready prefix and keeps the rest |
| LogFollow.Follower.Follow | internal/daemon/api/logsvc.go:128-189 | the loop over lines, ticks and the end of the streams is the specified run |
| LogFollow.FilterByTime | internal/daemon/api/logsvc.go:287-304 | compacting in place keeps exactly the lines within both bounds, in order |
| LogFollow.Collect | internal/daemon/api/logsvc.go:80-124 | the one-shot form: filtered, stably sorted, cut to the newest lines at the limit |
| LogLaws.CollectIsNewest | internal/daemon/api/logsvc.go:80-124 | what the one-shot form sends, from times alone: sorted, within both bounds, as many lines as lie within them up to the limit, 1000 by default; each time has its lines in arrival order; and where a line within the bounds is left out, all that is sent is at least as new |
| LogLaws.SendsInTime | internal/daemon/api/logsvc.go:128-189 | a tick sends exactly the buffered lines that are half a second old, the end of the streams all of them, an arrival and a client that goes away none |
| AssignmentSender.NoLostWakeup | internal/daemon/api/agentsync.go:185-235 | in every interleaving of a store writer, the hub, any number of sessions of a node one after the other, deliveries, lost connections, restarts of the agent and takeovers by another server: every change of a subscribed kind is pending or was drained; and whenever the session is blocked with no signal, no armed timer and no change under way, the list the agent holds or is about to receive is the store's current one if and only if the session did not wrongly skip its first send |
| AssignmentSender.AstrayIffTorn | internal/daemon/api/agentsync.go:185-235 | a session wrongly skips its first send exactly when the agent names the store's version but holds another list; with a version that came with the list it holds, from the same server, exactly when the list had changed between the two reads of that frame |
| AssignmentSender.NeverAstray | internal/daemon/api/agentsync.go:185-235 | so with one server and no list changing between the two reads of a frame, the agent is always brought up to date |
| AssignmentSender.TornFrameIsSkipped | internal/daemon/api/agentsync.go:191-235 | a concrete run with one server: the list changes between the two reads, the connection is lost after that frame, and the next session leaves the agent with the old list although nothing is left to do |
| AssignmentSender.FailoverIsSkipped | internal/daemon/api/agentsync.go:191-235 | a concrete run without torn frames: another server, whose counter is its own, comes to the version the agent remembers by a change the agent has not seen |
| AssignmentSender.SessionCatchesUp | internal/daemon/api/agentsync.go:185-235 | from any reachable state, with the writer idle, the session takes at most 17 more steps of its own, whichever ready branch it takes each time, and has then sent the current list unless it went astray |
| StorePublish.NodeChangeAnnounced | internal/state/accessors_infra.go:94-172 | a command that changes the assignments of some node publishes an assignment change: the discipline of the writer that the sender relies on |
| IdOrder.ListingIsUnique | internal/state/accessors.go:473-478 | a listing by id is determined by its elements, so the list sent is one for each set of assignments |
| IdOrder.SortedById | internal/state/accessors.go:473-478 | sorting by id keeps the elements and puts them in strict order |
| AssignmentSender.StepKeepsInv | internal/daemon/api/agentsync.go:185-224 | each step of writer, hub or session keeps the invariant behind both |
| WatchHub.Subscription.Offer | internal/state/watch.go:61-78 | an unwanted kind or a closed subscription changes nothing; else the change is pending and the signal is up |
| WatchHub.Subscription.Receive | internal/state/watch.go:83-85 | a receive takes the signal down, and only that |
| WatchHub.Subscription.Drain | internal/state/watch.go:88-97 | returns exactly the pending changes, each once, and leaves none |
| WatchHub.Subscription.Close | internal/state/watch.go:100-108 | drops what is pending, refuses later offers and leaves the hub |
| WatchHub.Hub.Publish | internal/state/watch.go:53-59 | every subscriber is offered the change exactly once, in any order |
| WatchHub.Hub.Subscribe | internal/state/watch.go:35-51 | a fresh subscription, open and empty, is added |
| HubLife.LifeIs | internal/state/watch.go:35-108 | over the whole life of a subscription: pending are exactly the changes of subscribed kinds offered before the close and since the last drain, and the signal is up exactly if there was one since the last receive |
| IdOrder.BeforeIffDiffer | internal/state/accessors.go:473-478 | ids are compared by their first different character, a prefix coming first |
| StoreRuns.RunKeepsInv | internal/state/accessors_infra.go:94-128 | after any commands, restores included, the node and hostname indexes hold exactly the ids the primary maps imply, a lookup by hash or e-mail never leads to a wrong or missing object, and the idempotency set is the window |
| StoreRuns.ValidUnlessStolen | internal/state/accessors_infra.go:200-220 | a command keeps the hash and e-mail indexes in full agreement if and only if it neither reuses another object's hash or e-mail nor restores a store where that had happened |
| StoreRuns.RunStaysValid | internal/state/accessors.go:48-68 | without such reuse the indexes agree after any run |
| StoreRuns.ReuseHidesUser | internal/state/accessors.go:48-68 | two users with one e-mail, the later one deleted: the lookup misses the one who still has it |
| StoreRuns.IndexPut | internal/state/accessors_infra.go:200-210 | putting an object keeps an index in agreement exactly when no other object has its field value |
| StoreRuns.PutAssignmentKeepsInv | internal/state/accessors_infra.go:94-107 | a put that moves an assignment between nodes keeps the node index exact |
| StoreRuns.PutDomainKeepsInv | internal/state/accessors_infra.go:271-315 | a put that renames a hostname keeps the hostname index exact and without empty groups |
| StoreRuns.SnapshotRoundTrip | internal/state/snapshot.go:57-246 | for every valid store and every order its maps are enumerated in, restoring its snapshot gives the same collections, rings and entries with every index and the idempotency set rebuilt in agreement |
| StoreRuns.RestoreKeepsInv | internal/state/snapshot.go:125-246 | restoring a snapshot of any store keeps every unconditional invariant, and gives agreeing hash and e-mail indexes exactly when no two objects share one |
| StoreRuns.RingsAreNewest | internal/state/accessors_infra.go:761-841 | over every run each ring holds exactly the newest entries of its history in append order, up to its capacity |
| StoreRuns.WindowIsExact | internal/state/accessors_infra.go:862-880 | a request id is refused exactly when it is among the last 8192 accepted |
| StoreHistory.HoldsLastWritten | internal/state/accessors.go:48-331 | after any run, restores included: under every id of a user, token, project, domain, member and variable exactly what was written last, unless it was deleted since; a variable set and unset by one command is unset; members go with their project |
| StoreHistory.ReportsStay | internal/state/accessors_infra.go:143-172 | a batch of reports changes exactly the assignments it names that are on the reporting node: container, message and reported ports as reported, RUNNING not hiding HEALTHY or UNHEALTHY, the assignment's ports kept when none are reported; nothing else changes, and exactly these are announced |
| StoreHistory.OldNodeIsMute | internal/state/accessors_infra.go:143-150 | over every run: once a put has placed an assignment, nothing another node reports ever changes it, until it is put again, deleted or restored, or its own node reports |
| StoreHistory.PutWritesNextVersion | internal/state/accessors_infra.go:391-408 | a put with a negative expectation, or with the version the key has, 0 if absent, writes the value and expiry under the next version and changes no other key; any other put changes and announces nothing |
| StoreHistory.DeleteNeedsVersion | internal/state/accessors_infra.go:410-423 | a delete removes a present key of the version expected, or of any if negative, and no other; else it changes and announces nothing |
| StoreHistory.OneWinner | internal/state/accessors_infra.go:391-408 | over every run: of two puts of a key that expect the same version and both take effect, a delete of the key or a restore came in between |
| StoreHistory.ZeroMeansAbsent | internal/state/accessors_infra.go:387-408 | over every run a put that expects 0 takes effect exactly when the key is absent |
| StoreHistory.AnnouncesIffDone | internal/state/state.go:198-202 | a delete or a compare-and-set announces something exactly when it changes the store |
| StoreHistory.AnnouncesOwnObjects | internal/state/state.go:198-202 | every command announces exactly the objects it names under their kind, those to be deleted or reported on only if they are there, and a restore every kind as a whole |
| CertLock.LockExcludes | internal/daemon/tlsmgr/storage.go:151-177 | the certificate lock on top of it, over every interleaving of any number of servers that may stop anywhere: no two hold it at one time, if each releases before its time is up and none takes an expired lock it read before some release |
| CertLock.LateReleaseBreaksLock | internal/daemon/tlsmgr/storage.go:175-177 | a concrete run in which a holder whose time is up releases the lock of the one that stole it, and a third takes it meanwhile |
| CertLock.ReusedVersionBreaksLock | internal/daemon/tlsmgr/storage.go:151-172 | a concrete run in which all release in time: versions begin again at 1 after a release, so a server that read an expired lock of version 1 steals a new one that is not expired |
| StorePublish.NothingSilent | internal/state/state.go:198-202 | every change of a stored object, every appended event and every change of the audit ring is published under its own kind, if and only if the command does not remove a project with members, which drops them without a membership change |
| StorePublish.QuietMeansUnchanged | internal/state/state.go:67-69 | a command that leaves the version alone publishes nothing and leaves the store alone, up to the idempotency window |
| StorePublish.OfferedOneMore | internal/state/watch.go:53-78 | publishing changes one by one comes to the same for a subscriber as their set, whatever the order and the repetitions |
| Store.Store.Touch | internal/state/state.go:199-202 | the version goes up by one and every subscription is offered the change |
| Store.Store.PutUser | internal/state/accessors.go:48-58 | the whole new state is that of the specified command, every subscription is offered exactly the published changes, and the version goes up by exactly the number of touches; so for every method below |
| Store.Store.DeleteUser | internal/state/accessors.go:60-68 | as the command says, index included; an unknown id changes and publishes nothing |
| Store.Store.UserByEmail | internal/state/accessors.go:80-88 | a user found has the e-mail; while no e-mail was reused, none found means no user has it |
| Store.Store.PutProject | internal/state/accessors.go:98-104 | as the command says |
| Store.Store.DeleteProject | internal/state/accessors.go:106-114 | as the command says, members included |
| Store.Store.PutProjectMember | internal/state/accessors.go:144-154 | as the command says |
| Store.Store.DeleteProjectMember | internal/state/accessors.go:156-165 | as the command says |
| Store.Store.SetEnvVars | internal/state/accessors.go:316-331 | sets, then unsets, whatever order the map is ranged over in |
| Store.Store.PutAssignmentLocked | internal/state/accessors_infra.go:94-107 | the assignment is stored, leaves the group of its old node and joins that of its new one |
| Store.Store.PutAssignments | internal/state/accessors_infra.go:110-116 | the batch applied in order, each change published |
| Store.Store.DeleteAssignments | internal/state/accessors_infra.go:118-128 | the known ids removed from map and index, only these published |
| Store.Store.SetAssignmentObserved | internal/state/accessors_infra.go:143-172 | reports on unknown assignments or from another node are skipped, RUNNING does not hide a finer state, ports are promoted unless empty; any order of the batch gives the same state |
| Store.Store.ListAssignmentsByNode | internal/state/accessors_infra.go:174-183 | through the index, exactly the node's assignments, in strict order of their ids |
| Store.Store.PutToken | internal/state/accessors_infra.go:200-210 | as the command says, hash index included |
| Store.Store.DeleteToken | internal/state/accessors_infra.go:212-220 | as the command says, hash index included |
| Store.Store.TokenByHash | internal/state/accessors_infra.go:223-231 | a token found has the hash; while no hash was reused, none found means no token has it |
| Store.Store.PutDomain | internal/state/accessors_infra.go:271-281 | as the command says, hostname index included |
| Store.Store.DeleteDomain | internal/state/accessors_infra.go:283-291 | as the command says, hostname index included |
| Store.Store.PutKV | internal/state/accessors_infra.go:391-408 | conflicts exactly when a non-negative expected version differs from the current one, absence counting as 0; else the version goes up by one |
| Store.Store.DeleteKV | internal/state/accessors_infra.go:410-423 | an absent key is success whatever version is expected |
| Store.Store.AppendEvents | internal/state/accessors_infra.go:761-771 | the ring keeps the newest 10000, each event published |
| Store.Store.AppendAudit | internal/state/accessors_infra.go:831-841 | the ring keeps the newest 50000 |
| Store.Store.MarkApplied | internal/state/accessors_infra.go:862-880 | false exactly for an id in the window; else it enters and the oldest beyond 8192 leave window and set |
| Store.Store.SnapshotProto | internal/state/snapshot.go:57-121 | lists every collection, each object once, in an arbitrary order |
| Store.Store.RestoreProto | internal/state/snapshot.go:125-257 | whatever the store held, it becomes the one the snapshot's lists rebuild, and every kind is announced |
| Store.Store.StaysValid | internal/state/state.go:96-133 | what any method does keeps a valid store valid |
| ReconcileSpec.ReconcileConverges | internal/daemon/agent/executor.go:210-294 | from owned containers, at most one per assignment, a reconcile whose runtime calls succeeded leaves an owned container for an assignment exactly when it had a matching one or its bring-up was eligible: one only, of the wanted hash; unowned containers are untouched |
| ReconcileSpec.ReconcileIsIdempotent | internal/daemon/agent/executor.go:210-294 | a second reconcile of the same set makes no runtime call but the listing |
| ReconcileSpec.ForeignIsKept | internal/daemon/agent/executor.go:542-559 | a container without the managed, service and assignment labels is never touched, whatever fails |
| ReconcileLaws.LaunchNeedsFence | internal/daemon/agent/executor.go:318-351 | in every reconcile, whatever fails: a pull, prepare, create or start is for an assignment that is to run here, has a payload, and if that is stateful with volumes then its lease names this node and this assignment |
| ReconcileLaws.OneNodeLaunches | internal/daemon/agent/executor.go:640-656 | two executors of different nodes given the same payload never both launch a stateful assignment with volumes |
| ReconcileLaws.BringUpTells | internal/daemon/agent/executor.go:299-351 | over every run with non-empty hashes, for an assignment that is to run here and has no container of its configuration: nothing is called or reported after three failures under its hash; else without a payload nothing is called and FAILED reported; else behind a closed fence nothing is called and PENDING reported; else it is launched, and RUNNING reported with the new container exactly when all calls succeeded, FAILED otherwise |
| ReconcileLaws.ConvergesTo | internal/daemon/agent/executor.go:210-294 | in the terms of labels and frames: when all calls succeed every labelled container runs the present configuration of an assignment to run here, each such assignment has one exactly if it had one or was launched, and matching containers are untouched |
| ReconcileLaws.UnlabelledIsKept | internal/daemon/agent/executor.go:542-559 | whatever fails, a container that lacks the managed, the service or the assignment label stays as it was |
| ReconcileLaws.StoppedIsReported | internal/daemon/agent/executor.go:225-242 | STOPPED is reported exactly for the assignments of this node that are not to run and have a labelled container |
| ReconcileLaws.LaunchesInOrder | internal/daemon/agent/executor.go:327-347 | an image is pulled before anything is prepared, all is prepared before the creation, and created before the start, each with success |
| ReconcileLaws.DesiredIs | internal/daemon/agent/executor.go:561-570 | what is desired under an id is the last assignment of it that is for this node |
| Executor.NodeExecutor.Reconcile | internal/daemon/agent/executor.go:210-294 | for any listing and any failures of runtime calls: every call made is one the set justifies, old containers are removed in assignment order and before any creation, exactly the eligible assignments are launched, retry counters and reports follow from whether the calls of the launch succeeded; a failed listing does nothing |
| Executor.NodeExecutor.Run | internal/daemon/agent/executor.go:123-145 | reconcile after reconcile, with anything happening to the containers in between, is a run in the sense of the retry theorem |
| Executor.NodeExecutor.ListOwned | internal/daemon/agent/executor.go:542-559 | one owned container for each assignment that has one, or failure |
| Executor.NodeExecutor.Classify | internal/daemon/agent/executor.go:225-242 | adopted, to be removed, and STOPPED reports, decided by desired state and hash |
| Executor.NodeExecutor.StopPass | internal/daemon/agent/executor.go:244-251 | only the obsolete containers are stopped and removed, in strict order of their assignments |
| Executor.NodeExecutor.BringUp | internal/daemon/agent/executor.go:299-351 | parked, no payload and a withheld lease make no call; otherwise a launch is made, and exactly when all its calls succeeded the counter is cleared and RUNNING reported, else the counter goes up and FAILED is reported |
| Executor.NodeExecutor.Launch | internal/daemon/agent/executor.go:327-347 | pull, prepare, create and start in this order up to the first failure, and a created container that would not start is removed |
| Executor.NodeExecutor.Fail | internal/daemon/agent/executor.go:573-585 | the counter goes up and remembers the failing hash |
| Executor.NodeExecutor.StopAndRemove | internal/daemon/agent/executor.go:387-394 | stop is best effort; only the one container can go |
| Executor.NodeExecutor.Desired | internal/daemon/agent/executor.go:561-570 | the node's own assignments by id, the last one winning |
| ReconcileRuns.RunParksAfterThree | internal/daemon/agent/executor.go:210-351 | over every run of reconciles, whatever runtime calls fail and whatever happens to containers and assignments in between, with non-empty hashes: at most three failed bring-ups are reported since the last success or change of hash; and an assignment to be brought up is launched if and only if it has a payload, no lease in the way and has not used up the three under this hash; else no pull, prepare, create or start is made for it |
| ReconcileRuns.RunFollowsPolicy | internal/daemon/agent/executor.go:299-351 | the executor's counters and reports over a run are those of the retry policy on the visits, each visit's outcome being decided by its calls |
| RetryPolicy.ParksAfterThree | internal/daemon/agent/executor.go:299-351 | the policy by itself: at most three failures since the last success or change of hash, and a visit tries nothing exactly when there were three with this hash |
| RetryPolicy.CounterIsStreak | internal/daemon/agent/executor.go:573-585 | the counter is the streak of failures and belongs to the hash seen last |
| RetryPolicy.ChangeFreesIffHashKnown | internal/daemon/agent/executor.go:303-310 | after any run, empty hashes included, a changed hash frees a parked assignment exactly when its last failure had a hash that was not empty |
| RetryPolicy.EmptyHashParksForever | internal/daemon/agent/executor.go:303-310 | a run with an empty hash after which the assignment stays parked although its hash changed |
| StatusBuffer.CoalescingIsTransparent | internal/daemon/api/agentsync.go:377-405 | for every window of reports and every assignment, applying the drained batch gives the assignment the same ports, container, message and configuration as applying each report in turn; the same state if and only if the last report is not RUNNING or the last finer state before it means the same to a RUNNING report as the current one; and the stored report the same ports of its own if and only if the last report has some or no report of the window has |
| StatusBuffer.FailedThenRunningIsHidden | internal/state/accessors_infra.go:155-161 | FAILED then RUNNING within one window stays hidden behind HEALTHY, while one by one it shows RUNNING |
| StatusBuffer.AllRunningSurvives | internal/daemon/api/agentsync.go:377-394 | a window of RUNNING reports only always survives |
| StatusBuffer.Buffer.Add | internal/daemon/api/agentsync.go:377-394 | last report wins, ports carried forward when it has none; any order of the frame gives the same buffer |
| StatusBuffer.Buffer.Drain | internal/daemon/api/agentsync.go:396-405 | returns the buffer and empties it |
| HealthMachine.MachineIsHistory | internal/daemon/agent/health.go:115-154 | for threshold at least 1 and probes at any times: once one passed, UNHEALTHY exactly when at least threshold failures follow the last pass, else HEALTHY; before that UNHEALTHY exactly when some probe came after both threshold failures and the grace period, else RUNNING |
| HealthMachine.GraceByLastProbe | internal/daemon/agent/health.go:140-152 | with non-decreasing elapsed times the last probe alone decides about the grace |
| HealthMachine.HealthSM.Observe | internal/daemon/agent/health.go:127-154 | folds one probe into state, pass flag and failure counter, and says whether the state changed |
| HealthMachine.SaysChangedIff | internal/daemon/agent/health.go:127-154 | over every run it says changed exactly when the state did, or when an instance that never passed and is already unhealthy fails again past the grace period |
| HealthMachine.ResolveHealthConfig | internal/daemon/agent/health.go:38-61 | defaults apply to unset fields; the threshold is always at least 1 |
| AuditTopK.QueryIsTopKIff | internal/daemon/api/audit.go:182-254 | for every archive as listed and every filter: the answer is the k newest matching records of ring and archive together, each once, newest first, for every ring in time order and every limit, if and only if the batches of matching records are in order and crowd nothing out: a record of an earlier batch that is newer than one of a later batch is repeated from that batch on; and from no batch on do copies that come before some record both repeat one and outnumber all the copies in the batches after it |
| AuditTopK.RightIffReaderSuffices | internal/daemon/api/audit.go:182-254 | for one limit: the answer is right for every ring in time order if and only if the reader misses a record only when it returns at least k records as new |
| BatchScan.SufficesIffUncrowded | internal/daemon/archive/reader.go:85-121 | the core of it, for any batches: reading whole batches from the newest until the limit, then sorting and cutting, suffices for every limit under exactly these two conditions |
| AuditObjects.QueryIsTopK | internal/daemon/api/audit.go:182-254 | so it is for every ring in time order, limit and listing when the stored objects are in order and no matching record is archived twice, and for every archive when the reader has no limit, although both sources are cut at k and the scan stops early |
| AuditObjects.EveryListingOrderedIff | internal/daemon/archive/archive.go:184-210 | however the sort leaves objects of equal start, every listing is in order if and only if a matching record that is newer than one of an object starting no earlier is held by that object too or by one that starts later |
| AuditObjects.FindsNewestIffOrdered | internal/daemon/archive/reader.go:85-121 | the order is needed for one record already: with limit 1 a newest match is found for every filter if and only if the records in the window are in order as listed |
| AuditObjects.DisjointIsOrdered | internal/daemon/archive/archive.go:156-160 | objects with disjoint key ranges are in order for every filter |
| BatchScan.MissesOlderIffOrdered | internal/daemon/archive/reader.go:31-121 | for any batches: whatever the limit, what is missed is no newer than anything returned, and nothing is missed unless the answer is full, if and only if the batches are in order |
| AuditObjects.ReArchivedHidesRecord | internal/daemon/archive/reader.go:85-121 | a batch archived again after an interrupted sweep: the objects are in order, but the scan counts a record twice, stops at the limit and misses an older one that belongs in the answer |
| AuditObjects.TieOrderHidesNewer | internal/daemon/archive/archive.go:203-209 | in an archive of any size, of two objects with one start the longer is listed first, as the sort by start allows: the scan stops at the shorter and misses a newer record |
| AuditTopK.TopKTimesUnique | internal/daemon/api/audit.go:222-254 | any two answers that are the k newest show the same times |
| AuditQuery.RingQueryNeedsOrder | internal/state/accessors_infra.go:844-857 | the ring query gives the k newest for every k if and only if the matching records lie in the ring in time order |
| AuditQuery.LateRecordHidesNewer | internal/state/accessors_infra.go:844-857 | a ring in which an older record came late: the query for one record returns it instead of the newer |
| AuditTopK.ArchivedMisses | internal/daemon/archive/reader.go:31-121 | for every archive and filter: whatever the limit, the reader misses a matching record only when its answer is full, and then only one no newer than all it returns, if and only if the matching records are in order as listed |
| AuditTopK.SkippedHaveNone | internal/daemon/archive/archive.go:184-210 | skipping objects by their key ranges loses no matching record |
| AuditTopK.ReportsArchived | internal/daemon/api/audit.go:246-252 | the reported count is the number of returned records the live answer did not hold |
| AuditTopK.ListsWhatMeetsWindow | internal/daemon/archive/archive.go:184-210 | the listing has exactly the objects whose range meets the window; no other is fetched |
| AuditTopK.ReturnsFromWindow | internal/daemon/archive/reader.go:31-53 | whatever the filter, the reader returns only records of listed objects that lie in the window and pass it |
| AuditTopK.ScansNoFurther | internal/daemon/archive/reader.go:85-114 | the scan takes whole objects from the newest on and none once the limit is reached |
| AuditQuery.QueryRing | internal/state/accessors_infra.go:844-857 | the backwards loop: at most k matching records from the end; a limit of 0 or less means 100 |
| AuditQuery.HundredByDefault | internal/state/accessors_infra.go:844-857 | as many matching records as there are up to the limit, which is 100 if none is given |
| AuditQuery.ListOverlapping | internal/daemon/archive/archive.go:184-210 | the objects whose range meets the window, by start, equal starts in any order |
| AuditQuery.Scan | internal/daemon/archive/reader.go:85-114 | objects newest first until limit records are kept; no limit reads all |
| AuditQuery.ReadArchive | internal/daemon/archive/reader.go:31-53 | scanned, stably sorted newest first, cut |
| AuditQuery.Merge | internal/daemon/api/audit.go:222-254 | the ring wins on id, stable newest-first sort, cut at k, count of the archived ones |
| AuditQuery.Query | internal/daemon/api/audit.go:202-215 | ring only without an archive, else merged |
| EventTail.TailPrintsEachOnce | internal/cli/events.go:118-165 | over every run of appends in time order and of polls, whatever has left the ring and whatever the limit: the output is the matching events that were new and within reach at each poll, in append order, none twice; it is all of them if and only if no poll was cut short of an event not yet seen |
| EventTailLate.LateIsNeverPrinted | internal/cli/events.go:118-165 | with times in any order, over every run in which no poll is cut: each matching event is printed at most once, at the first poll that sees it, unless it is older than one an earlier poll could see; so the output is all of them in append order if and only if no event is late |
| EventTailLate.TailRepeatsIff | internal/cli/events.go:118-165 | with times in any order, over every run, cut or not: nothing is printed twice if and only if no response brings back a remembered event behind one past the cursor |
| EventTailLate.OlderIsMissed | internal/cli/events.go:129-160 | an event appended after a newer one was printed is never printed |
| EventTailLate.CutAndLateRepeats | internal/cli/events.go:129-160 | three events, a limit of two, two polls: the older is printed, then the newer that the first response cut off, then the older again |
| EventTail.PollPrintsNew | internal/cli/events.go:129-155 | one poll: what was printed before is skipped by the seen ids, the rest is new, several in one millisecond included |
| EventTail.Follower.Poll | internal/cli/events.go:129-160 | the loop over one response, oldest first, with cursor and seen set |
| DotenvRoundTrip.DotenvRoundTrips | internal/cli/dotenv.go:35-184 | for every map with non-empty keys without space, '=' or a leading '#', printed in any order, parsing gives the same map if and only if every value needs quoting or has no space character at its ends |
| DotenvRoundTrip.CommonSpacesSurvive | internal/cli/dotenv.go:157-163 | so every value without white space other than blank, tab, LF and CR survives |
| DotenvRoundTrip.EdgeSpaceIsLost | internal/cli/dotenv.go:157-163 | a value that begins with a no-break space comes back without it |
| DotenvRoundTrip.ValueRoundTrip | internal/cli/dotenv.go:76-184 | one value is read back unchanged under exactly that condition |
| DotenvRoundTrip.BodyOfEscape | internal/cli/dotenv.go:105-121 | the closing quote found is the one printed |
| DotenvRoundTrip.UnescapeOfEscape | internal/cli/dotenv.go:126-184 | unescaping undoes the printer's escapes |
| DotenvRoundTrip.LineRoundTrip | internal/cli/dotenv.go:46-64 | a printed line is read as its key and value |
| DotenvLines.LineIff | internal/cli/dotenv.go:44-68 | exactly which lines are skipped (blank, or a comment), which set a key, and which are errors: no =, nothing before it, a blank or tab in the key, a quote that is not closed; each told of the characters of the line |
| DotenvRules.BareValueIsRead | internal/cli/dotenv.go:95-100 | with or without export and spaces around: a bare value is what stands before the first blank followed by #, trimmed; a # with no blank before it is kept |
| DotenvRules.SingleQuotedIsLiteral | internal/cli/dotenv.go:87-92 | between single quotes all is literal, and what follows them is ignored |
| DotenvRules.DoubleQuotedIsRead | internal/cli/dotenv.go:81-86 | between double quotes the escapes of LF, CR, tab, backslash and quote are replaced, any other backslash is kept, and what follows the quotes is ignored |
| DotenvRules.CommentBecomesValue | internal/cli/dotenv.go:76-100 | a comment with nothing but a blank between it and the = is read as the value |
| DotenvLines.FileIs | internal/cli/dotenv.go:35-72 | a file is an error exactly when some line is one, and then the first such line's; else every key has the value of the last line that sets it, and no other key is set |
| DotenvLines.LastLineNeedsNoBreak | internal/cli/dotenv.go:43-43 | lines are what line feeds part, the last with or without one |
| DotenvRules.PrintedBareIff | internal/cli/dotenv.go:157-163 | a value is printed bare exactly when it has no blank, tab, LF, CR, quote, # or backslash, and else between double quotes |
| DotenvRules.SpacesAre | internal/cli/dotenv.go:44-58 | the spaces trimmed are those of the Unicode property White_Space, by code point |
| Dotenv.ParseDotenv | internal/cli/dotenv.go:35-72 | the loop over lines: skipped lines, the first bad line's error, later duplicates winning |
| Dotenv.DotenvValue | internal/cli/dotenv.go:76-101 | quotes, escapes and trailing comments of one right-hand side |
| Dotenv.QuotedBody | internal/cli/dotenv.go:105-121 | the index loop up to the closing quote |
| Dotenv.UnescapeDouble | internal/cli/dotenv.go:126-152 | the index loop over escapes, unknown ones kept |
| Dotenv.QuoteEnvValue | internal/cli/dotenv.go:157-184 | bare or quoted with escapes |
| Dotenv.PrintVars | internal/cli/env.go:183-188 | one KEY=value line for each key |
| ShellQuote.ShellRoundTrip | internal/cli/jobs.go:233-260 | for every argument list, token recognition and quote removal by sections 2.2 and 2.3 of the POSIX Shell Command Language turn the joined command back into exactly the arguments |
| ShellQuote.JoinIsInjective | internal/cli/jobs.go:233-260 | two argument lists never give one command |
| ShellQuote.QuotedIsOneWord | internal/cli/jobs.go:241-251 | whatever follows, a quoted argument is read as that argument |
| ShellQuote.LeftBareIff | internal/cli/jobs.go:241-260 | an argument is left bare exactly when it is not empty and has only letters, digits and -_./:=, and else put between single quotes |
| ShellQuote.Join | internal/cli/jobs.go:233-239 | quotes each argument and joins with blanks |
| ShellQuote.Quote | internal/cli/jobs.go:241-251 | bare when non-empty and all characters are safe, else quoted |
| Base62.EncodedDenotes | internal/daemon/api/token.go:39-56 | the digits denote exactly the big-endian value, without a leading zero unless it is 0 |
| Base62.FirstByteWeighsMost | internal/daemon/api/token.go:39-45 | the bytes are read most significant first |
| Base62.EncodeIsInjective | internal/daemon/api/token.go:39-56 | inputs of one length encode injectively |
| Base62.DigitCount | internal/daemon/api/token.go:39-56 | at most k digits exactly when the number is below 62 to the k |
| Base62.TokenLength | internal/daemon/api/token.go:20-56 | 32 bytes take at most 43 digits, as 62^43 exceeds 2^256 |
| Base62.Base62Encode | internal/daemon/api/token.go:39-56 | the division loop appends the digits least significant first, then reverses them |
| Base62.ReverseInPlace | internal/daemon/api/token.go:52-54 | the swap loop reverses the slice |

## Left out

- The gRPC, TLS, HTTP, object-storage, Docker and systemd plumbing, the command definitions, the terminal views, logging, and permission checks: no hard property.
- Hashing, sealing, token minting and certificates: hashes and ids are abstract values.
- The scheduler, the orchestrator, the raft state machine, the liveness monitor, the registry and volumes: not part of this model.
- Integer widths: counters, versions and times are unbounded integers.
- Cloning of protobuf messages: values are immutable here, so aliasing between the store and its callers is not expressed.
- Collections of the store without an index of their own (apps, environments, releases, deployments, builds, nodes, join tokens, volumes, backups, allocations, addresses, jobs, rules, channels): users, projects, members, variables, assignments, tokens, domains, keys and the rings stand for all.
- `TouchTokens`, `NextReleaseVersion` and the other list and lookup methods: single loops without a cross-function property.
- StoreRuns.SnapshotRoundTrip: does not model empty inner maps, which a snapshot drops, nor the version counter and the hub, which a restore keeps.
- The bytes of a stored value and of a secret are strings; the expiry of a key is kept but nothing expires here, as in the source.
- MeshPeers.MeshDelivers: delivery at the level of cryptokey routing; endpoints' reachability, NAT and keepalives in time are not modelled, nor a mesh address outside 10.90.0.0/16 or one that does not parse.
- MeshJoin.JoinsAreSafe: what a join records after giving up is not claimed unique, and commands that rewrite a node's record with the address it has are not steps of the model.
- MeshJoin.JoinServer.RegisterNode: between its steps only other nodes' records change; several joins of one node are covered by the runs of the protocol.
- LogFollow.PunctualFollowSorts: a send that fails and the enrichment of lines are not modelled.
- AssignmentSender.NoLostWakeup: the runtime payload of a frame, for which nothing is watched, is not modelled; a frame still under way when the agent connects again counts as lost, and an agent that has received nothing counts as holding the empty list.
- CertLock.LockExcludes: one clock for all servers; a read from a server that lags behind is a read that was made earlier. Errors of the store other than conflicts end the call.
- Executor.NodeExecutor.Reconcile: container names, PULLING and STARTING reports, inspected port bindings, liveness polling and the health manager are not modelled; each container gets a fresh id, and a failed call changes nothing, so a creation that times out after it took effect shows only as a container that appears between two reconciles.
- ReconcileSpec.ReconcileConverges: more than one owned container for an assignment is excluded, since the source keeps only one of them in view; a removal that fails can leave such a state, and the next reconcile then sees one of the two.
- The volume lease guards only the start; a running container is adopted without asking for it again, so mutual exclusion between nodes is not claimed.
- Running the health probes and their monitors.
- Decoding errors of archived objects, which end the query with an error, and ListEvents' permission checks.
- EventTail.TailPrintsEachOnce: polls of the ring only; with the archive asked for, ring and archive are one log. An error ends the loop. Events out of time order are the subject of EventTailLate, where what a cut poll of such a run prints late is not characterised event by event.
- Dotenv.ParseDotenv: text is a sequence of characters; bytes that are not UTF-8 and the 4 MiB line limit are not modelled.
- ShellQuote.ShellRoundTrip: words and quotes only; that a first word with '=' is an assignment, or that a bare word may be a reserved one, is beyond token recognition and quote removal. A NUL cannot be passed to a program at all.
