/** A store writer, the change hub, the sessions of `runSender` that serve one node and the agent
    on that node, interleaved step by step: no change of the node's assignments is ever left
    unsent, unless a session skips its first send although the agent is behind. */
module AssignmentSender {
  import opened WatchHub

  datatype Assignment = Assignment(id: string, config: string)

  /** The writer holding the store lock. `dirty`: it has changed assignments it has not yet
      published; `Offering`: between the two halves of an offer to this session. */
  datatype Writer = Unlocked | Locked(dirty: bool) | Offering

  /** A frame: the list, and the store's version, read after it. History: `now` is the node's
      list at that second read, `epoch` tells whose counter the version belongs to. */
  datatype Frame = Frame(list: seq<Assignment>, version: nat, now: seq<Assignment>, epoch: nat)

  datatype Pc =
    | Checking                          // subscribed, about to compare versions
    | Reading                           // about to read the node's list
    | Versioning(list: seq<Assignment>) // the list read, the version not yet
    | Sending(frame: Frame)
    | Waiting                           // blocked in select
    | Woken                             // took the signal, not drained yet
    | Drained                           // drained, timer not looked at yet
    | Stopped

  datatype Session = Session(
    list: seq<Assignment>,   // the node's list in the store
    version: nat,            // the mutation counter of the server's store
    epoch: nat,              // history: which server that is
    writer: Writer,
    sub: Sub,
    armed: bool,             // the debounce timer
    pc: Pc,
    inflight: seq<Frame>,    // sent, not received yet
    held: Frame,             // the frame the agent received last
    heldVersion: nat,        // the version it names in its hello
    astray: bool,            // history: the session skipped its first send wrongly, and has read no list since
    offered: set<Change>,    // history: changes of a subscribed kind
    drained: set<Change>)    // history: what Drain returned

  datatype Action =
    | Lock
    | Mutate(list: seq<Assignment>) // change stored assignments, this node's or others'
    | Touch(c: Change)              // count the change, first half of the offer
    | Signal                        // second half
    | Unlock
    | Connect
    | Check
    | Read
    | ReadVersion
    | Sent
    | SendFailed
    | Wake
    | Drain
    | Arm
    | Fire
    | Cancel
    | Deliver
    | AgentRestart
    | Failover(version: nat)        // another server takes over, with the same data and a counter of its own

  /** What an agent has before its first frame. */
  function Nothing(epoch: nat): Frame {
    Frame([], 0, [], epoch)
  }

  function Fresh(): Sub {
    Sub({KindAssignment}, {}, false, false)
  }

  /** No session yet; a store never changed holds nothing. */
  predicate Init(s: Session) {
    && s.writer == Unlocked && s.pc == Stopped && s.sub == Fresh().(closed := true) && !s.armed && !s.astray
    && (s.version == 0 ==> s.list == [])
    && s.inflight == [] && s.held == Nothing(s.epoch) && s.heldVersion == 0
  }

  predicate Enabled(s: Session, a: Action) {
    match a
    case Lock => s.writer.Unlocked?
    case Mutate(_) => s.writer.Locked?
    case Touch(_) => s.writer.Locked?
    case Signal => s.writer.Offering?
    case Unlock => s.writer == Locked(false) // every mutation is followed by its touch
    case Connect => s.pc.Stopped? && !s.writer.Offering?
    case Check => s.pc.Checking? && s.writer.Unlocked?
    case Read => s.pc.Reading? && s.writer.Unlocked?
    case ReadVersion => s.pc.Versioning? && s.writer.Unlocked?
    case Sent => s.pc.Sending?
    case SendFailed => s.pc.Sending?
    case Wake => s.pc.Waiting? && s.sub.signal
    case Drain => s.pc.Woken?
    case Arm => s.pc.Drained?
    case Fire => s.pc.Waiting? && s.armed
    case Cancel => s.pc.Waiting?
    case Deliver => s.inflight != []
    case AgentRestart => s.pc.Stopped?
    case Failover(v) => s.pc.Stopped? && s.writer.Unlocked? && (v == 0 ==> s.list == [])
  }

  function Next(s: Session, a: Action): Session
    requires Enabled(s, a)
  {
    match a
    case Lock => s.(writer := Locked(false))
    case Mutate(list) => s.(list := list, writer := Locked(true))
    case Touch(c) =>
      var t := s.(version := s.version + 1);
      if Wants(s.sub, c) then t.(sub := Recorded(s.sub, c), writer := Offering, offered := s.offered + {c})
      else if s.sub.closed && c.kind == KindAssignment then t.(writer := Locked(false))
      else t
    case Signal => s.(sub := Signalled(s.sub), writer := Locked(false))
    case Unlock => s.(writer := Unlocked)
    case Connect =>
      s.(pc := Checking, sub := Fresh(), armed := false, inflight := [], astray := false, offered := {}, drained := {})
    case Check =>
      if s.version != s.heldVersion then s.(pc := Reading) else s.(pc := Waiting, astray := s.held.list != s.list)
    case Read => s.(pc := Versioning(s.list), astray := false)
    case ReadVersion => s.(pc := Sending(Frame(s.pc.list, s.version, s.list, s.epoch)))
    case Sent => s.(pc := Waiting, inflight := s.inflight + [s.pc.frame])
    case SendFailed => Closed(s)
    case Wake => s.(pc := Woken, sub := s.sub.(signal := false))
    case Drain => s.(pc := Drained, drained := s.drained + s.sub.pending, sub := s.sub.(pending := {}))
    case Arm => s.(pc := Waiting, armed := true)
    case Fire => s.(pc := Reading, armed := false)
    case Cancel => Closed(s)
    case Deliver =>
      var f := s.inflight[0];
      var v := if f.version > s.heldVersion then f.version else s.heldVersion;
      s.(held := f, inflight := s.inflight[1..], heldVersion := v)
    case AgentRestart => s.(held := Nothing(s.epoch), heldVersion := 0, inflight := [])
    case Failover(v) => s.(version := v, epoch := s.epoch + 1)
  }

  /** `defer sub.Close()`. */
  function Closed(s: Session): Session {
    s.(pc := Stopped, sub := s.sub.(pending := {}, closed := true))
  }

  /** The list the agent holds once everything on its way has arrived. */
  function Latest(s: Session): seq<Assignment> {
    if s.inflight != [] then s.inflight[|s.inflight| - 1].list else s.held.list
  }

  /** The newest list read for the agent. */
  function Seen(s: Session): seq<Assignment> {
    if s.pc.Versioning? then s.pc.list else if s.pc.Sending? then s.pc.frame.list else Latest(s)
  }

  /** Some step that leads to another send, or to the decision on the first, is still due. */
  predicate WorkDue(s: Session) {
    || s.writer.Offering? || s.writer == Locked(true)
    || s.sub.signal || s.armed
    || s.pc.Woken? || s.pc.Drained? || s.pc.Reading? || s.pc.Checking?
  }

  predicate Inv(s: Session) {
    && s.sub.kinds == {KindAssignment}
    && (s.sub.closed <==> s.pc.Stopped?)
    && (s.pc.Checking? ==> s.inflight == [] && !s.astray)
    && (!s.pc.Stopped? ==> WorkDue(s) || (Seen(s) == s.list <==> !s.astray))
    && (s.astray && !s.pc.Stopped? ==> s.inflight == [] && !s.pc.Versioning? && !s.pc.Sending?)
    && (s.sub.pending != {} ==> s.sub.signal || s.writer.Offering? || s.pc.Woken?)
    && (!s.pc.Stopped? ==> s.offered == s.sub.pending + s.drained)
  }

  predicate OfWriter(a: Action) {
    a.Lock? || a.Mutate? || a.Touch? || a.Signal? || a.Unlock?
  }

  lemma WriterKeepsInv(s: Session, a: Action)
    requires Inv(s) && Enabled(s, a) && OfWriter(a)
    ensures Inv(Next(s, a))
  {
  }

  predicate OfAgent(a: Action) {
    a.Deliver? || a.AgentRestart? || a.Failover? || a.Connect?
  }

  lemma AgentKeepsInv(s: Session, a: Action)
    requires Inv(s) && Enabled(s, a) && OfAgent(a)
    ensures Inv(Next(s, a))
  {
  }

  lemma SenderKeepsInv(s: Session, a: Action)
    requires Inv(s) && Enabled(s, a) && !OfWriter(a) && !OfAgent(a)
    ensures Inv(Next(s, a))
  {
  }

  lemma StepKeepsInv(s: Session, a: Action)
    requires Inv(s) && Enabled(s, a)
    ensures Inv(Next(s, a))
  {
    hide Inv, Next, Enabled;
    if OfWriter(a) { WriterKeepsInv(s, a); } else if OfAgent(a) { AgentKeepsInv(s, a); } else { SenderKeepsInv(s, a); }
  }

  // ---------- what versions say ----------

  /** A frame with the server's present version shows in `now` the node's present list. */
  predicate Current(s: Session, f: Frame) {
    && f.epoch <= s.epoch
    && (f.epoch == s.epoch ==> f.version <= s.version)
    && (f.epoch == s.epoch && f.version == s.version ==> f.now == s.list || s.writer == Locked(true))
  }

  predicate Versioned(s: Session) {
    && Current(s, s.held)
    && (forall f :: f in s.inflight ==> Current(s, f))
    && (s.pc.Sending? ==> Current(s, s.pc.frame) && s.pc.frame.epoch == s.epoch)
    && (s.version == 0 ==> s.list == [] || s.writer == Locked(true))
    && s.held.version <= s.heldVersion
  }

  lemma StepKeepsCurrent(s: Session, a: Action, f: Frame)
    requires Current(s, f) && Enabled(s, a)
    ensures Current(Next(s, a), f)
  {
  }

  lemma StepKeepsVersioned(s: Session, a: Action)
    requires Versioned(s) && Enabled(s, a)
    ensures Versioned(Next(s, a))
  {
    var t := Next(s, a);
    forall f | Current(s, f) ensures Current(t, f) {
      StepKeepsCurrent(s, a, f);
    }
    hide Current;
    FramesVersioned(s, a);
    NothingUncounted(s, a);
    forall f | f in t.inflight ensures Current(t, f) {
      assert f in s.inflight || (a.Sent? && f == s.pc.frame);
    }
  }

  lemma FramesVersioned(s: Session, a: Action)
    requires Versioned(s) && Enabled(s, a)
    ensures var t := Next(s, a);
            && (a.Deliver? ==> Current(s, t.held)) && (a.AgentRestart? ==> Current(t, t.held))
            && (t.pc.Sending? && !s.pc.Sending? ==> Current(t, t.pc.frame))
            && (t.pc.Sending? ==> t.pc.frame.epoch == t.epoch)
  {
    assert a.Deliver? ==> s.inflight[0] in s.inflight;
  }

  lemma NothingUncounted(s: Session, a: Action)
    requires Enabled(s, a) && (s.version == 0 ==> s.list == [] || s.writer == Locked(true))
    ensures var t := Next(s, a);
            t.version == 0 ==> t.list == [] || t.writer == Locked(true)
  {
  }

  /** The version the agent names belongs to the frame it holds, and counts on this server. */
  predicate SameCounter(s: Session) {
    s.held.epoch == s.epoch && s.heldVersion == s.held.version
  }

  /** The list changed between the two reads of the frame. */
  predicate Torn(f: Frame) {
    f.list != f.now
  }

  ghost predicate Execution(states: seq<Session>, actions: seq<Action>) {
    && |states| == |actions| + 1
    && Init(states[0])
    && forall i :: 0 <= i < |actions| ==> Enabled(states[i], actions[i]) && states[i + 1] == Next(states[i], actions[i])
  }

  lemma {:induction false} RunKeepsInv(states: seq<Session>, actions: seq<Action>, k: nat)
    requires Execution(states, actions) && k <= |actions|
    ensures Inv(states[k]) && Versioned(states[k])
    decreases k
  {
    hide Inv, Versioned, Enabled, Next;
    if k > 0 {
      RunKeepsInv(states, actions, k - 1);
      assert Enabled(states[k - 1], actions[k - 1]) && states[k] == Next(states[k - 1], actions[k - 1]);
      StepKeepsInv(states[k - 1], actions[k - 1]);
      StepKeepsVersioned(states[k - 1], actions[k - 1]);
    } else {
      InitHolds(states[0]);
    }
  }

  lemma InitHolds(s: Session)
    requires Init(s)
    ensures Inv(s) && Versioned(s)
  {
  }

  /** The session is blocked in select, no signal is up, no timer is armed and no publisher is
      in the middle of a change. */
  predicate Quiet(s: Session) {
    s.pc.Waiting? && !s.sub.signal && !s.armed && (s.writer.Unlocked? || s.writer == Locked(false))
  }

  /** No lost wakeup, end to end: in every run, over any number of sessions, whenever the session
      is quiet every change of a subscribed kind was drained, and the agent holds or is about to
      receive the node's current list, unless this session went astray at its start; then it
      does not. At any time before it stops, each such change is pending or was drained. */
  lemma NoLostWakeup(states: seq<Session>, actions: seq<Action>, k: nat)
    requires Execution(states, actions) && k <= |actions|
    ensures Quiet(states[k]) ==> (Latest(states[k]) == states[k].list <==> !states[k].astray)
    ensures Quiet(states[k]) ==> states[k].offered == states[k].drained
    ensures !states[k].pc.Stopped? ==> states[k].offered == states[k].sub.pending + states[k].drained
  {
    RunKeepsInv(states, actions, k);
  }

  /** When a session goes astray: it skips its first send, the agent naming the store's version.
      If that version came with the list the agent holds, and from this server, then exactly
      when the list had changed between the two reads of that frame. */
  lemma AstrayIffTorn(states: seq<Session>, actions: seq<Action>, k: nat)
    requires Execution(states, actions) && k < |actions| && actions[k].Check?
    ensures states[k + 1].astray <==>
              states[k].version == states[k].heldVersion && states[k].held.list != states[k].list
    ensures states[k].version == states[k].heldVersion && SameCounter(states[k]) ==>
              (states[k + 1].astray <==> Torn(states[k].held))
  {
    hide Versioned;
    RunKeepsInv(states, actions, k);
    assert Enabled(states[k], Check) && states[k + 1] == Next(states[k], Check);
    if states[k].version == states[k].heldVersion && SameCounter(states[k]) {
      HeldIsCurrent(states[k]);
    }
  }

  lemma HeldIsCurrent(s: Session)
    requires Versioned(s) && s.writer.Unlocked? && SameCounter(s) && s.heldVersion == s.version
    ensures s.held.now == s.list
  {
  }

  // ---------- one server, no torn frames ----------

  /** No list changes between the two reads of a frame, and no other server takes over. */
  ghost predicate Undisturbed(states: seq<Session>, actions: seq<Action>) {
    forall i :: 0 <= i < |actions| && i < |states| ==> Steady(states[i], actions[i])
  }

  predicate Steady(s: Session, a: Action) {
    && !a.Failover?
    && (a.ReadVersion? && s.pc.Versioning? ==> s.pc.list == s.list)
  }

  predicate Whole(s: Session, f: Frame) {
    !Torn(f) && f.epoch == s.epoch && f.version <= s.version
  }

  /** Whole frames of this server, with rising versions. */
  predicate Sound(s: Session) {
    && Whole(s, s.held) && s.heldVersion == s.held.version && !s.astray
    && (forall f :: f in s.inflight ==> Whole(s, f) && s.held.version <= f.version)
    && (forall i, j :: 0 <= i < j < |s.inflight| ==> s.inflight[i].version <= s.inflight[j].version)
    && (s.pc.Sending? ==>
          Whole(s, s.pc.frame) && s.held.version <= s.pc.frame.version &&
          forall f :: f in s.inflight ==> f.version <= s.pc.frame.version)
  }

  lemma StepKeepsSound(s: Session, a: Action)
    requires Sound(s) && Versioned(s) && Enabled(s, a) && Steady(s, a)
    ensures Sound(Next(s, a))
  {
    hide Versioned;
    if a.Check? {
      if s.heldVersion == s.version {
        HeldIsCurrent(s);
      }
    } else if a.Deliver? {
      hide Next;
      DeliverKeepsSound(s);
    } else if a.Sent? {
      hide Next;
      SentKeepsSound(s);
    } else if OfWriter(a) {
      WriterKeepsSound(s, a);
    } else {
      RestKeepsSound(s, a);
    }
  }

  lemma WriterKeepsSound(s: Session, a: Action)
    requires Sound(s) && Enabled(s, a) && OfWriter(a)
    ensures Sound(Next(s, a))
  {
  }

  lemma RestKeepsSound(s: Session, a: Action)
    requires Sound(s) && Enabled(s, a) && Steady(s, a) && !OfWriter(a) && !a.Check? && !a.Deliver? && !a.Sent?
    ensures Sound(Next(s, a))
  {
  }

  lemma SentKeepsSound(s: Session)
    requires Sound(s) && s.pc.Sending?
    ensures Sound(Next(s, Sent))
  {
  }

  lemma DeliverKeepsSound(s: Session)
    requires Sound(s) && s.inflight != []
    ensures Sound(Next(s, Deliver))
  {
    assert s.inflight[0] in s.inflight;
    var t := Next(s, Deliver);
    forall f | f in t.inflight ensures Whole(t, f) && t.held.version <= f.version {
      var i :| 0 < i < |s.inflight| && s.inflight[i] == f;
    }
  }

  /** With one server and whole frames the agent is never left behind. */
  lemma {:induction false} NeverAstray(states: seq<Session>, actions: seq<Action>, k: nat)
    requires Execution(states, actions) && Undisturbed(states, actions) && k <= |actions|
    ensures Sound(states[k])
    ensures Quiet(states[k]) ==> Latest(states[k]) == states[k].list
    decreases k
  {
    hide Sound, Inv, Versioned, Enabled, Next;
    if k > 0 {
      NeverAstray(states, actions, k - 1);
      assert Enabled(states[k - 1], actions[k - 1]) && states[k] == Next(states[k - 1], actions[k - 1]);
      RunKeepsInv(states, actions, k - 1);
      StepKeepsSound(states[k - 1], actions[k - 1]);
    } else {
      InitIsSound(states[0]);
    }
    NoLostWakeup(states, actions, k);
    SoundIsNotAstray(states[k]);
  }

  lemma InitIsSound(s: Session)
    requires Init(s)
    ensures Sound(s)
  {
  }

  lemma SoundIsNotAstray(s: Session)
    requires Sound(s)
    ensures !s.astray
  {
  }

  // ---------- the session always gets there ----------

  /** The session's own steps when sends succeed; `select` takes any that is ready. */
  predicate Own(a: Action) {
    a.Check? || a.Read? || a.ReadVersion? || a.Sent? || a.Wake? || a.Drain? || a.Arm? || a.Fire?
  }

  function StepsLeft(s: Session): nat {
    (if s.sub.signal then 7 else 0) + (if s.armed then 4 else 0) +
    match s.pc
    case Checking => 4
    case Reading => 3
    case Versioning(_) => 2
    case Sending(_) => 1
    case Waiting => 0
    case Woken => 6
    case Drained => 5
    case Stopped => 0
  }

  /** Steps of the session alone, in any order it may take them. */
  ghost predicate OwnRun(states: seq<Session>, actions: seq<Action>) {
    && |states| == |actions| + 1
    && forall i :: 0 <= i < |actions| ==>
         Own(actions[i]) && Enabled(states[i], actions[i]) && states[i + 1] == Next(states[i], actions[i])
  }

  /** The session has not gone astray and is not about to. */
  predicate OnCourse(s: Session) {
    !s.astray && (s.pc.Checking? && s.version == s.heldVersion ==> s.held.list == s.list)
  }

  /** A running session with an idle writer. */
  predicate Alone(s: Session) {
    Inv(s) && s.writer.Unlocked? && !s.pc.Stopped?
  }

  lemma OwnStepDescends(s: Session, a: Action)
    requires Alone(s) && Own(a) && Enabled(s, a)
    ensures var t := Next(s, a);
            Alone(t) && t.list == s.list && StepsLeft(t) < StepsLeft(s) && (OnCourse(s) ==> OnCourse(t))
  {
    StepKeepsInv(s, a);
  }

  /** With nothing left to do the session is quiet. */
  lemma StuckIsQuiet(s: Session)
    requires Alone(s) && forall a :: Own(a) ==> !Enabled(s, a)
    ensures Quiet(s) && (Latest(s) == s.list <==> !s.astray)
  {
    assert !Enabled(s, Check) && !Enabled(s, Read) && !Enabled(s, ReadVersion) && !Enabled(s, Sent);
    assert !Enabled(s, Wake) && !Enabled(s, Drain) && !Enabled(s, Arm) && !Enabled(s, Fire);
  }

  /** From any reachable state, once the writer is idle the session runs at most 17 more steps
      of its own, whichever ready branch it takes each time, and unless it went or goes astray it
      has then sent the current list. */
  lemma {:induction false} SessionCatchesUp(states: seq<Session>, actions: seq<Action>)
    requires OwnRun(states, actions) && Alone(states[0])
    ensures |actions| <= StepsLeft(states[0]) <= 17
    ensures var end := states[|actions|];
            && Alone(end) && end.list == states[0].list && (OnCourse(states[0]) ==> OnCourse(end))
            && ((forall a :: Own(a) ==> !Enabled(end, a)) ==> Quiet(end) && (Latest(end) == end.list <==> !end.astray))
  {
    hide Enabled, Next, Quiet, OnCourse, Alone;
    if actions != [] {
      OwnStepDescends(states[0], actions[0]);
      OwnRunTail(states, actions);
      SessionCatchesUp(states[1..], actions[1..]);
    }
    var end := states[|actions|];
    if forall a :: Own(a) ==> !Enabled(end, a) {
      StuckIsQuiet(end);
    }
  }

  lemma OwnRunTail(states: seq<Session>, actions: seq<Action>)
    requires OwnRun(states, actions) && actions != []
    ensures OwnRun(states[1..], actions[1..])
  {
  }

  // ---------- runs that go astray ----------

  ghost predicate NoFailover(actions: seq<Action>) {
    forall i :: 0 <= i < |actions| ==> !actions[i].Failover?
  }

  /** No frame of the run is torn. */
  ghost predicate WholeFrames(states: seq<Session>, actions: seq<Action>)
    requires |states| == |actions| + 1
  {
    forall i :: 0 <= i < |actions| && actions[i].ReadVersion? && states[i].pc.Versioning? ==>
      states[i].pc.list == states[i].list
  }

  lemma Step(states: seq<Session>, actions: seq<Action>, a: Action)
    returns (states': seq<Session>, actions': seq<Action>)
    requires Execution(states, actions) && Enabled(states[|actions|], a)
    ensures Execution(states', actions') && states'[|actions'|] == Next(states[|actions|], a) && states'[0] == states[0]
    ensures NoFailover(actions) && !a.Failover? ==> NoFailover(actions')
    ensures WholeFrames(states, actions) && (a.ReadVersion? ==> states[|actions|].pc.list == states[|actions|].list) ==>
              WholeFrames(states', actions')
  {
    hide Init, Next;
    states', actions' := states + [Next(states[|actions|], a)], actions + [a];
    hide Enabled;
  }

  /** A writer changes the node's list while the session is between two steps, or is gone. */
  lemma Changes(states: seq<Session>, actions: seq<Action>, c: Change, after: seq<Assignment>)
    returns (states': seq<Session>, actions': seq<Action>)
    requires Execution(states, actions) && c.kind == KindAssignment
    requires var s := states[|actions|];
             s.writer.Unlocked? && s.sub.kinds == {KindAssignment} && (s.sub.closed <==> s.pc.Stopped?)
    ensures Execution(states', actions') && states'[0] == states[0]
    ensures NoFailover(actions) ==> NoFailover(actions')
    ensures WholeFrames(states, actions) ==> WholeFrames(states', actions')
    ensures var s, t := states[|actions|], states'[|actions'|];
            && t.list == after && t.version == s.version + 1 && t.epoch == s.epoch && t.writer.Unlocked? && t.pc == s.pc
            && t.sub.kinds == s.sub.kinds && t.sub.closed == s.sub.closed
            && t.inflight == s.inflight && t.held == s.held && t.heldVersion == s.heldVersion
  {
    var gone := states[|actions|].pc.Stopped?;
    hide Execution;
    states', actions' := states, actions;
    states', actions' := Step(states', actions', Lock);
    states', actions' := Step(states', actions', Mutate(after));
    states', actions' := Step(states', actions', Touch(c));
    if !gone {
      states', actions' := Step(states', actions', Signal);
    }
    states', actions' := Step(states', actions', Unlock);
  }

  lemma Reads(s: Session) returns (states: seq<Session>, actions: seq<Action>)
    requires Init(s) && s.version > 0
    ensures Execution(states, actions) && states[0] == s && NoFailover(actions) && WholeFrames(states, actions)
    ensures var t := states[|actions|];
            && t.pc == Versioning(s.list) && t.sub == Fresh() && t.writer.Unlocked? && t.inflight == []
            && t.list == s.list && t.version == s.version && t.epoch == s.epoch && t.heldVersion == 0
  {
    states, actions := [s], [];
    states, actions := Step(states, actions, Connect);
    states, actions := Step(states, actions, Check);
    states, actions := Step(states, actions, Read);
  }

  /** The frame is finished, sent and received, and then the connection is lost. */
  lemma SendsAndStops(states: seq<Session>, actions: seq<Action>) returns (states': seq<Session>, actions': seq<Action>)
    requires Execution(states, actions)
    requires var s := states[|actions|];
             s.pc.Versioning? && s.writer.Unlocked? && s.inflight == [] && s.heldVersion <= s.version
    ensures Execution(states', actions') && states'[0] == states[0]
    ensures NoFailover(actions) ==> NoFailover(actions')
    ensures WholeFrames(states, actions) && states[|actions|].pc.list == states[|actions|].list ==>
              WholeFrames(states', actions')
    ensures var s, t := states[|actions|], states'[|actions'|];
            && t.pc.Stopped? && t.writer.Unlocked? && t.list == s.list && t.version == s.version && t.epoch == s.epoch
            && t.held == Frame(s.pc.list, s.version, s.list, s.epoch) && t.heldVersion == s.version
            && t.sub.kinds == s.sub.kinds && t.sub.closed && t.inflight == []
  {
    hide Execution;
    states', actions' := Step(states, actions, ReadVersion);
    states', actions' := Step(states', actions', Sent);
    states', actions' := Step(states', actions', Deliver);
    states', actions' := Step(states', actions', Cancel);
  }

  /** The agent connects again and names the store's version although its list is another. */
  lemma SkipsWrongly(states: seq<Session>, actions: seq<Action>) returns (states': seq<Session>, actions': seq<Action>)
    requires Execution(states, actions)
    requires var s := states[|actions|];
             s.pc.Stopped? && s.writer.Unlocked? && s.heldVersion == s.version && s.held.list != s.list
    ensures Execution(states', actions') && states'[0] == states[0]
    ensures NoFailover(actions) ==> NoFailover(actions')
    ensures WholeFrames(states, actions) ==> WholeFrames(states', actions')
    ensures var s, t := states[|actions|], states'[|actions'|];
            Quiet(t) && t.astray && t.list == s.list && Latest(t) == s.held.list
  {
    hide Execution;
    states', actions' := Step(states, actions, Connect);
    states', actions' := Step(states', actions', Check);
  }

  /** One server: the list changes between the two reads of a frame, and the connection is lost
      after that frame. The next session skips its first send, and the agent keeps the old list
      although nothing is left to do. */
  lemma TornFrameIsSkipped(s: Session, c: Change, after: seq<Assignment>)
    returns (states: seq<Session>, actions: seq<Action>)
    requires Init(s) && s.version > 0 && c.kind == KindAssignment && after != s.list
    ensures Execution(states, actions) && states[0] == s && NoFailover(actions)
    ensures var end := states[|actions|];
            Quiet(end) && end.astray && Latest(end) == s.list && end.list == after
  {
    hide Execution;
    states, actions := Reads(s);
    states, actions := Changes(states, actions, c, after);
    states, actions := SendsAndStops(states, actions);
    states, actions := SkipsWrongly(states, actions);
  }

  /** Versions of two servers are not comparable: one takes over with a smaller counter and, by a
      change the agent has not seen, comes to the version the agent remembers. No frame is torn. */
  lemma FailoverIsSkipped(s: Session, c: Change, after: seq<Assignment>)
    returns (states: seq<Session>, actions: seq<Action>)
    requires Init(s) && s.version > 1 && c.kind == KindAssignment && after != s.list
    ensures Execution(states, actions) && states[0] == s && WholeFrames(states, actions)
    ensures var end := states[|actions|];
            Quiet(end) && end.astray && Latest(end) == s.list && end.list == after
  {
    hide Execution;
    states, actions := Reads(s);
    states, actions := SendsAndStops(states, actions);
    states, actions := Step(states, actions, Failover(s.version - 1));
    states, actions := Changes(states, actions, c, after);
    states, actions := SkipsWrongly(states, actions);
  }
}
