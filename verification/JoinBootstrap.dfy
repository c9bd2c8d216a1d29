/** A node that joins is sent the owned members while updates to them go on. */
module JoinBootstrap {
  import opened Rpc
  import opened Versions
  import opened RegistryState
  import opened PendingQueue

  /** How far OnJoin has come: not begun, client inserted, pushing the snapshot, done. */
  datatype Phase = Joining | Connected | Pushing(rest: seq<Member>) | Bootstrapped

  /**
   * One sender and one target. intact until an update is dropped by the queue or lost by the
   * network. dropped holds the copies that the target has removed since the snapshot and
   * since the sender's present copy of the same member was pushed.
   */
  datatype Link = Link(
    sender: State,
    phase: Phase,
    queue: Queue<Member>,
    inFlight: Option<Member>,
    target: State,
    intact: bool,
    dropped: set<Member>)

  datatype Step =
    | SenderEvent(e: Event)
    | Insert
    | Snapshot(owned: seq<Member>)
    | PushNext
    | TakeNext
    | Delivered
    | Lost
    | TargetEvent(e: Event)

  function Enqueue(l: Link, m: Member): Link {
    l.(queue := Pushed(l.queue, m), intact := l.intact && |l.queue.pending| <= l.queue.limit)
  }

  /** OnUpdate pushes owner notifications to every client inserted so far. */
  function Forward(l: Link, notes: seq<Note>): Link {
    if notes == [] then l
    else
      var (before, n) := (Forward(l, notes[..|notes| - 1]), notes[|notes| - 1]);
      if n.owner && !l.phase.Joining? then Enqueue(before, n.member) else before
  }

  /** So the queue of a client receives what an owner-only subscription hears. */
  lemma {:induction false} ForwardsWhatOwnersHear(l: Link, notes: seq<Note>)
    ensures Forward(l, notes).queue == if l.phase.Joining? then l.queue else PushedAll(l.queue, Heard(notes, true))
    ensures Forward(l, notes).phase == l.phase && Forward(l, notes).queue.limit == l.queue.limit
  {
    if notes != [] {
      var (init, n) := (notes[..|notes| - 1], notes[|notes| - 1]);
      ForwardsWhatOwnersHear(l, init);
      if n.owner {
        var (before, m) := (Heard(init, true), n.member);
        assert (before + [m])[..|before + [m]| - 1] == before;
      } else {
        assert Heard(init, true) + [] == Heard(init, true);
      }
    }
  }

  ghost predicate OwnedSnapshot(s: State, owned: seq<Member>) {
    forall m :: m in owned <==> m.state.id in s.members && s.Owns(m.state.id) && m == s.members[m.state.id]
  }

  function RemovedCopies(s: State, t: State): set<Member> {
    set id | id in s.members && id !in t.members :: s.members[id]
  }

  ghost predicate Enabled(l: Link, step: Step) {
    match step
    case SenderEvent(_) => true
    case Insert => l.phase.Joining?
    case Snapshot(owned) => l.phase.Connected? && OwnedSnapshot(l.sender, owned)
    case PushNext => l.phase.Pushing?
    case TakeNext => l.inFlight.None? && l.queue.pending != [] && !l.queue.closed
    case Delivered => l.inFlight.Some?
    case Lost => l.inFlight.Some?
    case TargetEvent(_) => true
  }

  /** A step that cannot be taken changes nothing. */
  ghost function Next(l: Link, step: Step): Link {
    if !Enabled(l, step) then l
    else
      match step
      case SenderEvent(e) =>
        var t := Apply(l.sender, e);
        var notes := if |t.log| >= |l.sender.log| then t.log[|l.sender.log|..] else [];
        Forward(l, notes).(
          sender := t,
          dropped := set c | c in l.dropped && Held(t, c.state.id) == Held(l.sender, c.state.id))
      case Insert => l.(phase := Connected)
      case Snapshot(owned) => l.(phase := Pushing(owned), dropped := {})
      case PushNext =>
        if l.phase.rest == [] then l.(phase := Bootstrapped)
        else
          var u := l.phase.rest[0];
          Enqueue(l, u).(
            phase := Pushing(l.phase.rest[1..]),
            dropped := set c | c in l.dropped && (c.state.id != u.state.id || Held(l.sender, u.state.id) != Some(u)))
      case TakeNext =>
        var (u, q) := Taken(l.queue);
        l.(inFlight := u, queue := q)
      case Delivered => l.(target := RemoteUpdate(l.target, l.inFlight.value), inFlight := None)
      case Lost => l.(inFlight := None, intact := false)
      case TargetEvent(e) =>
        var t := Apply(l.target, e);
        l.(target := t, dropped := l.dropped + RemovedCopies(l.target, t))
  }

  ghost function Reached(l: Link, steps: seq<Step>): Link {
    if steps == [] then l else Next(Reached(l, steps[..|steps| - 1]), steps[|steps| - 1])
  }

  /** The target holds a copy that m does not replace. */
  predicate Holds(target: State, m: Member) {
    m.state.id in target.members && !Newer(m.version, target.members[m.state.id].version)
  }

  /** m has reached the target or is on its way. */
  predicate OnItsWay(l: Link, m: Member) {
    || Holds(l.target, m)
    || m in l.queue.pending
    || l.inFlight == Some(m)
    || (l.phase.Pushing? && m in l.phase.rest)
  }

  /** The target held a copy that m does not replace, and has removed it. */
  predicate HeldAndDropped(l: Link, m: Member) {
    exists c :: c in l.dropped && c.state.id == m.state.id && !Newer(m.version, c.version)
  }

  /** Such a copy was a tombstone. */
  predicate DroppedTombstone(l: Link, m: Member) {
    exists c :: c in l.dropped && c.state.id == m.state.id && c.liveness == LEFT && !Newer(m.version, c.version)
  }

  predicate Accounted(l: Link, m: Member) {
    OnItsWay(l, m) || HeldAndDropped(l, m)
  }

  predicate SnapshotTaken(l: Link) {
    l.phase.Pushing? || l.phase.Bootstrapped?
  }

  /** Every member still owned by the sender is on its way, or the target has had it and dropped it. */
  ghost predicate AllAccounted(l: Link) {
    forall id :: l.sender.Owns(id) && id != l.target.cfg.localId ==> Accounted(l, l.sender.members[id])
  }

  ghost predicate NothingMissing(l: Link) {
    && WellFormed(l.sender) && WellFormed(l.target) && l.sender.cfg.localId != l.target.cfg.localId
    && (l.intact && SnapshotTaken(l) ==> AllAccounted(l))
    && (forall c :: c in l.dropped ==> c.liveness == LEFT)
  }

  /** What the target holds only ever gets newer, until it is removed. */
  lemma DidKeepsHolding(s: State, t: State, effect: Effect, m: Member)
    requires Did(s, t, effect) && Holds(s, m)
    ensures Holds(t, m) || (m.state.id in s.members && m.state.id !in t.members)
  {
    var id := m.state.id;
    if id in t.members {
      NewerIsStrictOrder(m.version, t.members[id].version, s.members[id].version);
    }
  }

  lemma DeliveryArrives(target: State, m: Member)
    requires m.state.id != target.cfg.localId && m.version.owner != target.cfg.localId
    ensures Holds(RemoteUpdate(target, m), m)
  {
    NewerIsStrictOrder(m.version, m.version, m.version);
  }

  /** What an event of the sender with the given effect does to the link. */
  function PushesFor(l: Link, s: State, effect: Effect): Link {
    if l.phase.Joining? then l
    else if effect.Issued? then Enqueue(l, effect.m)
    else if effect.Accepted? && s.Owns(effect.u.state.id) then Enqueue(l, effect.u)
    else l
  }

  lemma ForwardOne(l: Link, n: Note)
    ensures Forward(l, [n]) == if n.owner && !l.phase.Joining? then Enqueue(l, n.member) else l
  {
    assert Forward(l, []) == l;
    assert [n][..0] == [];
  }

  lemma ForwardEffect(l: Link, s: State, t: State, effect: Effect)
    requires Did(s, t, effect)
    ensures |t.log| >= |s.log| && Forward(l, t.log[|s.log|..]) == PushesFor(l, s, effect)
  {
    var notes := t.log[|s.log|..];
    if effect.Issued? {
      assert notes == [Note(effect.m, true)];
      ForwardOne(l, notes[0]);
    } else if effect.Accepted? {
      assert notes == [Note(effect.u, s.Owns(effect.u.state.id))];
      ForwardOne(l, notes[0]);
    } else {
      assert notes == [];
    }
  }

  /** l after its sender has gone to t. */
  function SenderAt(l: Link, t: State): Link {
    l.(sender := t, dropped := set c | c in l.dropped && Held(t, c.state.id) == Held(l.sender, c.state.id))
  }

  lemma SenderMoves(l: Link, t: State, effect: Effect)
    requires WellFormed(t) && Did(l.sender, t, effect)
    requires NothingMissing(l) && !l.queue.closed
    ensures NothingMissing(SenderAt(PushesFor(l, l.sender, effect), t))
  {
    var l' := SenderAt(PushesFor(l, l.sender, effect), t);
    if l'.intact && SnapshotTaken(l') {
      forall id | t.Owns(id) && id != l.target.cfg.localId ensures Accounted(l', t.members[id]) {
        if l.sender.Owns(id) && l.sender.members[id] == t.members[id] {
          StaysAccounted(l, l', t.members[id]);
        }
      }
    }
  }

  lemma StaysAccounted(l: Link, l': Link, m: Member)
    requires Accounted(l, m)
    requires OnItsWay(l, m) ==> OnItsWay(l', m)
    requires forall c :: c in l.dropped && c.state.id == m.state.id ==> c in l'.dropped
    ensures Accounted(l', m)
  {
  }

  lemma SenderEventKeeps(l: Link, e: Event)
    requires NothingMissing(l) && !l.queue.closed
    ensures NothingMissing(Next(l, SenderEvent(e)))
  {
    var s, t := l.sender, Apply(l.sender, e);
    var effect := EventEffect(s, e);
    DidKeepsWellFormed(s, t, effect);
    ForwardEffect(l, s, t, effect);
    SenderMoves(l, t, effect);
  }

  /** l after its target has gone to t. */
  function TargetAt(l: Link, t: State): Link {
    l.(target := t, dropped := l.dropped + RemovedCopies(l.target, t))
  }

  lemma TargetMoves(l: Link, t: State, effect: Effect)
    requires NothingMissing(l) && WellFormed(t) && Did(l.target, t, effect)
    ensures NothingMissing(TargetAt(l, t))
  {
    var l' := TargetAt(l, t);
    if l'.intact && SnapshotTaken(l') {
      forall id | l.sender.Owns(id) && id != t.cfg.localId ensures Accounted(l', l.sender.members[id]) {
        var m := l.sender.members[id];
        assert Accounted(l, m);
        if Holds(l.target, m) {
          DidKeepsHolding(l.target, t, effect, m);
          assert !Holds(t, m) ==> l.target.members[id] in l'.dropped;
        } else {
          StaysAccounted(l, l', m);
        }
      }
    }
  }

  lemma TargetEventKeeps(l: Link, e: Event)
    requires NothingMissing(l)
    ensures NothingMissing(TargetAt(l, Apply(l.target, e)))
  {
    var effect := EventEffect(l.target, e);
    EventKeepsWellFormed(l.target, e);
    TargetMoves(l, Apply(l.target, e), effect);
  }

  lemma DeliveredKeeps(l: Link)
    requires NothingMissing(l) && l.inFlight.Some?
    ensures NothingMissing(Next(l, Delivered))
  {
    var u, l' := l.inFlight.value, Next(l, Delivered);
    var l1 := TargetAt(l, RemoteUpdate(l.target, u));
    TargetEventKeeps(l, Remote(u));
    assert RemovedCopies(l.target, RemoteUpdate(l.target, u)) == {};
    if l'.intact && SnapshotTaken(l') {
      forall id | l.sender.Owns(id) && id != l'.target.cfg.localId ensures Accounted(l', l.sender.members[id]) {
        if u == l.sender.members[id] {
          DeliveryArrives(l.target, u);
        } else {
          StaysAccounted(l1, l', l.sender.members[id]);
        }
      }
    }
  }

  lemma PushNextKeeps(l: Link)
    requires NothingMissing(l) && l.phase.Pushing? && !l.queue.closed
    ensures NothingMissing(Next(l, PushNext))
  {
    var l' := Next(l, PushNext);
    if l'.intact {
      forall id | l.sender.Owns(id) && id != l.target.cfg.localId ensures Accounted(l', l.sender.members[id]) {
        var m := l.sender.members[id];
        if l.phase.rest == [] || m != l.phase.rest[0] {
          StaysAccounted(l, l', m);
        }
      }
    }
  }

  lemma TakeNextKeeps(l: Link)
    requires NothingMissing(l) && Enabled(l, TakeNext)
    ensures NothingMissing(Next(l, TakeNext))
  {
    var l' := Next(l, TakeNext);
    if l'.intact && SnapshotTaken(l') {
      forall id | l.sender.Owns(id) && id != l.target.cfg.localId ensures Accounted(l', l.sender.members[id]) {
        StaysAccounted(l, l', l.sender.members[id]);
      }
    }
  }

  lemma SnapshotKeeps(l: Link, owned: seq<Member>)
    requires NothingMissing(l) && Enabled(l, Snapshot(owned))
    ensures NothingMissing(Next(l, Snapshot(owned)))
  {
    var l' := Next(l, Snapshot(owned));
    forall id | l.sender.Owns(id) ensures Accounted(l', l.sender.members[id]) {
      assert l.sender.members[id] in owned;
    }
  }

  lemma NextKeeps(l: Link, step: Step)
    requires NothingMissing(l) && !l.queue.closed
    ensures NothingMissing(Next(l, step)) && !Next(l, step).queue.closed
  {
    if Enabled(l, step) {
      match step
      case SenderEvent(e) =>
        SenderEventKeeps(l, e);
        SenderKeepsOpen(l, e);
      case Snapshot(owned) => SnapshotKeeps(l, owned);
      case PushNext => PushNextKeeps(l);
      case TakeNext => TakeNextKeeps(l);
      case Delivered => DeliveredKeeps(l);
      case TargetEvent(e) => TargetEventKeeps(l, e);
      case _ =>
    }
  }

  lemma SenderKeepsOpen(l: Link, e: Event)
    requires !l.queue.closed
    ensures !Next(l, SenderEvent(e)).queue.closed
  {
    var effect := EventEffect(l.sender, e);
    ForwardEffect(l, l.sender, Apply(l.sender, e), effect);
  }

  /** Where a join starts: the client is not inserted, its queue is open, and nothing has been dropped. */
  ghost predicate Joins(l: Link) {
    && WellFormed(l.sender) && WellFormed(l.target) && l.sender.cfg.localId != l.target.cfg.localId
    && l.phase.Joining? && !l.queue.closed && l.dropped == {}
  }

  lemma {:induction false} NothingIsMissedInAnyRun(l: Link, steps: seq<Step>)
    requires Joins(l)
    ensures NothingMissing(Reached(l, steps)) && !Reached(l, steps).queue.closed
  {
    if steps != [] {
      NothingIsMissedInAnyRun(l, steps[..|steps| - 1]);
      NextKeeps(Reached(l, steps[..|steps| - 1]), steps[|steps| - 1]);
    }
  }

  /**
   * However OnJoin, the sender's registry, the queue, the network and the target's registry
   * interleave: if no update was dropped or lost on the way, the bootstrap is through and the
   * queue has drained, then the target holds every member the sender still owns, at a version
   * that the sender's does not replace. The only exceptions are members of which the target
   * held such a copy as LEFT and has removed it since the sender's copy was pushed. The
   * target's own member is its own business.
   */
  lemma BootstrapLosesNothing(l: Link, steps: seq<Step>)
    requires Joins(l)
    requires var r := Reached(l, steps);
      r.intact && r.phase.Bootstrapped? && r.queue.pending == [] && r.inFlight.None?
    ensures var r := Reached(l, steps);
      forall id :: r.sender.Owns(id) && id != r.target.cfg.localId ==>
        || Holds(r.target, r.sender.members[id])
        || DroppedTombstone(r, r.sender.members[id])
  {
    NothingIsMissedInAnyRun(l, steps);
    var r := Reached(l, steps);
    forall id | r.sender.Owns(id) && id != r.target.cfg.localId && !Holds(r.target, r.sender.members[id])
      ensures DroppedTombstone(r, r.sender.members[id])
    {
      assert Accounted(r, r.sender.members[id]);
    }
  }

  // ----- Without interruption -----

  function PushSteps(n: nat): seq<Step> {
    if n == 0 then [] else [PushNext] + PushSteps(n - 1)
  }

  lemma {:induction false} ReachedFromFront(l: Link, step: Step, steps: seq<Step>)
    ensures Reached(l, [step] + steps) == Reached(Next(l, step), steps)
  {
    var all := [step] + steps;
    if steps == [] {
      assert all[..0] == [];
    } else {
      ReachedFromFront(l, step, steps[..|steps| - 1]);
      assert all[..|all| - 1] == [step] + steps[..|steps| - 1];
    }
  }

  lemma {:induction false} PushStepsPushAll(l: Link, us: seq<Member>)
    requires l.phase == Pushing(us)
    ensures var r := Reached(l, PushSteps(|us| + 1));
      r.phase.Bootstrapped? && r.queue == PushedAll(l.queue, us) && r.inFlight == l.inFlight && r.target == l.target
    decreases |us|
  {
    ReachedFromFront(l, PushNext, PushSteps(|us|));
    if us == [] {
      assert Reached(Next(l, PushNext), []) == Next(l, PushNext);
    } else {
      PushStepsPushAll(Next(l, PushNext), us[1..]);
      assert us == [us[0]] + us[1..];
      PushedFirst(l.queue, us[0], us[1..]);
    }
  }

  /**
   * OnJoin run without interruption is one of these runs: with a new queue, the queue holds
   * the snapshot in order, as far as the limit allows.
   */
  lemma UninterruptedJoin(l: Link, owned: seq<Member>)
    requires l.phase.Joining? && OwnedSnapshot(l.sender, owned) && l.queue == Queue(l.queue.limit, [], false)
    ensures var r := Reached(l, [Insert] + ([Snapshot(owned)] + PushSteps(|owned| + 1)));
      && r.phase.Bootstrapped? && r.target == l.target
      && r.queue == Queue(l.queue.limit, Newest(owned, l.queue.limit + 1), false)
  {
    ReachedFromFront(l, Insert, [Snapshot(owned)] + PushSteps(|owned| + 1));
    ReachedFromFront(Next(l, Insert), Snapshot(owned), PushSteps(|owned| + 1));
    PushStepsPushAll(Next(Next(l, Insert), Snapshot(owned)), owned);
    PushesKeepNewest(l.queue, owned);
    assert [] + owned == owned;
  }

  /** The exceptions are real: the target's sweep removes a tombstone that has expired there, whoever owns it. */
  lemma SweptTombstoneIsAnException(l: Link, id: string, timestamp: int, now: int)
    requires id != l.target.cfg.localId && id in l.target.members
    requires l.target.members[id].liveness == LEFT && timestamp > l.target.members[id].expiry
    ensures var r := Next(l, TargetEvent(Visited(id, timestamp, now)));
      l.target.members[id] in r.dropped && forall m: Member :: m.state.id == id ==> !Holds(r.target, m)
  {
  }
}
