/** Any number of nodes exchanging copies of members over a network that may do anything to them. */
module ClusterProtocol {
  import opened Rpc
  import opened Versions
  import opened RegistryState
  import opened ReplicaRepair

  /**
   * copies holds every copy that was ever stored, queued or sent. None is taken out, so any
   * of them may be delivered late, repeatedly, out of order or not at all.
   */
  datatype Cluster = Cluster(nodes: map<string, State>, copies: set<Member>)

  datatype Step =
    | Start(cfg: Config, localMember: Option<MemberState>, now: int)
    | Local(node: string, event: Event)
    | Deliver(node: string, update: Member)
    | Bootstrap(node: string, id: string)
    | Repair(node: string, id: string)

  /** The copies that going from s to t handed to subscribers, and so to other nodes' queues. */
  function Emitted(s: State, t: State): set<Member> {
    set i | |s.log| <= i < |t.log| :: t.log[i].member
  }

  function Stored(s: State): set<Member> {
    set id | id in s.members :: s.members[id]
  }

  ghost predicate Enabled(c: Cluster, step: Step) {
    match step
    case Start(cfg, _, _) => cfg.localId !in c.nodes
    case Local(node, event) => node in c.nodes && !event.Remote? && Timely(c.nodes[node], event)
    case Deliver(node, update) => node in c.nodes && update in c.copies
    case Bootstrap(node, id) => node in c.nodes && id in c.nodes[node].members
    case Repair(node, id) => node in c.nodes && id in c.nodes[node].members
  }

  function At(c: Cluster, node: string, e: Event): Cluster
    requires node in c.nodes
  {
    var s := c.nodes[node];
    var t := Apply(s, e);
    Cluster(c.nodes[node := t], c.copies + Emitted(s, t))
  }

  /** A step that cannot be taken changes nothing. */
  ghost function Next(c: Cluster, step: Step): Cluster {
    if !Enabled(c, step) then c
    else
      match step
      case Start(cfg, localMember, now) =>
        var s := NewRegistry(cfg, localMember, now);
        Cluster(c.nodes[cfg.localId := s], c.copies + Stored(s))
      case Local(node, event) => At(c, node, event)
      case Deliver(node, update) => At(c, node, Remote(update))
      case Bootstrap(node, id) => c.(copies := c.copies + {c.nodes[node].members[id]})
      case Repair(node, id) => c.(copies := c.copies + {CopyMember(c.nodes[node].members[id])})
  }

  ghost function Reached(steps: seq<Step>): Cluster {
    if steps == [] then Cluster(map[], {})
    else Next(Reached(steps[..|steps| - 1]), steps[|steps| - 1])
  }

  // ----- One version, one payload -----

  /** The same payload, and the same expiry unless repair dropped one. */
  predicate SamePayload(m: Member, n: Member) {
    Same(m, n) && (m.expiry == n.expiry || m.expiry == 0 || n.expiry == 0)
  }

  ghost predicate NodesOk(c: Cluster) {
    forall n :: n in c.nodes ==> c.nodes[n].cfg.localId == n && WellFormed(c.nodes[n]) && IssuedUpTo(c.nodes[n])
  }

  ghost predicate StoredAreCopies(c: Cluster) {
    forall n, id :: n in c.nodes && id in c.nodes[n].members ==> c.nodes[n].members[id] in c.copies
  }

  /** No copy is past the last version of the node it names as owner. */
  ghost predicate Bounded(c: Cluster, m: Member) {
    var n := m.version.owner;
    n in c.nodes && c.nodes[n].last.Some? && NotAfter(m.version.ts, c.nodes[n].last.value.ts)
  }

  ghost predicate CopiesBounded(c: Cluster) {
    forall m :: m in c.copies ==> Bounded(c, m)
  }

  ghost predicate PayloadsAgree(c: Cluster) {
    forall m, n :: m in c.copies && n in c.copies && m.version == n.version ==> SamePayload(m, n)
  }

  ghost predicate Consistent(c: Cluster) {
    NodesOk(c) && StoredAreCopies(c) && CopiesBounded(c) && PayloadsAgree(c)
  }

  lemma EmittedByEffect(s: State, t: State, effect: Effect)
    requires Did(s, t, effect)
    ensures Emitted(s, t) == match effect case Issued(m) => {m} case Accepted(u) => {u} case _ => {}
  {
    match effect
    case Issued(m) => assert t.log[|s.log|].member == m;
    case Accepted(u) => assert t.log[|s.log|].member == u;
    case _ =>
  }

  /** c' is c after one event with the given effect on node. */
  ghost predicate Moved(c: Cluster, c': Cluster, node: string, effect: Effect) {
    && node in c.nodes && node in c'.nodes
    && Did(c.nodes[node], c'.nodes[node], effect)
    && c'.nodes == c.nodes[node := c'.nodes[node]]
    && c'.copies == c.copies + (match effect case Issued(m) => {m} case Accepted(u) => {u} case _ => {})
    && (effect.Accepted? ==> effect.u in c.copies)
    && (effect.Issued? ==> ClockAhead(c.nodes[node], effect.m.version.ts.ms))
    && (effect.Burned? ==> ClockAhead(c.nodes[node], effect.now))
  }

  /** The effect of one event on the cluster, read off its effect on the node. */
  lemma AtEffect(c: Cluster, node: string, e: Event) returns (effect: Effect)
    requires NodesOk(c) && node in c.nodes && Timely(c.nodes[node], e)
    requires e.Remote? ==> e.update in c.copies
    ensures Moved(c, At(c, node, e), node, effect)
    ensures WellFormed(At(c, node, e).nodes[node]) && IssuedUpTo(At(c, node, e).nodes[node])
  {
    var s := c.nodes[node];
    effect := EventEffect(s, e);
    EventKeepsWellFormed(s, e);
    EventKeepsIssuedUpTo(s, e);
    EmittedByEffect(s, Apply(s, e), effect);
  }

  lemma AtKeepsConsistent(c: Cluster, node: string, e: Event)
    requires Consistent(c) && node in c.nodes && Timely(c.nodes[node], e)
    requires e.Remote? ==> e.update in c.copies
    ensures Consistent(At(c, node, e))
  {
    var effect := AtEffect(c, node, e);
    DidKeepsConsistent(c, At(c, node, e), node, effect);
  }

  lemma MovedKeepsBounded(c: Cluster, c': Cluster, node: string, effect: Effect)
    requires NodesOk(c) && CopiesBounded(c) && Moved(c, c', node, effect)
    ensures CopiesBounded(c')
    ensures effect.Issued? ==> forall m :: m in c.copies ==> m.version != effect.m.version
  {
    forall m | m in c'.copies ensures Bounded(c', m) {
      if m in c.copies {
        assert Bounded(c, m);
      }
    }
    if effect.Issued? {
      forall m | m in c.copies ensures m.version != effect.m.version {
        assert Bounded(c, m);
      }
    }
  }

  lemma DidKeepsConsistent(c: Cluster, c': Cluster, node: string, effect: Effect)
    requires Consistent(c) && Moved(c, c', node, effect)
    requires WellFormed(c'.nodes[node]) && IssuedUpTo(c'.nodes[node])
    ensures Consistent(c')
  {
    MovedKeepsBounded(c, c', node, effect);
    MovedKeepsStored(c, c', node, effect);
    MovedKeepsPayloads(c, c', node, effect);
  }

  lemma MovedKeepsPayloads(c: Cluster, c': Cluster, node: string, effect: Effect)
    requires PayloadsAgree(c) && Moved(c, c', node, effect)
    requires effect.Issued? ==> forall m :: m in c.copies ==> m.version != effect.m.version
    ensures PayloadsAgree(c')
  {
  }

  lemma MovedKeepsStored(c: Cluster, c': Cluster, node: string, effect: Effect)
    requires StoredAreCopies(c) && Moved(c, c', node, effect)
    ensures StoredAreCopies(c')
  {
  }

  lemma NextKeepsConsistent(c: Cluster, step: Step)
    requires Consistent(c)
    ensures Consistent(Next(c, step))
  {
    if Enabled(c, step) {
      match step
      case Start(cfg, localMember, now) =>
        NewRegistryIsWellFormed(cfg, localMember, now);
        StartKeepsConsistent(c, cfg, localMember, now);
      case Local(node, event) => AtKeepsConsistent(c, node, event);
      case Deliver(node, update) => AtKeepsConsistent(c, node, Remote(update));
      case Bootstrap(node, id) =>
      case Repair(node, id) => RepairKeepsConsistent(c, node, id);
    }
  }

  lemma StartKeepsConsistent(c: Cluster, cfg: Config, localMember: Option<MemberState>, now: int)
    requires Consistent(c) && cfg.localId !in c.nodes
    ensures Consistent(Next(c, Start(cfg, localMember, now)))
  {
    var s, c' := NewRegistry(cfg, localMember, now), Next(c, Start(cfg, localMember, now));
    NewRegistryIsWellFormed(cfg, localMember, now);
    forall m | m in c'.copies ensures Bounded(c', m) {
      if m in c.copies {
        assert Bounded(c, m);
      }
    }
    forall m, n | m in c'.copies && n in c'.copies && m.version == n.version ensures SamePayload(m, n) {
      if m in c.copies {
        assert Bounded(c, m);
      }
      if n in c.copies {
        assert Bounded(c, n);
      }
    }
  }

  lemma RepairKeepsConsistent(c: Cluster, node: string, id: string)
    requires Consistent(c) && node in c.nodes && id in c.nodes[node].members
    ensures Consistent(Next(c, Repair(node, id)))
  {
    var m, c' := c.nodes[node].members[id], Next(c, Repair(node, id));
    assert m in c.copies && Bounded(c, m);
    forall x, y | x in c'.copies && y in c'.copies && x.version == y.version ensures SamePayload(x, y) {
      assert x in c.copies ==> x.version == m.version ==> SamePayload(x, m);
      assert y in c.copies ==> y.version == m.version ==> SamePayload(y, m);
    }
  }

  /**
   * In every run of any number of nodes, whatever the network drops, repeats or reorders,
   * two copies of one version are copies of the same member in the same state and liveness.
   */
  lemma {:induction false} OneVersionOnePayload(steps: seq<Step>)
    ensures Consistent(Reached(steps))
  {
    if steps != [] {
      OneVersionOnePayload(steps[..|steps| - 1]);
      NextKeepsConsistent(Reached(steps[..|steps| - 1]), steps[|steps| - 1]);
    }
  }

  // ----- Owner dominance -----

  /** The owner a copy names holds that member at the same version or a newer one. */
  ghost predicate OwnerHolds(c: Cluster, m: Member) {
    var (n, id) := (m.version.owner, m.state.id);
    && n in c.nodes && id in c.nodes[n].members
    && AtLeast(c.nodes[n].members[id].version, m.version)
  }

  ghost predicate OwnersDominate(c: Cluster) {
    forall m :: m in c.copies ==> OwnerHolds(c, m)
  }

  /** A sweep reaches an expired tombstone of a member of which a copy in the node's own name was made. */
  ghost predicate DropsIssued(c: Cluster, step: Step) {
    && Enabled(c, step) && step.Local? && step.event.Visited?
    && var (s, id) := (c.nodes[step.node], step.event.id);
       && id != step.node && id in s.members
       && s.members[id].liveness == LEFT && step.event.timestamp > s.members[id].expiry
       && exists m :: m in c.copies && m.version.owner == step.node && m.state.id == id
  }

  /** Nothing else makes a node drop such a member. */
  lemma OnlyDropsIssuedDrops(c: Cluster, step: Step, m: Member)
    requires NodesOk(c) && Enabled(c, step) && step.Local?
    requires m in c.copies && m.version.owner == step.node
    requires m.state.id in c.nodes[step.node].members
    requires m.state.id !in Apply(c.nodes[step.node], step.event).members
    ensures DropsIssued(c, step)
  {
    var s := c.nodes[step.node];
    var effect := EventEffect(s, step.event);
    VisitRemovesExpired(s, step.event);
  }

  lemma VisitRemovesExpired(s: State, e: Event)
    requires e.Visited? && e.id in s.members && e.id !in Apply(s, e).members
    ensures e.id != s.cfg.localId && s.members[e.id].liveness == LEFT && e.timestamp > s.members[e.id].expiry
  {
    var effect := VisitEffect(s, e.id, e.timestamp, e.now);
  }

  /** No node ever drops a member it once issued a version for. */
  ghost predicate DeletionFree(steps: seq<Step>) {
    steps == [] ||
    (DeletionFree(steps[..|steps| - 1]) && !DropsIssued(Reached(steps[..|steps| - 1]), steps[|steps| - 1]))
  }

  lemma DidKeepsDominance(c: Cluster, c': Cluster, node: string, effect: Effect)
    requires NodesOk(c) && CopiesBounded(c) && OwnersDominate(c) && Moved(c, c', node, effect)
    requires forall m :: m in c.copies && m.version.owner == node && m.state.id in c.nodes[node].members ==>
      m.state.id in c'.nodes[node].members
    ensures OwnersDominate(c')
  {
    forall m | m in c'.copies ensures OwnerHolds(c', m) {
      if m in c.copies {
        assert OwnerHolds(c, m) && Bounded(c, m);
        var n, id := m.version.owner, m.state.id;
        NewerIsStrictOrder(c'.nodes[n].members[id].version, c.nodes[n].members[id].version, m.version);
      }
    }
  }

  lemma AtKeepsDominance(c: Cluster, node: string, e: Event)
    requires NodesOk(c) && CopiesBounded(c) && OwnersDominate(c)
    requires node in c.nodes && Timely(c.nodes[node], e)
    requires e.Remote? ==> e.update in c.copies
    requires forall m :: m in c.copies && m.version.owner == node && m.state.id in c.nodes[node].members ==>
      m.state.id in Apply(c.nodes[node], e).members
    ensures OwnersDominate(At(c, node, e))
  {
    var effect := AtEffect(c, node, e);
    DidKeepsDominance(c, At(c, node, e), node, effect);
  }

  lemma DeliveryRemovesNothing(s: State, u: Member)
    ensures forall id :: id in s.members ==> id in RemoteUpdate(s, u).members
  {
  }

  lemma StartKeepsDominance(c: Cluster, cfg: Config, localMember: Option<MemberState>, now: int)
    requires OwnersDominate(c) && cfg.localId !in c.nodes
    ensures OwnersDominate(Next(c, Start(cfg, localMember, now)))
  {
    var s, c' := NewRegistry(cfg, localMember, now), Next(c, Start(cfg, localMember, now));
    assert c'.nodes == c.nodes[cfg.localId := s] && c'.copies == c.copies + Stored(s);
    forall m | m in c'.copies ensures OwnerHolds(c', m) {
      if m in c.copies {
        assert OwnerHolds(c, m);
      } else {
        assert m in Stored(s) && s.members == map[m.state.id := m] && m.version.owner == cfg.localId;
      }
    }
  }

  lemma CopyKeepsDominance(c: Cluster, c': Cluster, m: Member, stored: Member)
    requires OwnersDominate(c) && stored in c.copies
    requires m.version == stored.version && m.state == stored.state
    requires c'.nodes == c.nodes && c'.copies == c.copies + {m}
    ensures OwnersDominate(c')
  {
    assert OwnerHolds(c, stored);
    forall n | n in c'.copies ensures OwnerHolds(c', n) {
      assert n in c.copies ==> OwnerHolds(c, n);
    }
  }

  lemma DeliverKeepsDominance(c: Cluster, node: string, u: Member)
    requires NodesOk(c) && CopiesBounded(c) && OwnersDominate(c) && node in c.nodes && u in c.copies
    ensures OwnersDominate(At(c, node, Remote(u)))
  {
    DeliveryRemovesNothing(c.nodes[node], u);
    AtKeepsDominance(c, node, Remote(u));
  }

  lemma LocalKeepsDominance(c: Cluster, node: string, event: Event)
    requires NodesOk(c) && CopiesBounded(c) && OwnersDominate(c)
    requires Enabled(c, Local(node, event)) && !DropsIssued(c, Local(node, event))
    ensures OwnersDominate(At(c, node, event))
  {
    forall m | m in c.copies && m.version.owner == node && m.state.id in c.nodes[node].members
      ensures m.state.id in Apply(c.nodes[node], event).members
    {
      if m.state.id !in Apply(c.nodes[node], event).members {
        OnlyDropsIssuedDrops(c, Local(node, event), m);
      }
    }
    AtKeepsDominance(c, node, event);
  }

  lemma NextKeepsDominance(c: Cluster, step: Step)
    requires NodesOk(c) && StoredAreCopies(c) && CopiesBounded(c)
    requires OwnersDominate(c) && !DropsIssued(c, step)
    ensures OwnersDominate(Next(c, step))
  {
    if Enabled(c, step) {
      match step
      case Start(cfg, localMember, now) =>
        StartKeepsDominance(c, cfg, localMember, now);
      case Local(node, event) =>
        LocalKeepsDominance(c, node, event);
      case Deliver(node, update) =>
        DeliverKeepsDominance(c, node, update);
      case Bootstrap(node, id) =>
        SendKeepsDominance(c, step, node, id);
      case Repair(node, id) =>
        SendKeepsDominance(c, step, node, id);
    }
  }

  lemma SendKeepsDominance(c: Cluster, step: Step, node: string, id: string)
    requires StoredAreCopies(c) && OwnersDominate(c) && Enabled(c, step)
    requires step == Bootstrap(node, id) || step == Repair(node, id)
    ensures OwnersDominate(Next(c, step))
  {
    var m := c.nodes[node].members[id];
    CopyKeepsDominance(c, Next(c, step), if step.Repair? then CopyMember(m) else m, m);
  }

  lemma DropEndsDominance(c: Cluster, step: Step)
    requires NodesOk(c) && DropsIssued(c, step)
    ensures !OwnersDominate(Next(c, step))
  {
    var (s, id) := (c.nodes[step.node], step.event.id);
    var m :| m in c.copies && m.version.owner == step.node && m.state.id == id;
    assert id !in Apply(s, step.event).members;
    assert m in Next(c, step).copies && !OwnerHolds(Next(c, step), m);
  }

  /** Sweeping away such a tombstone is exactly what ends an owner's dominance. */
  lemma DominanceEndsExactlyWhenDropped(c: Cluster, step: Step)
    requires Consistent(c) && OwnersDominate(c)
    ensures OwnersDominate(Next(c, step)) <==> !DropsIssued(c, step)
  {
    if DropsIssued(c, step) {
      DropEndsDominance(c, step);
    } else {
      NextKeepsDominance(c, step);
    }
  }

  /** While no node drops a member it issued, nobody holds a newer copy in a node's name than the node itself. */
  lemma {:induction false} OwnersDominateInEveryRun(steps: seq<Step>)
    requires DeletionFree(steps)
    ensures OwnersDominate(Reached(steps))
  {
    if steps != [] {
      OwnersDominateInEveryRun(steps[..|steps| - 1]);
      OneVersionOnePayload(steps[..|steps| - 1]);
      NextKeepsDominance(Reached(steps[..|steps| - 1]), steps[|steps| - 1]);
    }
  }

  /** So discarding an update because it names the local node as owner never loses anything newer. */
  lemma GuardDiscardsNothingNewer(steps: seq<Step>, node: string, u: Member)
    requires DeletionFree(steps)
    requires node in Reached(steps).nodes && u in Reached(steps).copies && u.version.owner == node
    ensures var s := Reached(steps).nodes[node];
      && RemoteUpdate(s, u) == s
      && u.state.id in s.members && !Newer(u.version, s.members[u.state.id].version)
  {
    var c := Reached(steps);
    OwnersDominateInEveryRun(steps);
    OneVersionOnePayload(steps);
    assert OwnerHolds(c, u);
    NewerIsStrictOrder(c.nodes[node].members[u.state.id].version, u.version, u.version);
  }

  /**
   * Any two nodes of any deletion-free run, whatever was lost so far, agree after three
   * undisturbed pulls on every member they do not hold in a tie.
   */
  lemma RepairConvergesAfterEveryRun(steps: seq<Step>, a: string, b: string, r: ThreeRounds)
    requires DeletionFree(steps)
    requires a in Reached(steps).nodes && b in Reached(steps).nodes && a != b
    requires Positive(Reached(steps).nodes[a]) && Positive(Reached(steps).nodes[b])
    requires CanRun(Reached(steps).nodes[a], Reached(steps).nodes[b], r)
    ensures var (s, t) := (Reached(steps).nodes[a], Reached(steps).nodes[b]);
      forall id :: id != a && id != b ==> (Alike(A3(s, r), B3(t, r), id) <==> !TiedOn(s, t, id))
  {
    var c := Reached(steps);
    OneVersionOnePayload(steps);
    OwnersDominateInEveryRun(steps);
    NodesDominate(c, a, b);
    NodesDominate(c, b, a);
    ThreeRoundsConverge(c.nodes[a], c.nodes[b], r);
  }

  lemma NodesDominate(c: Cluster, a: string, b: string)
    requires StoredAreCopies(c) && PayloadsAgree(c) && OwnersDominate(c) && a in c.nodes && b in c.nodes
    requires c.nodes[a].cfg.localId == a && WellFormed(c.nodes[a]) && WellFormed(c.nodes[b])
    ensures Dominates(c.nodes[a], c.nodes[b]) && AgreeOnPayload(c.nodes[a], c.nodes[b])
  {
    forall id | id in c.nodes[a].members && id in c.nodes[b].members &&
                c.nodes[a].members[id].version == c.nodes[b].members[id].version
      ensures Same(c.nodes[a].members[id], c.nodes[b].members[id])
    {
      assert SamePayload(c.nodes[a].members[id], c.nodes[b].members[id]);
    }
    forall id | id in c.nodes[b].members && c.nodes[b].members[id].version.owner == a
      ensures id in c.nodes[a].members && AtLeast(c.nodes[a].members[id].version, c.nodes[b].members[id].version)
    {
      assert OwnerHolds(c, c.nodes[b].members[id]);
    }
  }
}
