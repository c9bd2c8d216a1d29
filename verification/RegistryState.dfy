/** The registry as a value, and every operation as a function on it. */
module RegistryState {
  import opened Rpc
  import opened Versions

  datatype Config = Config(localId: string, heartbeat: int, reconnect: int, tombstone: int)

  /** One call of notifySubscribersLocked. */
  datatype Note = Note(member: Member, owner: bool)

  /** log holds every notification made so far, oldest first. */
  datatype State = State(
    cfg: Config,
    members: map<string, Member>,
    lastSeen: map<string, int>,
    leftNodes: map<string, int>,
    priority: set<string>,
    last: Option<Version>,
    log: seq<Note>)
  {
    predicate Owns(id: string) {
      id in members && members[id].version.owner == cfg.localId
    }
  }

  function Held(s: State, id: string): Option<Member> {
    if id in s.members then Some(s.members[id]) else None
  }

  /** What the process clock must satisfy when it is read for a version. */
  predicate ClockAhead(s: State, now: int) {
    s.last.Some? ==> s.last.value.ts.ms <= now
  }

  function NextVersion(s: State, now: int): Version {
    Version(s.cfg.localId,
            Timestamp(now, if s.last.Some? && s.last.value.ts.ms == now then s.last.value.ts.counter + 1 else 0))
  }

  function SetMember(s: State, m: Member): State {
    s.(members := s.members[m.state.id := m],
       lastSeen := if m.version.owner == s.cfg.localId then s.lastSeen[m.state.id := m.version.ts.ms]
                   else s.lastSeen - {m.state.id})
  }

  function DeleteMember(s: State, id: string): State {
    s.(members := s.members - {id}, lastSeen := s.lastSeen - {id})
  }

  function Notify(s: State, m: Member, owner: bool): State {
    s.(log := s.log + [Note(m, owner)])
  }

  predicate Accepts(s: State, id: string, v: Version) {
    id in s.members ==> Newer(v, s.members[id].version)
  }

  /** now is the clock reading that this update makes for its version. */
  function UpdateMember(s: State, member: MemberState, liveness: Liveness, expiry: int, now: int): State {
    if member.id == s.cfg.localId then s
    else
      var v := NextVersion(s, now);
      var s1 := s.(last := Some(v));
      if !Accepts(s1, member.id, v) then s1
      else
        var m := Member(member, liveness, v, expiry);
        Notify(SetMember(s1, m), m, true)
  }

  function NewRegistry(cfg: Config, localMember: Option<MemberState>, now: int): State {
    var s := State(cfg, map[], map[], map[], {}, None, []);
    if localMember.None? then s
    else
      var v := NextVersion(s, now);
      SetMember(s.(last := Some(v)), Member(localMember.value, UP, v, 0))
  }

  function AddMember(s: State, member: MemberState, now: int): State {
    UpdateMember(s, member, UP, 0, now)
  }

  /** at is the clock reading of the heartbeat itself. */
  function MemberHeartbeat(s: State, member: MemberState, at: int, now: int): State {
    if s.Owns(member.id) && s.members[member.id].liveness == UP
    then s.(lastSeen := s.lastSeen[member.id := at])
    else UpdateMember(s, member, UP, 0, now)
  }

  function RemoveMember(s: State, id: string, at: int, now: int): State {
    if id !in s.members then s
    else UpdateMember(s, s.members[id].state, LEFT, at + s.cfg.tombstone, now)
  }

  function RemoteUpdate(s: State, u: Member): State {
    if u.state.id == s.cfg.localId then s
    else if u.version.owner == s.cfg.localId then s
    else if !Accepts(s, u.state.id, u.version) then s
    else Notify(SetMember(s, u), u, s.Owns(u.state.id))
  }

  function VisitOwned(s: State, id: string, timestamp: int, now: int): State
    requires id in s.members
  {
    var m := s.members[id];
    var seen := if id in s.lastSeen then s.lastSeen[id] else 0;
    match m.liveness
    case UP =>
      if timestamp - seen > s.cfg.heartbeat
      then UpdateMember(s, m.state, DOWN, timestamp + s.cfg.reconnect, now) else s
    case DOWN =>
      if timestamp > m.expiry
      then UpdateMember(s, m.state, LEFT, timestamp + s.cfg.tombstone, now) else s
    case LEFT =>
      if timestamp > m.expiry then DeleteMember(s, id) else s
  }

  function VisitRemote(s: State, id: string, timestamp: int, now: int): State
    requires id in s.members
  {
    var m := s.members[id];
    if m.liveness == LEFT && timestamp > m.expiry then DeleteMember(s, id)
    else if m.version.owner !in s.leftNodes then s
    else if timestamp - s.leftNodes[m.version.owner] > s.cfg.heartbeat then
      if m.liveness == UP then UpdateMember(s, m.state, DOWN, timestamp + s.cfg.reconnect, now)
      else UpdateMember(s, m.state, m.liveness, m.expiry, now)
    else s
  }

  /**
   * The failure detector looks at one member. A visit only ever deletes its own id, so a
   * sweep always finds the ids it still has to visit.
   */
  function Visit(s: State, id: string, timestamp: int, now: int): State {
    if id == s.cfg.localId || id !in s.members then s
    else if s.Owns(id) then VisitOwned(s, id, timestamp, now)
    else VisitRemote(s, id, timestamp, now)
  }

  /** A sweep visits the ids of order; nows[i] is the clock reading during visit i. */
  function Sweep(s: State, order: seq<string>, timestamp: int, nows: seq<int>): State
    requires |nows| == |order|
    decreases |order|
  {
    if order == [] then s
    else Sweep(Visit(s, order[0], timestamp, nows[0]), order[1..], timestamp, nows[1..])
  }

  function OwnedBy(s: State, node: string): set<string> {
    set id | id in s.members && s.members[id].version.owner == node
  }

  function OnNodeJoin(s: State, node: string): State {
    s.(leftNodes := s.leftNodes - {node})
  }

  function OnNodeLeave(s: State, node: string, at: int): State {
    if OwnedBy(s, node) != {} then s.(leftNodes := s.leftNodes[node := at]) else s
  }

  function StoredTimestamp(s: State, id: string): Timestamp {
    if id in s.members then s.members[id].version.ts else Timestamp(0, 0)
  }

  function AfterDigest(s: State, digest: map<string, Timestamp>): State {
    s.(priority := s.priority - digest.Keys)
  }

  /** The ids of the digest that this registry knows to be newer than the digest says. */
  function Sends(s: State, digest: map<string, Timestamp>): set<string> {
    set id | id in digest && id in s.members && CompareTimestamps(digest[id], s.members[id].version.ts) > 0
  }

  function AfterDelta(s: State, digest: map<string, Timestamp>): State {
    s.(priority := s.priority + (digest.Keys - Sends(s, digest)))
  }

  /** Everything that can happen to a registry; each event is one critical section or less. */
  datatype Event =
    | Add(member: MemberState, now: int)
    | Heartbeat(member: MemberState, at: int, now: int)
    | Remove(id: string, at: int, now: int)
    | Remote(update: Member)
    | Visited(id: string, timestamp: int, now: int)
    | NodeJoin(node: string)
    | NodeLeave(node: string, at: int)
    | TookDigest(digest: map<string, Timestamp>)
    | ServedDelta(digest: map<string, Timestamp>)

  function Apply(s: State, e: Event): State {
    match e
    case Add(member, now) => AddMember(s, member, now)
    case Heartbeat(member, at, now) => MemberHeartbeat(s, member, at, now)
    case Remove(id, at, now) => RemoveMember(s, id, at, now)
    case Remote(update) => RemoteUpdate(s, update)
    case Visited(id, timestamp, now) => Visit(s, id, timestamp, now)
    case NodeJoin(node) => OnNodeJoin(s, node)
    case NodeLeave(node, at) => OnNodeLeave(s, node, at)
    case TookDigest(digest) => AfterDigest(s, digest)
    case ServedDelta(digest) => AfterDelta(s, digest)
  }

  function Run(s: State, es: seq<Event>): State {
    if es == [] then s else Apply(Run(s, es[..|es| - 1]), es[|es| - 1])
  }

  // ----- Notifications -----

  /** The notifications that reach a subscription. */
  function Heard(notes: seq<Note>, ownerOnly: bool): seq<Member> {
    if notes == [] then []
    else
      var n := notes[|notes| - 1];
      Heard(notes[..|notes| - 1], ownerOnly) + if ownerOnly && !n.owner then [] else [n.member]
  }

  lemma HeardOne(n: Note, ownerOnly: bool)
    ensures Heard([n], ownerOnly) == if ownerOnly && !n.owner then [] else [n.member]
  {
    assert Heard([], ownerOnly) == [];
  }

  lemma {:induction false} HeardConcat(xs: seq<Note>, ys: seq<Note>, ownerOnly: bool)
    ensures Heard(xs + ys, ownerOnly) == Heard(xs, ownerOnly) + Heard(ys, ownerOnly)
  {
    if ys == [] {
      assert xs + ys == xs;
    } else {
      HeardConcat(xs, ys[..|ys| - 1], ownerOnly);
      assert (xs + ys)[..|xs + ys| - 1] == xs + ys[..|ys| - 1];
    }
  }

  // ----- What one event can do -----

  datatype Effect = Quiet | Burned(now: int) | Issued(m: Member) | Accepted(u: Member) | Removed(id: string)

  /** The step from s to t has the given effect on members, last version and notifications. */
  ghost predicate Did(s: State, t: State, effect: Effect) {
    && t.cfg == s.cfg
    && match effect
       case Quiet =>
         && t.members == s.members && t.last == s.last && t.log == s.log
         && s.lastSeen.Keys <= t.lastSeen.Keys
         && (forall id :: id in t.lastSeen ==> id in s.lastSeen || s.Owns(id))
       case Burned(now) =>
         && t.members == s.members && t.last == Some(NextVersion(s, now)) && t.log == s.log
         && t.lastSeen == s.lastSeen
       case Issued(m) =>
         && m.state.id != s.cfg.localId
         && m.version == NextVersion(s, m.version.ts.ms)
         && Accepts(s, m.state.id, m.version)
         && t.members == s.members[m.state.id := m]
         && t.lastSeen == s.lastSeen[m.state.id := m.version.ts.ms]
         && t.last == Some(m.version)
         && t.log == s.log + [Note(m, true)]
       case Accepted(u) =>
         && u.state.id != s.cfg.localId
         && u.version.owner != s.cfg.localId
         && Accepts(s, u.state.id, u.version)
         && t.members == s.members[u.state.id := u]
         && t.lastSeen == s.lastSeen - {u.state.id}
         && t.last == s.last
         && t.log == s.log + [Note(u, s.Owns(u.state.id))]
       case Removed(id) =>
         && id != s.cfg.localId
         && id in s.members && s.members[id].liveness == LEFT
         && t.members == s.members - {id}
         && t.lastSeen == s.lastSeen - {id}
         && t.last == s.last
         && t.log == s.log
  }

  /** The clock readings an event may take for a version. */
  predicate ReadsClock(e: Event, now: int) {
    match e
    case Add(_, at) => now == at
    case Heartbeat(_, _, at) => now == at
    case Remove(_, _, at) => now == at
    case Visited(_, _, at) => now == at
    case _ => false
  }

  /** The clock is never read behind the last version. */
  ghost predicate Timely(s: State, e: Event) {
    forall now :: ReadsClock(e, now) ==> ClockAhead(s, now)
  }

  lemma UpdateMemberEffect(s: State, member: MemberState, liveness: Liveness, expiry: int, now: int)
    returns (effect: Effect)
    ensures Did(s, UpdateMember(s, member, liveness, expiry, now), effect)
    ensures effect == if member.id == s.cfg.localId then Quiet
                      else if Accepts(s, member.id, NextVersion(s, now))
                      then Issued(Member(member, liveness, NextVersion(s, now), expiry)) else Burned(now)
  {
    effect := if member.id == s.cfg.localId then Quiet
              else if Accepts(s, member.id, NextVersion(s, now))
              then Issued(Member(member, liveness, NextVersion(s, now), expiry)) else Burned(now);
  }

  predicate VisitFrame(s: State, t: State) {
    t.leftNodes == s.leftNodes && t.priority == s.priority
  }

  lemma VisitEffect(s: State, id: string, timestamp: int, now: int) returns (effect: Effect)
    ensures Did(s, Visit(s, id, timestamp, now), effect)
    ensures effect.Burned? ==> effect.now == now
    ensures effect.Issued? ==> effect.m.version.ts.ms == now
    ensures !effect.Accepted?
    ensures effect.Removed? ==> effect.id == id
    ensures effect.Issued? ==> effect.m.state == s.members[id].state
    ensures effect.Quiet? ==> Visit(s, id, timestamp, now) == s
    ensures VisitFrame(s, Visit(s, id, timestamp, now))
  {
    if id == s.cfg.localId || id !in s.members {
      effect := Quiet;
    } else {
      var m := s.members[id];
      if m.liveness == LEFT && timestamp > m.expiry {
        effect := Removed(id);
      } else if s.Owns(id) {
        effect := VisitOwnedEffect(s, id, timestamp, now);
      } else if m.version.owner in s.leftNodes && timestamp - s.leftNodes[m.version.owner] > s.cfg.heartbeat {
        if m.liveness == UP {
          effect := UpdateMemberEffect(s, m.state, DOWN, timestamp + s.cfg.reconnect, now);
        } else {
          effect := UpdateMemberEffect(s, m.state, m.liveness, m.expiry, now);
        }
      } else {
        effect := Quiet;
      }
    }
  }

  lemma VisitOwnedEffect(s: State, id: string, timestamp: int, now: int) returns (effect: Effect)
    requires id in s.members && !(s.members[id].liveness == LEFT && timestamp > s.members[id].expiry)
    ensures Did(s, VisitOwned(s, id, timestamp, now), effect)
    ensures effect.Burned? ==> effect.now == now
    ensures effect.Issued? ==> effect.m.version.ts.ms == now
    ensures !effect.Accepted? && !effect.Removed?
    ensures effect.Issued? ==> effect.m.state == s.members[id].state
    ensures effect.Quiet? ==> VisitOwned(s, id, timestamp, now) == s
    ensures VisitFrame(s, VisitOwned(s, id, timestamp, now))
  {
    var m := s.members[id];
    var seen := if id in s.lastSeen then s.lastSeen[id] else 0;
    if m.liveness == UP && timestamp - seen > s.cfg.heartbeat {
      effect := UpdateMemberEffect(s, m.state, DOWN, timestamp + s.cfg.reconnect, now);
    } else if m.liveness == DOWN && timestamp > m.expiry {
      effect := UpdateMemberEffect(s, m.state, LEFT, timestamp + s.cfg.tombstone, now);
    } else {
      effect := Quiet;
    }
  }

  /**
   * Whatever happens to a registry is one of five things; a version is only ever issued at
   * the clock reading of the event, and only an update that was delivered is ever accepted.
   */
  lemma EventEffect(s: State, e: Event) returns (effect: Effect)
    ensures Did(s, Apply(s, e), effect)
    ensures effect.Burned? ==> ReadsClock(e, effect.now)
    ensures effect.Issued? ==> ReadsClock(e, effect.m.version.ts.ms)
    ensures effect.Accepted? ==> e == Remote(effect.u)
    ensures effect.Removed? ==> e.Visited? && e.id == effect.id
  {
    match e
    case Add(member, now) =>
      effect := UpdateMemberEffect(s, member, UP, 0, now);
    case Heartbeat(member, at, now) =>
      if s.Owns(member.id) && s.members[member.id].liveness == UP {
        effect := Quiet;
      } else {
        effect := UpdateMemberEffect(s, member, UP, 0, now);
      }
    case Remove(id, at, now) =>
      if id in s.members {
        effect := UpdateMemberEffect(s, s.members[id].state, LEFT, at + s.cfg.tombstone, now);
      } else {
        effect := Quiet;
      }
    case Remote(u) =>
      effect := if RemoteUpdate(s, u) == s then Quiet else Accepted(u);
    case Visited(id, timestamp, now) =>
      effect := VisitEffect(s, id, timestamp, now);
    case _ =>
      effect := Quiet;
  }

  // ----- The invariant of a registry -----

  /** Members sit under their own ids, lastSeen tracks exactly the owned ones, the local member stays. */
  ghost predicate WellFormed(s: State) {
    && (forall id :: id in s.members ==> s.members[id].state.id == id)
    && (forall id :: id in s.lastSeen <==> s.Owns(id))
    && (s.cfg.localId in s.members ==>
          var m := s.members[s.cfg.localId];
          m.version.owner == s.cfg.localId && m.liveness == UP)
  }

  /** No copy held under this node's name is past the last version the node issued. */
  ghost predicate IssuedUpTo(s: State) {
    && (s.last.Some? ==> s.last.value.owner == s.cfg.localId)
    && (forall id :: id in s.members && s.members[id].version.owner == s.cfg.localId ==>
          s.last.Some? && NotAfter(s.members[id].version.ts, s.last.value.ts))
  }

  lemma NewRegistryIsWellFormed(cfg: Config, localMember: Option<MemberState>, now: int)
    ensures WellFormed(NewRegistry(cfg, localMember, now))
    ensures IssuedUpTo(NewRegistry(cfg, localMember, now))
  {
  }

  lemma DidKeepsWellFormed(s: State, t: State, effect: Effect)
    requires WellFormed(s) && Did(s, t, effect)
    ensures WellFormed(t)
  {
  }

  lemma UpdateKeepsWellFormed(s: State, member: MemberState, liveness: Liveness, expiry: int, now: int)
    requires WellFormed(s)
    ensures WellFormed(UpdateMember(s, member, liveness, expiry, now))
  {
    var effect := UpdateMemberEffect(s, member, liveness, expiry, now);
    DidKeepsWellFormed(s, UpdateMember(s, member, liveness, expiry, now), effect);
  }

  lemma RemoteKeepsWellFormed(s: State, u: Member)
    requires WellFormed(s)
    ensures WellFormed(RemoteUpdate(s, u))
  {
  }

  /** The invariant is about members and lastSeen only. */
  lemma WellFormedDepends(s: State, t: State)
    requires WellFormed(s) && t.cfg == s.cfg && t.members == s.members && t.lastSeen == s.lastSeen
    ensures WellFormed(t)
  {
  }

  lemma VisitKeepsWellFormed(s: State, id: string, timestamp: int, now: int)
    requires WellFormed(s)
    ensures WellFormed(Visit(s, id, timestamp, now))
  {
    var effect := VisitEffect(s, id, timestamp, now);
    DidKeepsWellFormed(s, Visit(s, id, timestamp, now), effect);
  }

  lemma EventKeepsWellFormed(s: State, e: Event)
    requires WellFormed(s)
    ensures WellFormed(Apply(s, e))
  {
    var effect := EventEffect(s, e);
    DidKeepsWellFormed(s, Apply(s, e), effect);
  }

  /** Versions are never reused as long as the clock is not behind the last version. */
  lemma EventKeepsIssuedUpTo(s: State, e: Event)
    requires IssuedUpTo(s) && Timely(s, e)
    ensures IssuedUpTo(Apply(s, e))
  {
    var effect := EventEffect(s, e);
  }

  /** The local member is never touched. */
  lemma LocalMemberIsFixed(s: State, e: Event)
    ensures var id := s.cfg.localId; var t := Apply(s, e);
      && (id in t.members <==> id in s.members)
      && (id in s.members ==> t.members[id] == s.members[id])
  {
    var effect := EventEffect(s, e);
  }
}
