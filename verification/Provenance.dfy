/** Where copies come from: what each event may make of each copy, and of whom it tells. */
module Provenance {
  import opened Rpc
  import opened Versions
  import opened RegistryState
  import opened FailureDetector
  import opened Lifecycle
  import opened Subscribers

  /** after is a copy that this node issued at now. */
  predicate IssuedCopy(s: State, after: Option<Member>, state: MemberState, liveness: Liveness, expiry: int, now: int) {
    && after.Some? && after.value.state == state && after.value.liveness == liveness && after.value.expiry == expiry
    && after.value.version.owner == s.cfg.localId && after.value.version.ts.ms == now
  }

  /** What a sweep may make of a member. */
  predicate MayBecomeBySweep(s: State, id: string, timestamp: int, now: int, after: Option<Member>)
    requires id in s.members
  {
    var m := s.members[id];
    match m.liveness
    case UP => IssuedCopy(s, after, m.state, DOWN, timestamp + s.cfg.reconnect, now)
    case DOWN =>
      if s.Owns(id) then timestamp > m.expiry && IssuedCopy(s, after, m.state, LEFT, timestamp + s.cfg.tombstone, now)
      else IssuedCopy(s, after, m.state, DOWN, m.expiry, now)
    case LEFT =>
      if timestamp > m.expiry then after == None
      else !s.Owns(id) && IssuedCopy(s, after, m.state, LEFT, m.expiry, now)
  }

  /** What the event may make of the copy of id. */
  predicate MayBecome(s: State, e: Event, id: string, after: Option<Member>) {
    match e
    case Add(member, now) => id == member.id && IssuedCopy(s, after, member, UP, 0, now)
    case Heartbeat(member, _, now) =>
      id == member.id && !UpAndOwned(s, id) && IssuedCopy(s, after, member, UP, 0, now)
    case Remove(gone, at, now) =>
      id == gone && id in s.members && IssuedCopy(s, after, s.members[id].state, LEFT, at + s.cfg.tombstone, now)
    case Remote(u) => id == u.state.id && u.version.owner != s.cfg.localId && after == Some(u)
    case Visited(visited, timestamp, now) =>
      id == visited && id in s.members && MayBecomeBySweep(s, id, timestamp, now, after)
    case _ => false
  }

  /** An event leaves the copy of id, or makes of it what the event may. */
  lemma CopiesChangeOnlySo(s: State, e: Event, id: string)
    requires WellFormed(s) && Held(Apply(s, e), id) != Held(s, id)
    ensures id != s.cfg.localId && MayBecome(s, e, id, Held(Apply(s, e), id))
  {
    LocalMemberIsFixed(s, e);
    if !Concerns(e, id) {
      UnconcernedEvent(s, e, id);
    } else if e.Visited? {
      SweepChangesOnlySo(s, id, e.timestamp, e.now);
    }
  }

  lemma SweepChangesOnlySo(s: State, id: string, timestamp: int, now: int)
    requires WellFormed(s) && id in s.members && Held(Visit(s, id, timestamp, now), id) != Held(s, id)
    ensures MayBecomeBySweep(s, id, timestamp, now, Held(Visit(s, id, timestamp, now), id))
  {
    VisitCarriesOutDecision(s, id, timestamp, now);
  }

  /** A member that was not held can only have been registered, or delivered. */
  lemma MembersAppearOnlySo(s: State, e: Event, id: string)
    requires WellFormed(s) && id !in s.members && id in Apply(s, e).members
    ensures var after := Held(Apply(s, e), id);
      match e
      case Add(member, now) => IssuedCopy(s, after, member, UP, 0, now) && member.id == id
      case Heartbeat(member, _, now) => IssuedCopy(s, after, member, UP, 0, now) && member.id == id
      case Remote(u) => after == Some(u) && u.state.id == id
      case _ => false
  {
    CopiesChangeOnlySo(s, e, id);
  }

  /** The event brings the state: a client registers it, or an update with it is delivered. */
  predicate Brings(e: Event, state: MemberState) {
    match e
    case Add(member, _) => member == state
    case Heartbeat(member, _, _) => member == state
    case Remote(u) => u.state == state
    case _ => false
  }

  lemma StateIsKeptOrBrought(s: State, e: Event, id: string)
    requires WellFormed(s) && id in Apply(s, e).members
    ensures var state := Apply(s, e).members[id].state;
      Brings(e, state) || (id in s.members && s.members[id].state == state)
  {
    if Held(Apply(s, e), id) != Held(s, id) {
      CopiesChangeOnlySo(s, e, id);
    }
  }

  ghost predicate Brought(es: seq<Event>, state: MemberState) {
    exists e :: e in es && Brings(e, state)
  }

  /** Over any run, a state that is held was held before, or some event brought it. */
  lemma {:induction false} StatesAreBrought(s: State, es: seq<Event>, id: string)
    requires WellFormed(s)
    ensures WellFormed(Run(s, es))
    ensures id in Run(s, es).members ==>
      || (id in s.members && Run(s, es).members[id].state == s.members[id].state)
      || Brought(es, Run(s, es).members[id].state)
  {
    if es != [] {
      var (init, e) := (es[..|es| - 1], es[|es| - 1]);
      StatesAreBrought(s, init, id);
      EventKeepsWellFormed(Run(s, init), e);
      if id in Run(s, es).members {
        StateIsKeptOrBrought(Run(s, init), e, id);
        BroughtByMore(init, e, Run(s, es).members[id].state);
        assert es == init + [e];
      }
    }
  }

  lemma BroughtByMore(es: seq<Event>, e: Event, state: MemberState)
    ensures Brought(es + [e], state) <==> Brought(es, state) || Brings(e, state)
  {
    assert forall x :: x in es + [e] <==> x in es || x == e;
  }

  // ----- Notifications -----

  /** The change of u's id from s to t concerns the subscription: all do, or those of members owned before or after. */
  predicate Told(s: State, t: State, ownerOnly: bool, u: Member) {
    var id := u.state.id;
    && Held(t, id) == Some(u) && Held(s, id) != Some(u)
    && (ownerOnly ==> s.Owns(id) || t.Owns(id))
  }

  /** An event tells each subscription of exactly the changes that concern it, once, and never of removals. */
  lemma EventTellsExactlyChanges(s: State, e: Event, ownerOnly: bool)
    requires WellFormed(s)
    ensures |s.log| <= |Apply(s, e).log| && s.log == Apply(s, e).log[..|s.log|]
    ensures var told := Heard(NewNotes(s, Apply(s, e)), ownerOnly);
      |told| <= 1 && forall u :: u in told <==> Told(s, Apply(s, e), ownerOnly, u)
  {
    var t := Apply(s, e);
    var effect := EventEffect(s, e);
    EventKeepsWellFormed(s, e);
    EffectTellsExactlyChanges(s, t, effect, ownerOnly);
  }

  lemma EffectTellsExactlyChanges(s: State, t: State, effect: Effect, ownerOnly: bool)
    requires WellFormed(s) && WellFormed(t) && Did(s, t, effect)
    ensures |s.log| <= |t.log| && s.log == t.log[..|s.log|]
    ensures var told := Heard(NewNotes(s, t), ownerOnly);
      |told| <= 1 && forall u :: u in told <==> Told(s, t, ownerOnly, u)
  {
    match effect
    case Issued(m) =>
      assert NewNotes(s, t) == [Note(m, true)];
      HeardOne(Note(m, true), ownerOnly);
      NewerIsStrictOrder(m.version, m.version, m.version);
    case Accepted(u) =>
      assert NewNotes(s, t) == [Note(u, s.Owns(u.state.id))];
      HeardOne(Note(u, s.Owns(u.state.id)), ownerOnly);
      NewerIsStrictOrder(u.version, u.version, u.version);
    case _ =>
      assert NewNotes(s, t) == [];
  }
}
