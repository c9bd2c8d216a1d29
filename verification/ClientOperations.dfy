/** What a client's operations, and the versions issued for them, come to. */
module ClientOperations {
  import opened Rpc
  import opened Versions
  import opened RegistryState
  import opened FailureDetector
  import opened Lifecycle

  // ----- Versions -----

  /** The next version is the least one of this node and reading that is past the last. */
  lemma NextVersionIsTheLeast(s: State, now: int)
    requires ClockAhead(s, now)
    ensures var v := NextVersion(s, now);
      && v.owner == s.cfg.localId && v.ts.ms == now
      && (s.last.Some? ==> Before(s.last.value.ts, v.ts))
      && forall w: Timestamp :: w.ms == now && (s.last.Some? ==> Before(s.last.value.ts, w)) ==> NotAfter(v.ts, w)
  {
  }

  /** A clock read at 100, 50 and 100 issues one version twice, for two members. */
  lemma ClockGoingBackReissues(cfg: Config, m: MemberState, n: MemberState, o: MemberState)
    requires m.id != n.id && m.id != o.id && n.id != o.id
    requires cfg.localId != m.id && cfg.localId != n.id && cfg.localId != o.id
    ensures var t := AddMember(AddMember(AddMember(NewRegistry(cfg, None, 0), m, 100), n, 50), o, 100);
      && m.id in t.members && t.members[m.id].state == m
      && o.id in t.members && t.members[o.id].state == o
      && t.members[m.id].version == t.members[o.id].version == Version(cfg.localId, Timestamp(100, 0))
  {
  }

  /** A new registry holds its own member, as it was given, up and without expiry, and nothing else. */
  lemma NewRegistryHoldsItsMember(cfg: Config, localMember: Option<MemberState>, now: int)
    ensures var s := NewRegistry(cfg, localMember, now);
      && s.cfg == cfg && s.leftNodes == map[] && s.priority == {} && s.log == []
      && match localMember
         case None => s.members == map[] && s.lastSeen == map[] && s.last == None
         case Some(local) =>
           var v := Version(cfg.localId, Timestamp(now, 0));
           && s.members == map[local.id := Member(local, UP, v, 0)] && s.last == Some(v)
           && s.lastSeen == (if local.id in s.lastSeen then map[local.id := now] else map[])
           && local.id in s.lastSeen
  {
  }

  // ----- Registering -----

  /**
   * Registering a member issues a new version of it, up, owned here, seen now, without expiry
   * and with the state given, and announces it once, exactly when the clock is past the
   * version of another owner, if one holds it; members already owned and up included. A
   * node whose clock is behind takes nothing, and announces nothing.
   */
  lemma RegistrationTakesOwnership(s: State, member: MemberState, now: int)
    requires WellFormed(s) && IssuedUpTo(s) && ClockAhead(s, now) && member.id != s.cfg.localId
    ensures var t := AddMember(s, member, now); var id := member.id;
      if id !in s.members || s.Owns(id) || s.members[id].version.ts.ms < now then
        && UpAndOwned(t, id) && t.members[id].state == member && t.members[id].expiry == 0
        && t.members[id].version.ts.ms == now && t.lastSeen[id] == now
        && (s.last.Some? ==> Before(s.last.value.ts, t.members[id].version.ts))
        && t.log == s.log + [Note(t.members[id], true)]
      else
        t.members == s.members && !t.Owns(id) && t.log == s.log
  {
    if member.id in s.members && s.members[member.id].version.ts.ms < now {
      assert Accepts(s, member.id, NextVersion(s, now));
    }
    NextVersionIsTheLeast(s, now);
  }

  /** Removing a member that is not held does nothing at all. */
  lemma RemovingUnknownIsIgnored(s: State, id: string, at: int, now: int)
    requires id !in s.members
    ensures RemoveMember(s, id, at, now) == s
  {
  }

  // ----- Heartbeats -----

  /**
   * A heartbeat of a member owned and up tells that it was seen at the reading of the
   * heartbeat, and nothing else. Any other heartbeat is a registration.
   */
  lemma HeartbeatIsSeen(s: State, member: MemberState, at: int, now: int)
    requires WellFormed(s)
    ensures var t := MemberHeartbeat(s, member, at, now);
      if UpAndOwned(s, member.id) then
        && t.members == s.members && t.last == s.last && t.log == s.log && t.leftNodes == s.leftNodes
        && t.priority == s.priority && t.cfg == s.cfg && t.lastSeen.Keys == s.lastSeen.Keys
        && t.lastSeen[member.id] == at
        && forall other :: other in s.lastSeen && other != member.id ==> t.lastSeen[other] == s.lastSeen[other]
      else t == AddMember(s, member, now)
  {
  }

  /** Either way, a heartbeat that leaves the member owned and up is the start of its time unseen. */
  lemma HeartbeatStartsCountdown(s: State, member: MemberState, at: int, now: int)
    requires WellFormed(s) && IssuedUpTo(s) && ClockAhead(s, now) && member.id != s.cfg.localId
    requires member.id !in s.members || s.Owns(member.id) || s.members[member.id].version.ts.ms < now
    ensures LastSeenAt(MemberHeartbeat(s, member, at, now), member.id, if UpAndOwned(s, member.id) then at else now)
  {
    EventKeepsWellFormed(s, Heartbeat(member, at, now));
    HeartbeatIsSeen(s, member, at, now);
    if UpAndOwned(s, member.id) {
      assert IssuedUpTo(MemberHeartbeat(s, member, at, now));
    } else {
      RegistrationTakesOwnership(s, member, now);
      EventKeepsIssuedUpTo(s, Add(member, now));
    }
  }

  /**
   * Up to H after the member was seen at, no sweep touches it, and the next sweep marks it
   * down exactly if it is later.
   */
  lemma FirstLateSweepMarksDown(s: State, es: seq<Event>, id: string, at: int, timestamp: int, now: int)
    requires LastSeenAt(s, id, at) && Unattended(s, es, id)
    requires forall i :: 0 <= i < |VisitTimes(es, id)| ==> VisitTimes(es, id)[i] <= at + s.cfg.heartbeat
    requires ClockAhead(Run(s, es), now)
    ensures var (t, r) := (Run(s, es), Visit(Run(s, es), id, timestamp, now));
      && Held(t, id) == Held(s, id) && id in r.members
      && (r.members[id].liveness == DOWN <==> timestamp > at + s.cfg.heartbeat)
      && (timestamp <= at + s.cfg.heartbeat ==> r.members[id] == s.members[id])
      && (timestamp > at + s.cfg.heartbeat ==> r.members[id].expiry == timestamp + s.cfg.reconnect)
  {
    SeenMemberIsLeftUp(s, es, id, at);
    var t := Run(s, es);
    UnattendedKeepsInvariants(s, es, id);
    VisitCarriesOutDecision(t, id, timestamp, now);
    assert Newer(NextVersion(t, now), t.members[id].version);
  }

  lemma {:induction false} SeenMemberIsLeftUp(s: State, es: seq<Event>, id: string, at: int)
    requires LastSeenAt(s, id, at) && Unattended(s, es, id)
    requires forall i :: 0 <= i < |VisitTimes(es, id)| ==> VisitTimes(es, id)[i] <= at + s.cfg.heartbeat
    ensures EntryOf(Run(s, es), id) == EntryOf(s, id)
  {
    if es != [] {
      var (init, e) := (es[..|es| - 1], es[|es| - 1]);
      var times := VisitTimes(init, id);
      assert forall i :: 0 <= i < |times| ==> times[i] == VisitTimes(es, id)[i];
      SeenMemberIsLeftUp(s, init, id, at);
      UnattendedKeepsInvariants(s, init, id);
      if e.Visited? && e.id == id {
        assert VisitTimes(es, id)[|times|] == e.timestamp;
      }
      TimelyVisitChangesNothing(Run(s, init), e, id, at);
    }
  }

  lemma TimelyVisitChangesNothing(t: State, e: Event, id: string, at: int)
    requires WellFormed(t) && LeavesAlone(t, e, id) && id != t.cfg.localId
    requires UpAndOwned(t, id) && t.lastSeen[id] == at
    requires e.Visited? && e.id == id ==> e.timestamp <= at + t.cfg.heartbeat
    ensures EntryOf(Apply(t, e), id) == EntryOf(t, id)
  {
    if !Concerns(e, id) {
      UnconcernedEvent(t, e, id);
    }
  }

  lemma LastHeartbeatIsSeen(s: State, es: seq<Event>, e: Event)
    requires WellFormed(s) && IssuedUpTo(s) && TimelyRun(s, es) && Timely(Run(s, es), e)
    requires e.Heartbeat? && e.member.id != s.cfg.localId && UpAndOwned(Run(s, es), e.member.id)
    ensures LastSeenAt(Apply(Run(s, es), e), e.member.id, e.at) && Apply(Run(s, es), e).cfg == s.cfg
  {
    TimelyRunKeepsInvariants(s, es);
    assert ReadsClock(e, e.now);
    HeartbeatStartsCountdown(Run(s, es), e.member, e.at, e.now);
    var effect := EventEffect(Run(s, es), e);
  }

  /**
   * However a run went before: if its last event is a heartbeat, read at at, of a member owned
   * and up, with the first sweep after that by at+H+P and later ones at most P apart, the window
   * in which the member is removed counts from at.
   */
  lemma RemovedInTimeAfterLastHeartbeat(s: State, es: seq<Event>, e: Event, later: seq<Event>, gap: int)
    requires WellFormed(s) && IssuedUpTo(s) && TimelyRun(s, es) && Timely(Run(s, es), e)
    requires e.Heartbeat? && e.member.id != s.cfg.localId && UpAndOwned(Run(s, es), e.member.id)
    requires SweptRegularly(Apply(Run(s, es), e), later, e.member.id, e.at, gap)
    ensures RemovedInTime(Apply(Run(s, es), e), later, e.member.id, e.at, gap)
  {
    LastHeartbeatIsSeen(s, es, e);
    UnattendedMemberIsRemovedInTime(Apply(Run(s, es), e), later, e.member.id, e.at, gap);
  }

  lemma {:induction false} TimelyRunKeepsInvariants(s: State, es: seq<Event>)
    requires WellFormed(s) && IssuedUpTo(s) && TimelyRun(s, es)
    ensures WellFormed(Run(s, es)) && IssuedUpTo(Run(s, es)) && Run(s, es).cfg == s.cfg
  {
    if es != [] {
      var (init, e) := (es[..|es| - 1], es[|es| - 1]);
      TimelyRunKeepsInvariants(s, init);
      EventKeepsWellFormed(Run(s, init), e);
      EventKeepsIssuedUpTo(Run(s, init), e);
      var effect := EventEffect(Run(s, init), e);
    }
  }
}
