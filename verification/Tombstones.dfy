/** How long a tombstone keeps older copies of its member from coming back. */
module Tombstones {
  import opened Rpc
  import opened Versions
  import opened RegistryState
  import opened FailureDetector
  import opened Lifecycle

  /** The registry holds the tombstone, or has taken it over with its expiry. */
  predicate Guards(t: State, tombstone: Member) {
    var id := tombstone.state.id;
    && id in t.members
    && t.members[id].liveness == LEFT
    && t.members[id].state == tombstone.state
    && t.members[id].expiry == tombstone.expiry
    && AtLeast(t.members[id].version, tombstone.version)
  }

  /** What concerns the member is a visit before the expiry, or an update that does not replace the tombstone. */
  predicate Respects(e: Event, tombstone: Member) {
    Concerns(e, tombstone.state.id) ==>
      || (e.Visited? && e.timestamp <= tombstone.expiry)
      || (e.Remote? && !Newer(e.update.version, tombstone.version))
  }

  lemma EventKeepsGuard(t: State, e: Event, tombstone: Member)
    requires WellFormed(t) && Guards(t, tombstone) && Respects(e, tombstone)
    requires tombstone.state.id != t.cfg.localId
    ensures Guards(Apply(t, e), tombstone)
  {
    var id := tombstone.state.id;
    if !Concerns(e, id) {
      UnconcernedEvent(t, e, id);
    } else if e.Visited? {
      VisitCarriesOutDecision(t, id, e.timestamp, e.now);
      NewerIsStrictOrder(NextVersion(t, e.now), t.members[id].version, tombstone.version);
    } else {
      NewerIsStrictOrder(e.update.version, t.members[id].version, tombstone.version);
    }
  }

  /**
   * Over any run in which no client brings the member back and no sweep comes after the
   * expiry, whatever updates arrive that the tombstone is not older than, and whether or not
   * the tombstone's owner stays in the cluster, the member stays LEFT with the same expiry.
   */
  lemma {:induction false} TombstoneGuardsEveryRun(s: State, tombstone: Member, es: seq<Event>)
    requires WellFormed(s) && Guards(s, tombstone) && tombstone.state.id != s.cfg.localId
    requires forall e :: e in es ==> Respects(e, tombstone)
    ensures var t := Run(s, es); WellFormed(t) && t.cfg == s.cfg && Guards(t, tombstone)
  {
    if es != [] {
      var init, e := es[..|es| - 1], es[|es| - 1];
      TombstoneGuardsEveryRun(s, tombstone, init);
      EventKeepsWellFormed(Run(s, init), e);
      EventKeepsGuard(Run(s, init), e, tombstone);
      var effect := EventEffect(Run(s, init), e);
    }
  }

  /** A registry is swept once, and is then sent a copy. */
  function SweptThenSent(s: State, id: string, timestamp: int, now: int, copy: Member): State {
    RemoteUpdate(Visit(s, id, timestamp, now), copy)
  }

  /** One visit keeps a tombstone exactly up to its expiry. */
  lemma VisitKeepsUnexpired(s: State, tombstone: Member, timestamp: int, now: int)
    requires WellFormed(s) && Guards(s, tombstone) && tombstone.state.id != s.cfg.localId
    ensures var t := Visit(s, tombstone.state.id, timestamp, now);
      if timestamp <= tombstone.expiry then Guards(t, tombstone)
      else tombstone.state.id !in t.members && t.cfg == s.cfg
  {
    if timestamp <= tombstone.expiry {
      EventKeepsGuard(s, Visited(tombstone.state.id, timestamp, now), tombstone);
    } else {
      VisitCarriesOutDecision(s, tombstone.state.id, timestamp, now);
      var effect := VisitEffect(s, tombstone.state.id, timestamp, now);
    }
  }

  lemma SweepThenOlder(s: State, tombstone: Member, timestamp: int, now: int, older: Member)
    requires WellFormed(s) && Guards(s, tombstone) && tombstone.state.id != s.cfg.localId
    requires older.state.id == tombstone.state.id && older.version.owner != s.cfg.localId
    requires Newer(tombstone.version, older.version)
    ensures var t := SweptThenSent(s, older.state.id, timestamp, now, older);
      if timestamp <= tombstone.expiry then Guards(t, tombstone) else Held(t, older.state.id) == Some(older)
  {
    VisitKeepsUnexpired(s, tombstone, timestamp, now);
    if timestamp <= tombstone.expiry {
      VisitKeepsWellFormed(s, older.state.id, timestamp, now);
      var effect := VisitEffect(s, older.state.id, timestamp, now);
      NewerIsStrictOrder(tombstone.version, older.version, tombstone.version);
      EventKeepsGuard(Visit(s, older.state.id, timestamp, now), Remote(older), tombstone);
    }
  }

  /**
   * The documentation wants tombstones to keep their members from being resurrected. After
   * any such run, one more sweep and an older copy that is not itself a tombstone, they have
   * done so exactly if the sweep was not past the expiry.
   */
  lemma TombstoneGuardsUntilExpiry(s: State, tombstone: Member, es: seq<Event>, timestamp: int, now: int, older: Member)
    requires WellFormed(s) && Guards(s, tombstone) && tombstone.state.id != s.cfg.localId
    requires forall e :: e in es ==> Respects(e, tombstone)
    requires older.state.id == tombstone.state.id && older.version.owner != s.cfg.localId && older.liveness != LEFT
    requires Newer(tombstone.version, older.version)
    ensures var (id, t) := (older.state.id, SweptThenSent(Run(s, es), older.state.id, timestamp, now, older));
      && id in t.members
      && (t.members[id].liveness == LEFT <==> timestamp <= tombstone.expiry)
      && (timestamp > tombstone.expiry ==> t.members[id] == older)
  {
    TombstoneGuardsEveryRun(s, tombstone, es);
    SweepThenOlder(Run(s, es), tombstone, timestamp, now, older);
  }

  /** A tombstone that came by repair has lost its expiry, and guards nothing past the next sweep. */
  lemma RepairedTombstoneGuardsNothing(s: State, tombstone: Member, timestamp: int, now: int, older: Member)
    requires WellFormed(s) && tombstone.liveness == LEFT && timestamp > 0
    requires tombstone.state.id != s.cfg.localId && tombstone.version.owner != s.cfg.localId
    requires Accepts(s, tombstone.state.id, tombstone.version)
    requires older.state.id == tombstone.state.id && older.version.owner != s.cfg.localId
    ensures var t := RemoteUpdate(s, CopyMember(tombstone));
      Held(SweptThenSent(t, older.state.id, timestamp, now, older), older.state.id) == Some(older)
  {
    var t := RemoteUpdate(s, CopyMember(tombstone));
    RemoteKeepsWellFormed(s, CopyMember(tombstone));
    VisitKeepsUnexpired(t, CopyMember(tombstone), timestamp, now);
  }

  /**
   * Unregistering a member leaves a tombstone with the member's state. Over any run in which
   * no client brings it back and nothing newer arrives, sweeps keep it up to at + T, and the
   * first sweep after that removes it.
   */
  lemma UnregisteredMemberLingers(s: State, id: string, at: int, now: int, es: seq<Event>, timestamp: int, later: int)
    requires WellFormed(s) && IssuedUpTo(s) && ClockAhead(s, now) && id != s.cfg.localId && id in s.members
    requires s.Owns(id) || s.members[id].version.ts.ms < now
    requires forall e :: e in es ==>
      Respects(e, Member(s.members[id].state, LEFT, NextVersion(s, now), at + s.cfg.tombstone))
    ensures var (tombstone, t) :=
        (Member(s.members[id].state, LEFT, NextVersion(s, now), at + s.cfg.tombstone), RemoveMember(s, id, at, now));
      && t.Owns(id) && t.members[id] == tombstone
      && Guards(Run(t, es), tombstone)
      && (id in Visit(Run(t, es), id, timestamp, later).members <==> timestamp <= at + s.cfg.tombstone)
  {
    var (tombstone, t) :=
      (Member(s.members[id].state, LEFT, NextVersion(s, now), at + s.cfg.tombstone), RemoveMember(s, id, at, now));
    UnregisteringLeavesTombstone(s, id, at, now);
    TombstoneGuardsEveryRun(t, tombstone, es);
    VisitKeepsUnexpired(Run(t, es), tombstone, timestamp, later);
  }

  lemma UnregisteringLeavesTombstone(s: State, id: string, at: int, now: int)
    requires WellFormed(s) && IssuedUpTo(s) && ClockAhead(s, now) && id != s.cfg.localId && id in s.members
    requires s.Owns(id) || s.members[id].version.ts.ms < now
    ensures var t := RemoveMember(s, id, at, now);
      && WellFormed(t) && t.cfg == s.cfg && t.Owns(id)
      && t.members[id] == Member(s.members[id].state, LEFT, NextVersion(s, now), at + s.cfg.tombstone)
  {
    assert Accepts(s, id, NextVersion(s, now));
    UpdateKeepsWellFormed(s, s.members[id].state, LEFT, at + s.cfg.tombstone, now);
  }
}
