/** Several nodes claiming one member: when one of them wins. */
module Competition {
  import opened Rpc
  import opened Versions
  import opened RegistryState
  import opened FailureDetector
  import opened ReplicaRepair

  /** The event makes s issue a new version of id: a visit, a heartbeat, a registration or a removal. */
  predicate Reissues(s: State, e: Event, id: string) {
    && id in Apply(s, e).members
    && !e.Remote?
    && Held(Apply(s, e), id) != Held(s, id)
  }

  /** The copy of id that s holds after the event. */
  function Claim(s: State, e: Event, id: string): Member
    requires Reissues(s, e, id)
  {
    Apply(s, e).members[id]
  }

  lemma ClaimIsOwn(s: State, e: Event, id: string)
    requires WellFormed(s) && Reissues(s, e, id)
    ensures var m := Claim(s, e, id);
      m.version.owner == s.cfg.localId && m.state.id == id && id != s.cfg.localId && Apply(s, e).cfg == s.cfg
  {
    var effect := EventEffect(s, e);
    EventKeepsWellFormed(s, e);
  }

  /**
   * Two nodes are tied on a member. One of them issues a new version and the other is sent
   * it: that settles the tie exactly if the new version is of a later millisecond.
   */
  lemma ReissueSettlesTieIff(a: State, b: State, e: Event, id: string)
    requires WellFormed(a) && WellFormed(b) && a.cfg.localId != b.cfg.localId && id != b.cfg.localId
    requires TiedOn(a, b, id) && a.Owns(id) && Reissues(a, e, id)
    ensures var (m, ms) := (Claim(a, e, id), b.members[id].version.ts.ms);
      var (a', b') := (Apply(a, e), RemoteUpdate(b, m));
      && (Alike(a', b', id) <==> ms < m.version.ts.ms)
      && (ms == m.version.ts.ms ==> TiedOn(a', b', id))
  {
    ClaimIsOwn(a, e, id);
  }

  /**
   * Two nodes claim a member, each with a version of its own, and are sent each other's
   * claims. They agree exactly if the claims are of different milliseconds, and then on the
   * later one; otherwise each keeps its own.
   */
  lemma CompetingClaimsSettleIff(a: State, b: State, e: Event, f: Event, id: string)
    requires WellFormed(a) && WellFormed(b) && a.cfg.localId != b.cfg.localId
    requires Reissues(a, e, id) && Reissues(b, f, id)
    ensures var (m, n) := (Claim(a, e, id), Claim(b, f, id));
      var (a', b') := (RemoteUpdate(Apply(a, e), n), RemoteUpdate(Apply(b, f), m));
      && (Alike(a', b', id) <==> m.version.ts.ms != n.version.ts.ms)
      && (m.version.ts.ms < n.version.ts.ms ==> Held(a', id) == Held(b', id) == Some(n))
      && (m.version.ts.ms > n.version.ts.ms ==> Held(a', id) == Held(b', id) == Some(m))
      && (m.version.ts.ms == n.version.ts.ms ==> TiedOn(a', b', id))
  {
    ClaimIsOwn(a, e, id);
    ClaimIsOwn(b, f, id);
    SwappedClaims(Apply(a, e), Apply(b, f), Claim(a, e, id), Claim(b, f, id));
  }

  lemma SwappedClaims(a: State, b: State, m: Member, n: Member)
    requires m.state.id == n.state.id && m.state.id != a.cfg.localId && m.state.id != b.cfg.localId
    requires Held(a, m.state.id) == Some(m) && Held(b, m.state.id) == Some(n)
    requires m.version.owner == a.cfg.localId && n.version.owner == b.cfg.localId && a.cfg.localId != b.cfg.localId
    ensures var id := m.state.id;
      && Held(RemoteUpdate(a, n), id) == Some(if m.version.ts.ms < n.version.ts.ms then n else m)
      && Held(RemoteUpdate(b, m), id) == Some(if n.version.ts.ms < m.version.ts.ms then m else n)
  {
  }

  /**
   * Nodes that take over the same member of a node long gone compete in this way: each
   * visit whose clock is past the version is such a claim.
   */
  lemma TakeoverIsClaim(s: State, id: string, timestamp: int, now: int)
    requires WellFormed(s) && id != s.cfg.localId && id in s.members
    requires LongGone(s, s.members[id].version.owner, timestamp)
    requires !(s.members[id].liveness == LEFT && timestamp > s.members[id].expiry)
    ensures Reissues(s, Visited(id, timestamp, now), id) <==> now > s.members[id].version.ts.ms
    ensures now > s.members[id].version.ts.ms ==> Claim(s, Visited(id, timestamp, now), id).version.ts.ms == now
  {
    VisitCarriesOutDecision(s, id, timestamp, now);
  }

  /** And an expired DOWN member that a node owns is reissued, whenever the clock is not behind. */
  lemma ExpiryIsClaim(s: State, id: string, timestamp: int, now: int)
    requires WellFormed(s) && IssuedUpTo(s) && ClockAhead(s, now) && id != s.cfg.localId && s.Owns(id)
    requires s.members[id].liveness == DOWN && timestamp > s.members[id].expiry
    ensures Reissues(s, Visited(id, timestamp, now), id)
    ensures Claim(s, Visited(id, timestamp, now), id).version.ts.ms == now
  {
    VisitCarriesOutDecision(s, id, timestamp, now);
    assert Newer(NextVersion(s, now), s.members[id].version);
  }
}
