/** When an update older than the last contact with a member takes the member away. */
module LastContact {
  import opened Rpc
  import opened Versions
  import opened RegistryState
  import opened Delivery
  import opened Lifecycle

  /**
   * The documentation wants updates older than the last contact discarded. What decides is
   * the millisecond of the held version, which heartbeats do not move.
   */
  lemma OlderThanContactIsDiscardedIff(s: State, u: Member)
    requires WellFormed(s) && Admissible(s, u) && s.Owns(u.state.id)
    requires u.version.ts.ms < s.lastSeen[u.state.id]
    ensures var id := u.state.id;
      && (RemoteUpdate(s, u) == s <==> u.version.ts.ms <= s.members[id].version.ts.ms)
      && (RemoteUpdate(s, u) != s ==> RemoteUpdate(s, u).members[id] == u && !RemoteUpdate(s, u).Owns(id))
  {
    var (id, t) := (u.state.id, RemoteUpdate(s, u));
    if u.version.ts.ms > s.members[id].version.ts.ms {
      assert t.members[id] == u;
      assert t != s;
    }
  }

  /** A member added at 100 and heard from at 300 is lost to an update of 200. */
  lemma ContactIsNotHonoured() returns (s: State, es: seq<Event>, u: Member)
    ensures s == NewRegistry(Config("a", 1000, 1000, 1000), None, 0)
    ensures es == [Add(BareState("m"), 100), Heartbeat(BareState("m"), 300, 300)]
    ensures Admissible(s, u) && u.state.id == "m"
    ensures var t := Run(s, es);
      && t.Owns("m") && "m" in t.lastSeen && u.version.ts.ms < t.lastSeen["m"]
      && RemoteUpdate(t, u).members["m"] == u && !RemoteUpdate(t, u).Owns("m")
  {
    s := NewRegistry(Config("a", 1000, 1000, 1000), None, 0);
    es := [Add(BareState("m"), 100), Heartbeat(BareState("m"), 300, 300)];
    u := Member(BareState("m"), DOWN, Version("b", Timestamp(200, 0)), 0);
    assert es[..1] == [es[0]] && es[..1][..0] == [];
    assert Run(s, es[..1]) == Apply(Run(s, []), es[0]) && Run(s, es) == Apply(Run(s, es[..1]), es[1]);
    assert Run(s, es).lastSeen == map["m" := 300];
  }

  /**
   * The event keeps contact with id: a heartbeat, a sweep within the heartbeat timeout, or an
   * update older than the last contact.
   */
  predicate WithinContact(t: State, e: Event, id: string) {
    Concerns(e, id) ==>
      || IsHeartbeat(e, id)
      || (e.Visited? && (id in t.lastSeen ==> e.timestamp - t.lastSeen[id] <= t.cfg.heartbeat))
      || (e.Remote? && (id in t.lastSeen ==> e.update.version.ts.ms < t.lastSeen[id]))
  }

  ghost predicate InContact(s: State, es: seq<Event>, id: string) {
    es == [] ||
    (var (init, e) := (es[..|es| - 1], es[|es| - 1]); InContact(s, init, id) && WithinContact(Run(s, init), e, id))
  }

  /** Another node's update of id, later than its version at s. */
  predicate Overtakes(s: State, e: Event, id: string)
    requires id in s.members
  {
    && e.Remote? && e.update.state.id == id && e.update.version.owner != s.cfg.localId
    && e.update.version.ts.ms > s.members[id].version.ts.ms
  }

  ghost predicate OwnedThroughout(s: State, es: seq<Event>, id: string) {
    forall k :: 0 <= k <= |es| ==> UpAndOwned(Run(s, es[..k]), id)
  }

  lemma EventKeepsCopy(t: State, e: Event, id: string)
    requires WellFormed(t) && UpAndOwned(t, id) && id != t.cfg.localId
    requires WithinContact(t, e, id) && !Overtakes(t, e, id)
    ensures WellFormed(Apply(t, e)) && Apply(t, e).cfg == t.cfg && Held(Apply(t, e), id) == Held(t, id)
  {
    EventKeepsWellFormed(t, e);
    var effect := EventEffect(t, e);
    if !Concerns(e, id) {
      UnconcernedEvent(t, e, id);
    } else if e.Remote? {
      assert !Admissible(t, e.update) || !Newer(e.update.version, t.members[id].version);
    }
  }

  lemma {:induction false} NotOvertakenIsKept(s: State, es: seq<Event>, id: string)
    requires WellFormed(s) && UpAndOwned(s, id) && InContact(s, es, id) && id != s.cfg.localId
    requires forall e :: e in es ==> !Overtakes(s, e, id)
    ensures var t := Run(s, es); WellFormed(t) && t.cfg == s.cfg && Held(t, id) == Held(s, id)
  {
    if es != [] {
      var init, e := es[..|es| - 1], es[|es| - 1];
      NotOvertakenIsKept(s, init, id);
      assert !Overtakes(s, e, id) && Held(Run(s, init), id) == Some(s.members[id]);
      assert !Overtakes(Run(s, init), e, id);
      EventKeepsCopy(Run(s, init), e, id);
    }
  }

  lemma {:induction false} OvertakenIsLost(s: State, es: seq<Event>, id: string) returns (k: nat)
    requires WellFormed(s) && UpAndOwned(s, id) && InContact(s, es, id) && id != s.cfg.localId
    requires exists e :: e in es && Overtakes(s, e, id)
    ensures k <= |es| && !UpAndOwned(Run(s, es[..k]), id)
  {
    var init, e := es[..|es| - 1], es[|es| - 1];
    if exists x :: x in init && Overtakes(s, x, id) {
      k := OvertakenIsLost(s, init, id);
      assert es[..k] == init[..k];
    } else {
      k := |es|;
      assert Overtakes(s, e, id) && es[..k] == es;
      NotOvertakenIsKept(s, init, id);
      EventOvertakes(Run(s, init), e, id);
    }
  }

  lemma EventOvertakes(t: State, e: Event, id: string)
    requires WellFormed(t) && t.Owns(id) && id != t.cfg.localId && Overtakes(t, e, id)
    ensures !UpAndOwned(Apply(t, e), id)
  {
  }

  lemma {:induction false} InContactPrefix(s: State, es: seq<Event>, id: string, k: nat)
    requires InContact(s, es, id) && k <= |es|
    ensures InContact(s, es[..k], id)
  {
    if k == |es| {
      assert es[..k] == es;
    } else {
      InContactPrefix(s, es[..|es| - 1], id, k);
      assert es[..|es| - 1][..k] == es[..k];
    }
  }

  /**
   * A member that keeps in contact, while updates older than the last contact arrive, stays
   * owned here and up throughout if and only if none of them is later than its version.
   */
  lemma ContactKeepsOwnershipIffNotOvertaken(s: State, es: seq<Event>, id: string)
    requires WellFormed(s) && UpAndOwned(s, id) && InContact(s, es, id) && id != s.cfg.localId
    ensures OwnedThroughout(s, es, id) <==> forall e :: e in es ==> !Overtakes(s, e, id)
  {
    if e :| e in es && Overtakes(s, e, id) {
      var k := OvertakenIsLost(s, es, id);
    } else {
      forall k | 0 <= k <= |es| ensures UpAndOwned(Run(s, es[..k]), id) {
        InContactPrefix(s, es, id, k);
        NotOvertakenIsKept(s, es[..k], id);
      }
    }
  }
}
