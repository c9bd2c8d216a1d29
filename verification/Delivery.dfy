/** Delivering a batch of remote updates: what arrival order can and cannot change. */
module Delivery {
  import opened Rpc
  import opened Versions
  import opened RegistryState

  function DeliverAll(s: State, us: seq<Member>): State {
    if us == [] then s
    else RemoteUpdate(DeliverAll(s, us[..|us| - 1]), us[|us| - 1])
  }

  /** RemoteUpdate does not discard u out of hand. */
  predicate Admissible(s: State, u: Member) {
    u.state.id != s.cfg.localId && u.version.owner != s.cfg.localId
  }

  /** u is a delivered candidate for id. */
  predicate Candidate(s: State, us: seq<Member>, id: string, u: Member) {
    u in us && Admissible(s, u) && u.state.id == id
  }

  /** Two registries hold the same copies, up to the expiry. */
  ghost predicate SameMembers(s: State, t: State) {
    && s.members.Keys == t.members.Keys
    && (forall id :: id in s.members ==> Same(s.members[id], t.members[id]))
  }

  /** One version stands for one payload. */
  ghost predicate PayloadAgreement(us: seq<Member>) {
    forall u, v :: u in us && v in us && u.state.id == v.state.id && u.version == v.version ==> Same(u, v)
  }

  /** The copy of id after the deliveries came from the batch or was there before. */
  ghost predicate Explains(s: State, us: seq<Member>, id: string, t: State) {
    && (id in s.members ==> id in t.members)
    && (id in t.members ==>
          || (id in s.members && t.members[id] == s.members[id])
          || (&& Candidate(s, us, id, t.members[id])
              && (id in s.members ==> Newer(t.members[id].version, s.members[id].version))))
  }

  /** No candidate for id may replace the copy that is left. */
  ghost predicate Unbeaten(s: State, us: seq<Member>, id: string, t: State) {
    forall u :: Candidate(s, us, id, u) ==> id in t.members && !Newer(u.version, t.members[id].version)
  }

  /** Deliveries leave everything but members, lastSeen and notifications alone, and only drop lastSeen entries. */
  ghost predicate Untouched(s: State, t: State) {
    && t.cfg == s.cfg && t.last == s.last && t.priority == s.priority && t.leftNodes == s.leftNodes
    && (forall id :: id in t.lastSeen ==> id in s.lastSeen && t.lastSeen[id] == s.lastSeen[id])
    && (WellFormed(s) ==> WellFormed(t))
  }

  lemma {:induction false} DeliveryFrame(s: State, us: seq<Member>)
    ensures Untouched(s, DeliverAll(s, us))
  {
    if us != [] {
      DeliveryFrame(s, us[..|us| - 1]);
      if WellFormed(s) {
        EventKeepsWellFormed(DeliverAll(s, us[..|us| - 1]), Remote(us[|us| - 1]));
      }
    }
  }

  lemma {:induction false} DeliveryOutcome(s: State, us: seq<Member>, id: string)
    ensures Explains(s, us, id, DeliverAll(s, us))
    ensures Unbeaten(s, us, id, DeliverAll(s, us))
  {
    if us != [] {
      var init, u := us[..|us| - 1], us[|us| - 1];
      DeliveryFrame(s, init);
      DeliveryOutcome(s, init, id);
      assert forall v :: v in us <==> v in init || v == u;
      assert forall v :: Candidate(s, us, id, v) <==> Candidate(s, init, id, v) || (v == u && Candidate(s, us, id, u));
      var before, t := DeliverAll(s, init), DeliverAll(s, us);
      if Candidate(s, us, id, u) && Accepts(before, id, u.version) {
        assert t.members[id] == u;
      } else {
        assert id in t.members <==> id in before.members;
        assert id in t.members ==> t.members[id] == before.members[id];
      }
    }
  }

  /**
   * Whatever order the updates arrive in, each id ends at the latest millisecond among its
   * candidates and the copy held before.
   */
  lemma DeliveryReachesLatestMillisecond(s: State, us: seq<Member>, id: string)
    ensures var t := DeliverAll(s, us);
      && (id in t.members <==> id in s.members || exists u :: Candidate(s, us, id, u))
      && (forall u :: Candidate(s, us, id, u) ==> u.version.ts.ms <= t.members[id].version.ts.ms)
      && (id in s.members ==> s.members[id].version.ts.ms <= t.members[id].version.ts.ms)
      && (id in t.members ==>
            || (id in s.members && t.members[id] == s.members[id])
            || Candidate(s, us, id, t.members[id]))
  {
    DeliveryOutcome(s, us, id);
  }

  /**
   * Two different owners claim the same millisecond of id, later than the copy held before,
   * and no candidate is later still.
   */
  ghost predicate TiedAtTop(s: State, us: seq<Member>, u: Member, v: Member) {
    var id := u.state.id;
    && Candidate(s, us, id, u) && Candidate(s, us, id, v)
    && Tied(u.version, v.version)
    && (id in s.members ==> s.members[id].version.ts.ms < u.version.ts.ms)
    && (forall w :: Candidate(s, us, id, w) ==> w.version.ts.ms <= u.version.ts.ms)
  }

  ghost predicate NoTopTie(s: State, us: seq<Member>) {
    forall u, v :: !TiedAtTop(s, us, u, v)
  }

  ghost function Elements(us: seq<Member>): set<Member> {
    set u | u in us
  }

  /** Same copies, and everything else equal but the notifications made on the way. */
  ghost predicate Agree(s: State, t: State) {
    && SameMembers(s, t)
    && s.lastSeen == t.lastSeen
    && s.(members := map[], lastSeen := map[], log := []) == t.(members := map[], lastSeen := map[], log := [])
  }

  lemma SameVersionAfter(s: State, us: seq<Member>, vs: seq<Member>, id: string)
    requires NoTopTie(s, us) && Elements(us) == Elements(vs)
    ensures id in DeliverAll(s, us).members <==> id in DeliverAll(s, vs).members
    ensures id in DeliverAll(s, us).members ==>
      DeliverAll(s, us).members[id].version == DeliverAll(s, vs).members[id].version
  {
    forall u ensures u in us <==> u in vs {
      assert u in us <==> u in Elements(us);
      assert u in vs <==> u in Elements(vs);
    }
    assert forall u :: Candidate(s, us, id, u) <==> Candidate(s, vs, id, u);
    DeliveryOutcome(s, us, id);
    DeliveryOutcome(s, vs, id);
    var t, r := DeliverAll(s, us), DeliverAll(s, vs);
    if id in t.members && id in r.members {
      var f, g := t.members[id], r.members[id];
      assert f.version.owner != g.version.owner ==> TiedAtTop(s, us, f, g);
    }
  }

  lemma SamePayloadAfter(s: State, us: seq<Member>, vs: seq<Member>, id: string)
    requires WellFormed(s) && PayloadAgreement(us)
    requires NoTopTie(s, us) && Elements(us) == Elements(vs)
    requires id in DeliverAll(s, us).members && id in DeliverAll(s, vs).members
    ensures Same(DeliverAll(s, us).members[id], DeliverAll(s, vs).members[id])
  {
    SameVersionAfter(s, us, vs, id);
    DeliveryOutcome(s, us, id);
    DeliveryOutcome(s, vs, id);
    forall u | u in vs ensures u in us {
      assert u in Elements(vs);
    }
  }

  lemma ReorderingAgrees(s: State, us: seq<Member>, vs: seq<Member>)
    requires WellFormed(s) && PayloadAgreement(us)
    requires NoTopTie(s, us) && Elements(us) == Elements(vs)
    ensures Agree(DeliverAll(s, us), DeliverAll(s, vs))
  {
    var t, r := DeliverAll(s, us), DeliverAll(s, vs);
    DeliveryFrame(s, us);
    DeliveryFrame(s, vs);
    forall id
      ensures id in t.members <==> id in r.members
      ensures id in t.members ==> Same(t.members[id], r.members[id])
    {
      SameVersionAfter(s, us, vs, id);
      if id in t.members {
        SamePayloadAfter(s, us, vs, id);
      }
    }
    SameMembersAgree(s, t, r);
  }

  lemma SameMembersAgree(s: State, t: State, r: State)
    requires Untouched(s, t) && Untouched(s, r) && WellFormed(s) && SameMembers(t, r)
    ensures Agree(t, r)
  {
    assert t.lastSeen == r.lastSeen by {
      forall id ensures id in t.lastSeen <==> id in r.lastSeen {
        assert t.Owns(id) <==> r.Owns(id) by {
          assert id in t.members ==> Same(t.members[id], r.members[id]);
        }
      }
    }
  }

  /**
   * A registry takes a repaired copy exactly when it takes the member itself, and is then the
   * same but for the expiry of that member, and the notification of it.
   */
  lemma RepairedCopyIsTakenAlike(s: State, m: Member)
    requires WellFormed(s)
    ensures var (t, r) := (RemoteUpdate(s, m), RemoteUpdate(s, CopyMember(m)));
      && Agree(t, r)
      && (t != s <==> r != s)
      && (r != s ==> r.members == t.members[m.state.id := CopyMember(m)] && r.members[m.state.id].expiry == 0)
  {
    if RemoteUpdate(s, m) != s {
      assert |RemoteUpdate(s, CopyMember(m)).log| == |s.log| + 1;
    }
  }

  lemma {:induction false} DeliverConcat(s: State, us: seq<Member>, vs: seq<Member>)
    ensures DeliverAll(s, us + vs) == DeliverAll(DeliverAll(s, us), vs)
  {
    if vs == [] {
      assert us + vs == us;
    } else {
      DeliverConcat(s, us, vs[..|vs| - 1]);
      assert (us + vs)[..|us + vs| - 1] == us + vs[..|vs| - 1];
    }
  }

  /** The first of two tied updates to arrive keeps the other out. */
  lemma FirstOfTieWins(s: State, us: seq<Member>, u: Member, v: Member)
    requires TiedAtTop(s, us, u, v)
    ensures var id := u.state.id; var t := DeliverAll(s, [u] + us);
      id in t.members && t.members[id].version.owner == u.version.owner
  {
    var id, s1 := u.state.id, RemoteUpdate(s, u);
    DeliverConcat(s, [u], us);
    assert DeliverAll(s, [u]) == RemoteUpdate(DeliverAll(s, []), u);
    assert id in s1.members && s1.members[id] == u;
    DeliveryOutcome(s1, us, id);
    assert forall w :: Candidate(s1, us, id, w) <==> Candidate(s, us, id, w);
  }

  ghost predicate OrderInsensitive(s: State, us: seq<Member>) {
    forall vs, ws {:trigger DeliverAll(s, vs), DeliverAll(s, ws)} ::
      Elements(vs) == Elements(us) && Elements(ws) == Elements(us) ==> Agree(DeliverAll(s, vs), DeliverAll(s, ws))
  }

  /**
   * Order and repetition are irrelevant exactly when no id has a tie at its latest
   * millisecond that the copy held before does not already settle.
   */
  lemma OrderInsensitiveIffNoTopTie(s: State, us: seq<Member>)
    requires WellFormed(s) && PayloadAgreement(us)
    ensures OrderInsensitive(s, us) <==> NoTopTie(s, us)
  {
    if NoTopTie(s, us) {
      forall vs, ws | Elements(vs) == Elements(us) && Elements(ws) == Elements(us)
        ensures Agree(DeliverAll(s, vs), DeliverAll(s, ws))
      {
        ReorderingAgrees(s, us, vs);
        ReorderingAgrees(s, us, ws);
      }
    } else {
      var u, v :| TiedAtTop(s, us, u, v);
      FirstOfTieWins(s, us, u, v);
      FirstOfTieWins(s, us, v, u);
      assert Elements([u] + us) == Elements(us) && Elements([v] + us) == Elements(us);
      assert !SameMembers(DeliverAll(s, [u] + us), DeliverAll(s, [v] + us));
    }
  }

  /** Delivering an update a second time changes nothing. */
  lemma RedeliveryIsIdempotent(s: State, us: seq<Member>, u: Member)
    requires u in us
    ensures DeliverAll(s, us + [u]) == DeliverAll(s, us)
  {
    DeliverConcat(s, us, [u]);
    DeliveryOutcome(s, us, u.state.id);
    DeliveryFrame(s, us);
    assert (us + [u])[..|us|] == us;
  }
}
