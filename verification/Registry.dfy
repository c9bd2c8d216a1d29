/** The registry of one node, with its fields updated in place. */
module Registry {
  import opened Rpc
  import opened Versions
  import opened RegistryState
  import opened Metrics
  import opened MemberCounts
  import opened Subscribers
  import opened FailureDetector
  import opened ReplicaRepair

  /** A subscription; received is what its callback has been called with. */
  class Subscription {
    const ownerOnly: bool
    var received: seq<Member>

    constructor (ownerOnly: bool)
      ensures this.ownerOnly == ownerOnly && received == []
    {
      this.ownerOnly := ownerOnly;
      received := [];
    }

    method OnUpdate(u: Member)
      modifies this
      ensures received == old(received) + [u]
    {
      received := received + [u];
    }
  }

  /** Each subscription went from base to got by hearing notes. */
  ghost predicate HeardSince(base: map<Subscription, seq<Member>>, got: map<Subscription, seq<Member>>,
                             notes: seq<Note>) {
    base.Keys == got.Keys && forall s :: s in base ==> got[s] == base[s] + Heard(notes, s.ownerOnly)
  }

  lemma HeardSinceGrows(a: map<Subscription, seq<Member>>, b: map<Subscription, seq<Member>>, c: map<Subscription,
                        seq<Member>>,
                        xs: seq<Note>, ys: seq<Note>)
    requires HeardSince(a, b, xs) && HeardSince(b, c, ys)
    ensures HeardSince(a, c, xs + ys)
  {
    HeardConcat(xs, ys, true);
    HeardConcat(xs, ys, false);
  }

  class Registry {
    const cfg: Config
    var members: map<string, Member>
    var lastSeen: map<string, int>
    var subs: set<Subscription>
    var last: Option<Version>
    var leftNodes: map<string, int>
    var priority: set<string>
    const membersCount: Gauge
    const membersOwned: Gauge
    ghost var log: seq<Note>

    ghost function Contents(): State
      reads this
    {
      State(cfg, members, lastSeen, leftNodes, priority, last, log)
    }

    /** Both gauges count the members as they are. */
    ghost predicate Counting()
      reads this, membersCount, membersOwned
    {
      && membersCount != membersOwned
      && GaugeAgrees(members, cfg.localId, true, membersCount.values)
      && GaugeAgrees(members, cfg.localId, false, membersOwned.values)
    }

    ghost predicate Valid()
      reads this, membersCount, membersOwned
    {
      Counting() && WellFormed(Contents())
    }

    ghost function Repr(): set<object>
      reads this
    {
      {this, membersCount, membersOwned} + subs
    }

    /** Subscriptions are the same as before, and each was called with the notes for it, in order. */
    twostate predicate Notified(notes: seq<Note>)
      reads this, subs
    {
      && subs == old(subs)
      && log == old(log) + notes
      && forall s :: s in subs ==> s.received == old(s.received) + Heard(notes, s.ownerOnly)
    }

    /** So the cells of the gauges, by name, hold the numbers of members of each status and owner. */
    lemma GaugesCountMembers()
      requires Valid()
      ensures forall owner, l: Liveness :: (
        At(membersCount.values, "owner=" + Lower(owner) + ",status=" + StatusText(l)) ==
          |set id | id in members && members[id].liveness == l && Lower(members[id].version.owner) == Lower(owner)|)
      ensures forall l: Liveness :: (
        At(membersOwned.values, "status=" + StatusText(l)) ==
          |set id | id in members && members[id].liveness == l && members[id].version.owner == cfg.localId|)
    {
      CellsByName(members, cfg.localId, membersCount.values, membersOwned.values);
    }

    constructor (cfg: Config, localMember: Option<MemberState>, now: int)
      ensures Valid() && fresh(Repr())
      ensures Contents() == NewRegistry(cfg, localMember, now) && subs == {}
    {
      this.cfg := cfg;
      members, lastSeen, leftNodes := map[], map[], map[];
      subs, priority, last, log := {}, {}, None, [];
      membersCount := new Gauge();
      membersOwned := new Gauge();
      new;
      NothingIsCounted(cfg.localId, true);
      NothingIsCounted(cfg.localId, false);
      if localMember.Some? {
        var v := NextVersionLocked(now);
        SetMemberLocked(Member(localMember.value, UP, v, 0));
      }
      NewRegistryIsWellFormed(cfg, localMember, now);
    }

    method NextVersionLocked(now: int) returns (v: Version)
      modifies this`last
      ensures v == NextVersion(old(Contents()), now) && last == Some(v)
    {
      var counter := 0;
      if last.Some? && last.value.ts.ms == now {
        counter := last.value.ts.counter + 1;
      }
      v := Version(cfg.localId, Timestamp(now, counter));
      last := Some(v);
    }

    /** Takes the member held under id, if any, out of both gauges. */
    method CountOutLocked(id: string)
      requires Counting()
      modifies membersCount, membersOwned
      ensures membersCount != membersOwned
      ensures GaugeAgrees(members - {id}, cfg.localId, true, membersCount.values)
      ensures GaugeAgrees(members - {id}, cfg.localId, false, membersOwned.values)
    {
      if id in members {
        var m := members[id];
        CountOut(members, id, cfg.localId, true, membersCount.values);
        CountOut(members, id, cfg.localId, false, membersOwned.values);
        LabelsAreLowered(m.liveness, m.version.owner);
        membersCount.Dec(CountLabels(m.liveness, m.version.owner));
        if m.version.owner == cfg.localId {
          membersOwned.Dec(OwnedLabels(m.liveness));
        }
      } else {
        assert members - {id} == members;
      }
    }

    method SetMemberLocked(m: Member)
      requires Counting()
      modifies this`members, this`lastSeen, membersCount, membersOwned
      ensures Counting()
      ensures Contents() == SetMember(old(Contents()), m)
    {
      ghost var without := members - {m.state.id};
      CountOutLocked(m.state.id);

      CountIn(without, m, cfg.localId, true, membersCount.values);
      CountIn(without, m, cfg.localId, false, membersOwned.values);
      assert without[m.state.id := m] == members[m.state.id := m];
      members := members[m.state.id := m];

      LabelsAreLowered(m.liveness, m.version.owner);
      membersCount.Inc(CountLabels(m.liveness, m.version.owner));
      if m.version.owner == cfg.localId {
        membersOwned.Inc(OwnedLabels(m.liveness));
      }

      if m.version.owner == cfg.localId {
        lastSeen := lastSeen[m.state.id := m.version.ts.ms];
      } else {
        lastSeen := lastSeen - {m.state.id};
      }
    }

    method DeleteMemberLocked(id: string)
      requires Counting()
      modifies this`members, this`lastSeen, membersCount, membersOwned
      ensures Counting()
      ensures Contents() == DeleteMember(old(Contents()), id)
    {
      CountOutLocked(id);
      members := members - {id};
      lastSeen := lastSeen - {id};
    }

    method NotifySubscribersLocked(update: Member, owner: bool)
      modifies this`log, subs
      ensures Notified([Note(update, owner)])
    {
      HeardOne(Note(update, owner), true);
      HeardOne(Note(update, owner), false);
      ghost var before := map s | s in subs :: s.received;
      var left := subs;
      while left != {}
        modifies subs
        invariant left <= subs
        invariant forall s :: s in left ==> s.received == before[s]
        invariant forall s :: s in subs - left ==>
          s.received == before[s] + (if s.ownerOnly && !owner then [] else [update])
        decreases left
      {
        var s :| s in left;
        if s.ownerOnly && owner {
          s.OnUpdate(update);
        } else if !s.ownerOnly {
          s.OnUpdate(update);
        }
        left := left - {s};
      }
      log := log + [Note(update, owner)];
      forall s | s in subs
        ensures s.received == old(s.received) + Heard([Note(update, owner)], s.ownerOnly)
      {
        assert s in subs - left;
      }
    }

    /** Subscriptions have heard everything notified since, and nothing else. */
    twostate predicate Told()
      reads this, subs
    {
      |old(log)| <= |log| && Notified(log[|old(log)|..])
    }

    method UpdateMemberLocked(member: MemberState, liveness: Liveness, expiry: int, now: int)
      requires Counting()
      modifies this`members, this`lastSeen, this`last, this`log, membersCount, membersOwned, subs
      ensures Counting()
      ensures Contents() == UpdateMember(old(Contents()), member, liveness, expiry, now)
      ensures Told()
    {
      NothingHeard();
      if member.id == cfg.localId {
        return;
      }
      var version := NextVersionLocked(now);
      if member.id in members {
        if CompareVersions(members[member.id].version, version) <= 0 {
          return;
        }
      }
      var m := Member(member, liveness, version, expiry);
      SetMemberLocked(m);
      NotifySubscribersLocked(m, true);
      assert log[|old(log)|..] == [Note(m, true)];
    }

    method AddMember(member: MemberState, now: int)
      requires Valid()
      modifies this, membersCount, membersOwned, subs
      ensures Valid() && Told()
      ensures Contents() == RegistryState.AddMember(old(Contents()), member, now)
    {
      UpdateMemberLocked(member, UP, 0, now);
      UpdateKeepsWellFormed(old(Contents()), member, UP, 0, now);
    }

    method MemberHeartbeat(member: MemberState, at: int, now: int)
      requires Valid()
      modifies this, membersCount, membersOwned, subs
      ensures Valid() && Told()
      ensures Contents() == RegistryState.MemberHeartbeat(old(Contents()), member, at, now)
    {
      NothingHeard();
      if member.id in members && members[member.id].version.owner == cfg.localId && members[member.id].liveness == UP {
        lastSeen := lastSeen[member.id := at];
      } else {
        UpdateMemberLocked(member, UP, 0, now);
      }
      EventKeepsWellFormed(old(Contents()), Heartbeat(member, at, now));
    }

    method RemoveMember(id: string, at: int, now: int)
      requires Valid()
      modifies this, membersCount, membersOwned, subs
      ensures Valid() && Told()
      ensures Contents() == RegistryState.RemoveMember(old(Contents()), id, at, now)
    {
      NothingHeard();
      if id !in members {
        return;
      }
      UpdateKeepsWellFormed(Contents(), members[id].state, LEFT, at + cfg.tombstone, now);
      UpdateMemberLocked(members[id].state, LEFT, at + cfg.tombstone, now);
    }

    method RemoteUpdate(update: Member)
      requires Valid()
      modifies this, membersCount, membersOwned, subs
      ensures Valid() && Told()
      ensures Contents() == RegistryState.RemoteUpdate(old(Contents()), update)
    {
      NothingHeard();
      if update.state.id == cfg.localId {
        return;
      }
      if update.version.owner == cfg.localId {
        return;
      }
      var ownershipChange := false;
      if update.state.id in members {
        var existing := members[update.state.id];
        if CompareVersions(existing.version, update.version) <= 0 {
          return;
        }
        if existing.version.owner == cfg.localId {
          ownershipChange := true;
        }
      }
      SetMemberLocked(update);
      NotifySubscribersLocked(update, ownershipChange);
      assert log[|old(log)|..] == [Note(update, ownershipChange)];
      RemoteKeepsWellFormed(old(Contents()), update);
    }

    lemma NothingHeard()
      ensures log[|log|..] == [] && Heard([], true) == [] && Heard([], false) == []
    {
    }

    // ----- Node membership -----

    method OnNodeJoin(node: string)
      requires Valid()
      modifies this`leftNodes
      ensures Valid()
      ensures Contents() == RegistryState.OnNodeJoin(old(Contents()), node)
    {
      leftNodes := leftNodes - {node};
    }

    method MembersForOwnerLocked(node: string) returns (count: nat)
      ensures count == |OwnedBy(Contents(), node)|
    {
      count := 0;
      var left := members.Keys;
      ghost var counted: set<string> := {};
      while left != {}
        invariant left <= members.Keys
        invariant counted == set id | id in OwnedBy(Contents(), node) && id !in left
        invariant count == |counted|
        decreases left
      {
        var id :| id in left;
        left := left - {id};
        if members[id].version.owner == node {
          count := count + 1;
          counted := counted + {id};
        }
      }
      assert counted == OwnedBy(Contents(), node);
    }

    method OnNodeLeave(node: string, at: int)
      requires Valid()
      modifies this`leftNodes
      ensures Valid()
      ensures Contents() == RegistryState.OnNodeLeave(old(Contents()), node, at)
    {
      var count := MembersForOwnerLocked(node);
      if count > 0 {
        leftNodes := leftNodes[node := at];
      }
    }

    /** The members this node owns, in any order. */
    method OwnedMembers() returns (owned: seq<Member>)
      requires Valid()
      ensures forall m :: m in owned <==>
        m.state.id in members && Contents().Owns(m.state.id) && m == members[m.state.id]
      ensures OnePerId(owned)
    {
      owned := [];
      var left := members.Keys;
      while left != {}
        invariant left <= members.Keys && OnePerId(owned)
        invariant forall m :: m in owned <==>
          m.state.id in members && m.state.id !in left && Contents().Owns(m.state.id) && m == members[m.state.id]
        decreases left
      {
        var id :| id in left;
        left := left - {id};
        if members[id].version.owner == cfg.localId {
          owned := owned + [members[id]];
        }
      }
    }

    // ----- Failure detector -----

    method UpdateMemberLivenessLocked(id: string, timestamp: int, now: int)
      requires Valid()
      modifies this, membersCount, membersOwned, subs
      ensures Valid() && Told()
      ensures Contents() == Visit(old(Contents()), id, timestamp, now)
    {
      NothingHeard();
      if id == cfg.localId || id !in members {
        return;
      }
      if members[id].version.owner == cfg.localId {
        UpdateOwnedMemberLivenessLocked(id, timestamp, now);
      } else {
        UpdateRemoteMemberLivenessLocked(id, timestamp, now);
      }
      VisitKeepsWellFormed(old(Contents()), id, timestamp, now);
    }

    method UpdateOwnedMemberLivenessLocked(id: string, timestamp: int, now: int)
      requires Counting() && id in members
      modifies this`members, this`lastSeen, this`last, this`log, membersCount, membersOwned, subs
      ensures Counting() && Told()
      ensures Contents() == VisitOwned(old(Contents()), id, timestamp, now)
    {
      NothingHeard();
      var member := members[id];
      var seen := if id in lastSeen then lastSeen[id] else 0;
      match member.liveness
      case UP =>
        if timestamp - seen > cfg.heartbeat {
          UpdateMemberLocked(member.state, DOWN, timestamp + cfg.reconnect, now);
        }
      case DOWN =>
        if timestamp > member.expiry {
          UpdateMemberLocked(member.state, LEFT, timestamp + cfg.tombstone, now);
        }
      case LEFT =>
        if timestamp > member.expiry {
          DeleteMemberLocked(id);
        }
    }

    method UpdateRemoteMemberLivenessLocked(id: string, timestamp: int, now: int)
      requires Counting() && id in members
      modifies this`members, this`lastSeen, this`last, this`log, membersCount, membersOwned, subs
      ensures Counting() && Told()
      ensures Contents() == VisitRemote(old(Contents()), id, timestamp, now)
    {
      NothingHeard();
      var member := members[id];
      if member.liveness == LEFT && timestamp > member.expiry {
        DeleteMemberLocked(id);
        return;
      }
      if member.version.owner !in leftNodes {
        return;
      }
      if timestamp - leftNodes[member.version.owner] > cfg.heartbeat {
        if member.liveness == UP {
          UpdateMemberLocked(member.state, DOWN, timestamp + cfg.reconnect, now);
        } else {
          UpdateMemberLocked(member.state, member.liveness, member.expiry, now);
        }
      }
    }

    ghost function Received(): map<Subscription, seq<Member>>
      reads this, subs
    {
      map s | s in subs :: s.received
    }

    /** Since the log had from entries and subscriptions had received base, each was told what it should. */
    ghost predicate CaughtUp(base: map<Subscription, seq<Member>>, from: nat)
      reads this, subs
    {
      from <= |log| && HeardSince(base, Received(), log[from..])
    }

    method VisitNextLocked(id: string, timestamp: int, now: int, ghost base: map<Subscription, seq<Member>>,
                           ghost from: nat)
      requires Valid() && CaughtUp(base, from)
      modifies this, membersCount, membersOwned, subs
      ensures Valid() && CaughtUp(base, from) && subs == old(subs) && old(log) <= log
      ensures Contents() == Visit(old(Contents()), id, timestamp, now)
    {
      ghost var before := Received();
      UpdateMemberLivenessLocked(id, timestamp, now);
      assert HeardSince(before, Received(), log[|old(log)|..]);
      HeardSinceGrows(base, before, Received(), old(log)[from..], log[|old(log)|..]);
      assert log[from..] == old(log)[from..] + log[|old(log)|..];
    }

    /** Sweeps the members in an order that the map chooses; clock(i) is what the i-th visit reads. */
    method UpdateLiveness(timestamp: int, clock: nat -> int) returns (ghost order: seq<string>)
      requires Valid()
      modifies this, membersCount, membersOwned, subs
      ensures Valid() && Told()
      ensures IsSweepOrder(old(Contents()), order)
      ensures Contents() == Sweep(old(Contents()), order, timestamp, Readings(clock, |order|))
    {
      order := [];
      var n := 0;
      var left := members.Keys;
      ghost var base := Received();
      NothingHeard();
      while left != {}
        invariant Valid() && CaughtUp(base, |old(log)|) && old(log) <= log
        invariant subs == old(subs)
        invariant n == |order| && Enumerated(old(members.Keys), left, order)
        invariant Contents() == Sweep(old(Contents()), order, timestamp, Readings(clock, n))
        decreases left
      {
        var id :| id in left;
        EnumerateNext(old(members.Keys), left, order, id);
        SweepAppend(old(Contents()), order, timestamp, Readings(clock, n), id, clock(n));
        assert Readings(clock, n + 1) == Readings(clock, n) + [clock(n)];
        VisitNextLocked(id, timestamp, clock(n), base, |old(log)|);
        left := left - {id};
        order, n := order + [id], n + 1;
      }
    }

    // ----- Subscriptions -----

    method SubscribeLocal() returns (s: Subscription)
      requires Valid()
      modifies this`subs
      ensures Valid() && Contents() == old(Contents())
      ensures fresh(s) && s.ownerOnly && s.received == [] && subs == old(subs) + {s}
    {
      s := new Subscription(true);
      subs := subs + {s};
    }

    /** What the functions returned by SubscribeLocal and Subscribe do. */
    method Unsubscribe(s: Subscription)
      requires Valid()
      modifies this`subs
      ensures Valid() && Contents() == old(Contents())
      ensures subs == old(subs) - {s} && s.received == old(s.received)
    {
      subs := subs - {s};
    }

    method OwnerOnlyUpdatesLocked(known: map<string, Version>) returns (updates: seq<Member>)
      requires Valid()
      ensures IsCatchUp(Contents(), known, true, updates)
    {
      updates := [];
      ghost var s := Contents();
      var left := members.Keys;
      while left != {}
        invariant left <= members.Keys && ListsSoFar(s, known, true, left, known.Keys, updates)
        decreases left
      {
        var id :| id in left;
        ListMember(s, known, true, left, known.Keys, updates, id);
        left := left - {id};
        var m := members[id];
        if id in known {
          if m.version.owner == cfg.localId || known[id].owner == cfg.localId {
            if CompareVersions(known[id], m.version) > 0 {
              updates := updates + [m];
            }
          }
        } else {
          if m.version.owner == cfg.localId {
            updates := updates + [m];
          }
        }
      }
      var rest := known.Keys;
      while rest != {}
        invariant rest <= known.Keys && ListsSoFar(s, known, true, {}, rest, updates)
        decreases rest
      {
        var id :| id in rest;
        ListKnown(s, known, true, {}, rest, updates, id);
        rest := rest - {id};
        if id in members {
          continue;
        }
        if known[id].owner != cfg.localId {
          continue;
        }
        updates := updates + [Gone(id, known[id])];
      }
      ListsAll(s, known, true, updates);
    }

    method AllUpdatesLocked(known: map<string, Version>) returns (updates: seq<Member>)
      requires Valid()
      ensures IsCatchUp(Contents(), known, false, updates)
    {
      updates := [];
      ghost var s := Contents();
      var left := members.Keys;
      while left != {}
        invariant left <= members.Keys && ListsSoFar(s, known, false, left, known.Keys, updates)
        decreases left
      {
        var id :| id in left;
        ListMember(s, known, false, left, known.Keys, updates, id);
        left := left - {id};
        var m := members[id];
        if id in known {
          if CompareVersions(known[id], m.version) > 0 {
            updates := updates + [m];
          }
        } else {
          updates := updates + [m];
        }
      }
      var rest := known.Keys;
      while rest != {}
        invariant rest <= known.Keys && ListsSoFar(s, known, false, {}, rest, updates)
        decreases rest
      {
        var id :| id in rest;
        ListKnown(s, known, false, {}, rest, updates, id);
        rest := rest - {id};
        if id in members {
          continue;
        }
        updates := updates + [Gone(id, known[id])];
      }
      ListsAll(s, known, false, updates);
    }

    method UpdatesLocked(known: map<string, Version>, ownerOnly: bool) returns (updates: seq<Member>)
      requires Valid()
      ensures IsCatchUp(Contents(), known, ownerOnly, updates)
    {
      if ownerOnly {
        updates := OwnerOnlyUpdatesLocked(known);
      } else {
        updates := AllUpdatesLocked(known);
      }
    }

    /** Subscribes, and calls back at once with what the subscriber is missing. */
    method Subscribe(known: map<string, Version>, ownerOnly: bool) returns (s: Subscription)
      requires Valid()
      modifies this`subs
      ensures Valid() && Contents() == old(Contents())
      ensures fresh(s) && s.ownerOnly == ownerOnly && subs == old(subs) + {s}
      ensures IsCatchUp(Contents(), known, ownerOnly, s.received)
    {
      s := new Subscription(ownerOnly);
      subs := subs + {s};
      var updates := UpdatesLocked(known, ownerOnly);
      for i := 0 to |updates|
        invariant s.received == updates[..i]
        invariant Valid() && Contents() == old(Contents()) && subs == old(subs) + {s}
      {
        s.OnUpdate(updates[i]);
      }
    }

    // ----- Replica repair -----

    /** Moves priority ids into the digest, until there are none left or the digest is full. */
    method TakePriorityLocked(limit: int) returns (digest: map<string, Timestamp>, full: bool)
      modifies this`priority
      ensures Moved(old(priority), priority, digest.Keys) && Stamped(members, digest)
      ensures if full then |digest.Keys| == Max(limit, 1) else |digest.Keys| < Max(limit, 1) && priority == {}
    {
      digest, full := map[], false;
      while priority != {} && !full
        invariant Moved(old(priority), priority, digest.Keys) && Stamped(members, digest)
        invariant if full then |digest.Keys| == Max(limit, 1) else |digest.Keys| < Max(limit, 1)
        decreases priority
      {
        var id :| id in priority;
        MoveOne(old(priority), priority, digest.Keys, id);
        digest := Stamp(members, digest, id);
        priority := priority - {id};
        full := |digest| >= limit;
      }
    }

    /** Adds members to the digest in a random order, until it is full. */
    method FillLocked(limit: int, perm: seq<nat>, taken: map<string, Timestamp>)
      returns (digest: map<string, Timestamp>)
      requires IsPermutation(perm, |members|) && |taken.Keys| < Max(limit, 1) && Stamped(members, taken)
      ensures Within(taken.Keys, digest.Keys, taken.Keys + members.Keys) && Stamped(members, digest)
      ensures || |digest.Keys| == Max(limit, 1)
              || (digest.Keys == taken.Keys + members.Keys && |digest.Keys| < Max(limit, 1))
    {
      digest := taken;
      var ids := MemberIds();
      var shuffled := ShuffleStrings(ids, perm);
      ghost var order := shuffled[..];
      var i, full := 0, false;
      while i < shuffled.Length && !full
        invariant 0 <= i <= shuffled.Length && shuffled[..] == order
        invariant Within(taken.Keys, digest.Keys, taken.Keys + members.Keys) && Stamped(members, digest)
        invariant Includes(digest.Keys, order[..i])
        invariant if full then |digest.Keys| == Max(limit, 1) else |digest.Keys| < Max(limit, 1)
      {
        assert shuffled[i] in order && order[..i + 1] == order[..i] + [order[i]];
        digest := Stamp(members, digest, shuffled[i]);
        full := |digest| >= limit;
        i := i + 1;
      }
      if !full {
        IncludesAll(taken.Keys, digest.Keys, members.Keys, order[..i]);
      }
    }

    /** perm is the random permutation that the members are shuffled by. */
    method Digest(limit: int, perm: seq<nat>) returns (digest: map<string, Timestamp>)
      requires Valid() && IsPermutation(perm, |members|)
      modifies this`priority
      ensures Valid() && Contents() == AfterDigest(old(Contents()), digest)
      ensures IsDigest(old(Contents()), limit, digest)
    {
      var full;
      digest, full := TakePriorityLocked(limit);
      if !full {
        assert digest.Keys == old(priority);
        digest := FillLocked(limit, perm, digest);
      }
      WellFormedDepends(old(Contents()), Contents());
      DigestIsProper(old(Contents()), limit, digest, priority);
    }

    method MemberIds() returns (ids: seq<string>)
      ensures |ids| == |members| && (forall id :: id in ids <==> id in members)
    {
      ids := [];
      var left := members.Keys;
      while left != {}
        invariant left <= members.Keys
        invariant forall id :: id in ids <==> id in members && id !in left
        invariant |ids| + |left| == |members.Keys|
        decreases left
      {
        var id :| id in left;
        left := left - {id};
        ids := ids + [id];
      }
    }

    method Delta(digest: map<string, Timestamp>) returns (delta: seq<Member>)
      requires Valid()
      modifies this`priority
      ensures Valid() && Contents() == AfterDelta(old(Contents()), digest)
      ensures IsDelta(old(Contents()), digest, delta)
    {
      delta := [];
      var left := digest.Keys;
      ghost var s := Contents();
      while left != {}
        invariant IsDeltaSoFar(s, digest, left, delta, priority)
        decreases left
      {
        var id :| id in left;
        if id in members {
          if CompareTimestamps(digest[id], members[id].version.ts) > 0 {
            DeltaSends(s, digest, left, delta, priority, id);
            delta := delta + [CopyMember(members[id])];
          } else {
            DeltaAsksFor(s, digest, left, delta, priority, id);
            priority := priority + {id};
          }
        } else {
          DeltaAsksFor(s, digest, left, delta, priority, id);
          priority := priority + {id};
        }
        left := left - {id};
      }
      DeltaIsComplete(s, digest, delta, priority);
      WellFormedDepends(s, Contents());
    }
  }

  /** Every entry carries the stored timestamp, or zero for an id that is not held. */
  ghost predicate Stamped(members: map<string, Member>, digest: map<string, Timestamp>) {
    forall id :: id in digest ==>
      digest[id] == if id in members then members[id].version.ts else Timestamp(0, 0)
  }

  method Stamp(members: map<string, Member>, digest: map<string, Timestamp>, id: string)
    returns (d: map<string, Timestamp>)
    requires Stamped(members, digest)
    ensures d.Keys == digest.Keys + {id} && Stamped(members, d)
    ensures |d.Keys| == if id in digest then |digest.Keys| else |digest.Keys| + 1
  {
    d := digest[id := if id in members then members[id].version.ts else Timestamp(0, 0)];
    AddOne(digest.Keys, id);
    assert d.Keys == digest.Keys + {id};
  }

  lemma AddOne(keys: set<string>, id: string)
    ensures |keys + {id}| == if id in keys then |keys| else |keys| + 1
  {
    if id in keys {
      assert keys + {id} == keys;
    }
  }

  /** keys moved out of all, and left stayed. */
  predicate Moved(all: set<string>, left: set<string>, keys: set<string>) {
    left <= all && keys == all - left
  }

  lemma MoveOne(all: set<string>, left: set<string>, keys: set<string>, id: string)
    requires Moved(all, left, keys) && id in left
    ensures Moved(all, left - {id}, keys + {id}) && id !in keys
  {
  }

  predicate Within(low: set<string>, keys: set<string>, high: set<string>) {
    low <= keys <= high
  }

  predicate Includes(keys: set<string>, ids: seq<string>) {
    forall id :: id in ids ==> id in keys
  }

  lemma IncludesAll(low: set<string>, keys: set<string>, more: set<string>, ids: seq<string>)
    requires Within(low, keys, low + more) && Includes(keys, ids)
    requires forall id :: id in more ==> id in ids
    ensures keys == low + more
  {
  }

  /** A digest is proper if it is full, or leaves nothing out. */
  lemma DigestIsProper(s: State, limit: int, digest: map<string, Timestamp>, left: set<string>)
    requires Stamped(s.members, digest)
    requires || (Moved(s.priority, left, digest.Keys) && |digest.Keys| == Max(limit, 1))
             || (left == {} && Within(s.priority, digest.Keys, s.priority + s.members.Keys) &&
                 (|digest.Keys| == Max(limit, 1) ||
                  (digest.Keys == s.priority + s.members.Keys && |digest.Keys| < Max(limit, 1))))
    ensures IsDigest(s, limit, digest)
    ensures AfterDigest(s, digest) == s.(priority := left)
  {
    SubsetIsNoLarger(digest.Keys, s.priority + s.members.Keys);
  }

  /** perm holds each index below n once. */
  ghost predicate IsPermutation(perm: seq<nat>, n: nat) {
    && |perm| == n
    && (forall i :: 0 <= i < n ==> perm[i] < n)
    && (forall i, j :: 0 <= i < j < n ==> perm[i] != perm[j])
    && (forall k :: 0 <= k < n ==> k in perm)
  }

  /** Puts src[i] at perm[i]. */
  method ShuffleStrings(src: seq<string>, perm: seq<nat>) returns (res: array<string>)
    requires IsPermutation(perm, |src|)
    ensures fresh(res) && res.Length == |src|
    ensures forall i :: 0 <= i < |src| ==> res[perm[i]] == src[i]
    ensures forall x :: x in res[..] <==> x in src
  {
    res := new string[|src|];
    for i := 0 to |src|
      invariant forall j :: 0 <= j < i ==> res[perm[j]] == src[j]
    {
      res[perm[i]] := src[i];
    }
    forall k | 0 <= k < res.Length ensures res[k] in src {
      assert k in perm;
      var i :| 0 <= i < |perm| && perm[i] == k;
    }
    forall i | 0 <= i < |src| ensures src[i] in res[..] {
      assert res[perm[i]] in res[..];
    }
  }
}
