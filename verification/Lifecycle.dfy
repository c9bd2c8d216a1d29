/** The life of one member over a run: how long it lasts unseen, and how heartbeats win it back. */
module Lifecycle {
  import opened Rpc
  import opened Versions
  import opened RegistryState
  import opened FailureDetector

  /** The event names id: a client operation on it, an update of it, or a visit to it. */
  predicate Concerns(e: Event, id: string) {
    match e
    case Add(member, _) => member.id == id
    case Heartbeat(member, _, _) => member.id == id
    case Remove(gone, _, _) => gone == id
    case Remote(update) => update.state.id == id
    case Visited(visited, _, _) => visited == id
    case _ => false
  }

  /** What a registry knows of one member. */
  datatype Entry = Entry(held: Option<Member>, seen: Option<int>)

  function EntryOf(s: State, id: string): Entry {
    Entry(Held(s, id), if id in s.lastSeen then Some(s.lastSeen[id]) else None)
  }

  lemma UpdateLeavesOthersAlone(s: State, member: MemberState, liveness: Liveness, expiry: int, now: int, id: string)
    requires member.id != id
    ensures EntryOf(UpdateMember(s, member, liveness, expiry, now), id) == EntryOf(s, id)
  {
  }

  lemma UnconcernedEvent(s: State, e: Event, id: string)
    requires WellFormed(s) && !Concerns(e, id)
    ensures EntryOf(Apply(s, e), id) == EntryOf(s, id)
  {
    match e
    case Add(member, now) =>
      UpdateLeavesOthersAlone(s, member, UP, 0, now, id);
    case Heartbeat(member, at, now) =>
      UpdateLeavesOthersAlone(s, member, UP, 0, now, id);
    case Remove(gone, at, now) =>
      if gone in s.members {
        UpdateLeavesOthersAlone(s, s.members[gone].state, LEFT, at + s.cfg.tombstone, now, id);
      }
    case Visited(visited, timestamp, now) =>
      var effect := VisitEffect(s, visited, timestamp, now);
      EntryAfterVisit(s, Visit(s, visited, timestamp, now), effect, visited, id);
    case _ =>
  }

  lemma EntryAfterVisit(s: State, t: State, effect: Effect, visited: string, id: string)
    requires Did(s, t, effect) && id != visited
    requires effect.Quiet? ==> t == s
    requires effect.Issued? ==> effect.m.state.id == visited
    requires effect.Removed? ==> effect.id == visited
    requires !effect.Accepted?
    ensures EntryOf(t, id) == EntryOf(s, id)
  {
  }

  // ----- A member nobody attends to -----

  /** The timestamps of the sweeps that visited id, oldest first. */
  function VisitTimes(es: seq<Event>, id: string): seq<int> {
    if es == [] then []
    else
      var e := es[|es| - 1];
      VisitTimes(es[..|es| - 1], id) + if e.Visited? && e.id == id then [e.timestamp] else []
  }

  /** The first time is not after first, and each later one within gap of the one before. */
  ghost predicate WellSpaced(times: seq<int>, first: int, gap: int) {
    times == [] ||
    (var (init, last) := (times[..|times| - 1], times[|times| - 1]);
     && WellSpaced(init, first, gap)
     && if init == [] then last <= first else init[|init| - 1] <= last <= init[|init| - 1] + gap)
  }

  /** An event that leaves id to the failure detector. */
  predicate LeavesAlone(s: State, e: Event, id: string) {
    Concerns(e, id) ==> e.Visited? || (e.Remote? && Apply(s, e) == s)
  }

  /**
   * From s on, clients and other nodes leave id alone: nothing but visits concerns it,
   * except remote updates that are discarded.
   */
  ghost predicate LeftAlone(s: State, es: seq<Event>, id: string) {
    es == [] ||
    (var (init, e) := (es[..|es| - 1], es[|es| - 1]); LeftAlone(s, init, id) && LeavesAlone(Run(s, init), e, id))
  }

  /** From s on, the clock does not go back. */
  ghost predicate TimelyRun(s: State, es: seq<Event>) {
    es == [] ||
    (var (init, e) := (es[..|es| - 1], es[|es| - 1]); TimelyRun(s, init) && Timely(Run(s, init), e))
  }

  ghost predicate Unattended(s: State, es: seq<Event>, id: string) {
    LeftAlone(s, es, id) && TimelyRun(s, es)
  }

  /** Starting point: id is up, owned here and was last seen at seen. */
  ghost predicate LastSeenAt(s: State, id: string, seen: int) {
    && WellFormed(s) && IssuedUpTo(s)
    && id != s.cfg.localId && s.Owns(id) && s.members[id].liveness == UP && s.lastSeen[id] == seen
  }

  /** Where a member last seen at seen can be after sweeps at times, at most gap apart. */
  predicate OnSchedule(t: State, id: string, seen: int, gap: int, times: seq<int>) {
    var down := seen + t.cfg.heartbeat;
    var left := down + t.cfg.reconnect;
    var gone := left + t.cfg.tombstone;
    if id !in t.members then times != [] && times[|times| - 1] > gone
    else
      var m := t.members[id];
      && t.Owns(id)
      && match m.liveness
         case UP => id in t.lastSeen && t.lastSeen[id] == seen && (times != [] ==> times[|times| - 1] <= down)
         case DOWN => times != [] && left < m.expiry <= left + gap && times[|times| - 1] <= m.expiry
         case LEFT => times != [] && gone < m.expiry <= gone + 2 * gap && times[|times| - 1] <= m.expiry
  }

  lemma VisitStaysOnSchedule(t: State, id: string, timestamp: int, now: int, seen: int, gap: int, times: seq<int>)
    requires WellFormed(t) && IssuedUpTo(t) && ClockAhead(t, now) && id != t.cfg.localId
    requires t.cfg.reconnect >= 0 && t.cfg.tombstone >= 0
    requires OnSchedule(t, id, seen, gap, times)
    requires times == [] ==> timestamp <= seen + t.cfg.heartbeat + gap
    requires times != [] ==> times[|times| - 1] <= timestamp <= times[|times| - 1] + gap
    ensures OnSchedule(Visit(t, id, timestamp, now), id, seen, gap, times + [timestamp])
  {
    if id in t.members {
      VisitCarriesOutDecision(t, id, timestamp, now);
      assert Newer(NextVersion(t, now), t.members[id].version);
      var effect := VisitEffect(t, id, timestamp, now);
    }
  }

  lemma EntryDecidesSchedule(t: State, r: State, id: string, seen: int, gap: int, times: seq<int>)
    requires EntryOf(t, id) == EntryOf(r, id) && t.cfg == r.cfg && OnSchedule(t, id, seen, gap, times)
    ensures OnSchedule(r, id, seen, gap, times)
  {
  }

  lemma WellSpacedPrefix(times: seq<int>, t: int, first: int, gap: int)
    requires WellSpaced(times + [t], first, gap)
    ensures WellSpaced(times, first, gap)
    ensures times == [] ==> t <= first
    ensures times != [] ==> times[|times| - 1] <= t <= times[|times| - 1] + gap
  {
    assert (times + [t])[..|times + [t]| - 1] == times;
  }

  lemma EventStaysOnSchedule(t: State, e: Event, id: string, seen: int, gap: int, times: seq<int>)
    requires WellFormed(t) && IssuedUpTo(t) && Timely(t, e) && id != t.cfg.localId && LeavesAlone(t, e, id)
    requires t.cfg.reconnect >= 0 && t.cfg.tombstone >= 0
    requires OnSchedule(t, id, seen, gap, times)
    requires WellSpaced(times + VisitTimes([e], id), seen + t.cfg.heartbeat + gap, gap)
    ensures OnSchedule(Apply(t, e), id, seen, gap, times + VisitTimes([e], id))
  {
    assert VisitTimes([e], id) == if e.Visited? && e.id == id then [e.timestamp] else [] by {
      assert VisitTimes([], id) == [];
    }
    if e.Visited? && e.id == id {
      WellSpacedPrefix(times, e.timestamp, seen + t.cfg.heartbeat + gap, gap);
      assert ReadsClock(e, e.now);
      VisitStaysOnSchedule(t, id, e.timestamp, e.now, seen, gap, times);
    } else {
      if !Concerns(e, id) {
        UnconcernedEvent(t, e, id);
      }
      var effect := EventEffect(t, e);
      assert times + [] == times;
      EntryDecidesSchedule(t, Apply(t, e), id, seen, gap, times);
    }
  }

  lemma VisitTimesSplit(es: seq<Event>, id: string)
    requires es != []
    ensures VisitTimes(es, id) == VisitTimes(es[..|es| - 1], id) + VisitTimes([es[|es| - 1]], id)
  {
    assert VisitTimes([], id) == [];
  }

  lemma WellSpacedInit(es: seq<Event>, id: string, first: int, gap: int)
    requires es != [] && WellSpaced(VisitTimes(es, id), first, gap)
    ensures WellSpaced(VisitTimes(es[..|es| - 1], id), first, gap)
  {
    var e, times := es[|es| - 1], VisitTimes(es[..|es| - 1], id);
    if e.Visited? && e.id == id {
      WellSpacedPrefix(times, e.timestamp, first, gap);
    } else {
      assert times + [] == times;
    }
  }

  lemma {:induction false} UnattendedKeepsInvariants(s: State, es: seq<Event>, id: string)
    requires WellFormed(s) && IssuedUpTo(s) && Unattended(s, es, id)
    ensures WellFormed(Run(s, es)) && IssuedUpTo(Run(s, es)) && Run(s, es).cfg == s.cfg
  {
    if es != [] {
      var init, e := es[..|es| - 1], es[|es| - 1];
      UnattendedKeepsInvariants(s, init, id);
      EventKeepsWellFormed(Run(s, init), e);
      EventKeepsIssuedUpTo(Run(s, init), e);
      var effect := EventEffect(Run(s, init), e);
    }
  }

  /** The schedule over a whole run. */
  lemma {:induction false} UnattendedStaysOnSchedule(s: State, es: seq<Event>, id: string, seen: int, gap: int)
    requires LastSeenAt(s, id, seen) && Unattended(s, es, id)
    requires s.cfg.reconnect >= 0 && s.cfg.tombstone >= 0
    requires WellSpaced(VisitTimes(es, id), seen + s.cfg.heartbeat + gap, gap)
    ensures OnSchedule(Run(s, es), id, seen, gap, VisitTimes(es, id))
  {
    if es != [] {
      var init, e := es[..|es| - 1], es[|es| - 1];
      WellSpacedInit(es, id, seen + s.cfg.heartbeat + gap, gap);
      UnattendedStaysOnSchedule(s, init, id, seen, gap);
      UnattendedKeepsInvariants(s, init, id);
      VisitTimesSplit(es, id);
      EventStaysOnSchedule(Run(s, init), e, id, seen, gap, VisitTimes(init, id));
    }
  }

  /**
   * The removal window of a member last seen at L, with heartbeat, reconnect and tombstone
   * timeouts H, R and T and sweeps at most P apart: the sweep that removes it comes after L+H+R+T and
   * no later than L+H+R+T+3P, and once a sweep is past L+H+R+T+2P it is gone.
   */
  ghost predicate RemovedInTime(s: State, es: seq<Event>, id: string, seen: int, gap: int) {
    var (times, gone) := (VisitTimes(es, id), seen + s.cfg.heartbeat + s.cfg.reconnect + s.cfg.tombstone);
    && (times != [] && gap >= 0 && times[|times| - 1] > gone + 2 * gap ==> id !in Run(s, es).members)
    && (id !in Run(s, es).members ==> times != [] && times[|times| - 1] > gone)
    && (es != [] && id in Run(s, es[..|es| - 1]).members && id !in Run(s, es).members ==>
          times != [] && gone < times[|times| - 1] <= gone + 3 * gap)
  }

  /** Nobody attends to id, and sweeps visit it first by seen + H + gap and then at most gap apart. */
  ghost predicate SweptRegularly(s: State, es: seq<Event>, id: string, seen: int, gap: int) {
    && Unattended(s, es, id) && s.cfg.reconnect >= 0 && s.cfg.tombstone >= 0
    && WellSpaced(VisitTimes(es, id), seen + s.cfg.heartbeat + gap, gap)
  }

  /** A member last seen at L, with the first sweep by L+H+P and later ones at most P apart, is removed in time. */
  lemma UnattendedMemberIsRemovedInTime(s: State, es: seq<Event>, id: string, seen: int, gap: int)
    requires LastSeenAt(s, id, seen) && SweptRegularly(s, es, id, seen, gap)
    ensures RemovedInTime(s, es, id, seen, gap)
  {
    UnattendedStaysOnSchedule(s, es, id, seen, gap);
    UnattendedKeepsInvariants(s, es, id);
    if es != [] && id in Run(s, es[..|es| - 1]).members && id !in Run(s, es).members {
      RemovalIsOnSchedule(s, es, id, seen, gap);
    }
  }

  lemma RemovalIsOnSchedule(s: State, es: seq<Event>, id: string, seen: int, gap: int)
    requires LastSeenAt(s, id, seen) && SweptRegularly(s, es, id, seen, gap) && es != []
    requires id in Run(s, es[..|es| - 1]).members && id !in Run(s, es).members
    ensures var times := VisitTimes(es, id); var gone := seen + s.cfg.heartbeat + s.cfg.reconnect + s.cfg.tombstone;
      times != [] && gone < times[|times| - 1] <= gone + 3 * gap
  {
    var init, e := es[..|es| - 1], es[|es| - 1];
    OnlyVisitsRemove(Run(s, init), e, id);
    SweptBefore(s, es, id, seen, gap);
    RemovedAfter(s, init, e, id, seen, gap);
  }

  lemma SweptBefore(s: State, es: seq<Event>, id: string, seen: int, gap: int)
    requires SweptRegularly(s, es, id, seen, gap) && es != [] && es[|es| - 1].Visited? && es[|es| - 1].id == id
    ensures var (times, t) := (VisitTimes(es[..|es| - 1], id), es[|es| - 1].timestamp);
      && SweptRegularly(s, es[..|es| - 1], id, seen, gap)
      && VisitTimes(es, id) == times + [t]
      && (times != [] ==> t <= times[|times| - 1] + gap)
  {
    LastVisitTime(es, id, seen + s.cfg.heartbeat + gap, gap);
  }

  lemma RemovedAfter(s: State, es: seq<Event>, e: Event, id: string, seen: int, gap: int)
    requires LastSeenAt(s, id, seen) && SweptRegularly(s, es, id, seen, gap)
    requires e.Visited? && e.id == id
    requires var times := VisitTimes(es, id); times != [] ==> e.timestamp <= times[|times| - 1] + gap
    requires id in Run(s, es).members && id !in Apply(Run(s, es), e).members
    ensures var gone := seen + s.cfg.heartbeat + s.cfg.reconnect + s.cfg.tombstone;
      gone < e.timestamp <= gone + 3 * gap
  {
    UnattendedStaysOnSchedule(s, es, id, seen, gap);
    UnattendedKeepsInvariants(s, es, id);
    RemovedOnSchedule(Run(s, es), id, e.timestamp, e.now, seen, gap, VisitTimes(es, id));
  }

  lemma LastVisitTime(es: seq<Event>, id: string, first: int, gap: int)
    requires es != [] && es[|es| - 1].Visited? && es[|es| - 1].id == id
    requires WellSpaced(VisitTimes(es, id), first, gap)
    ensures var (times, t) := (VisitTimes(es[..|es| - 1], id), es[|es| - 1].timestamp);
      && VisitTimes(es, id) == times + [t]
      && WellSpaced(times, first, gap)
      && (times != [] ==> t <= times[|times| - 1] + gap)
  {
    WellSpacedPrefix(VisitTimes(es[..|es| - 1], id), es[|es| - 1].timestamp, first, gap);
  }

  lemma OnlyVisitsRemove(s: State, e: Event, id: string)
    requires id in s.members && id !in Apply(s, e).members
    ensures e.Visited? && e.id == id
  {
    var effect := EventEffect(s, e);
  }

  lemma RemovedOnSchedule(t: State, id: string, timestamp: int, now: int, seen: int, gap: int, times: seq<int>)
    requires WellFormed(t) && OnSchedule(t, id, seen, gap, times)
    requires times != [] ==> timestamp <= times[|times| - 1] + gap
    requires id in t.members && id !in Visit(t, id, timestamp, now).members
    ensures var gone := seen + t.cfg.heartbeat + t.cfg.reconnect + t.cfg.tombstone;
      gone < timestamp <= gone + 3 * gap
  {
    VisitCarriesOutDecision(t, id, timestamp, now);
  }

  // ----- Stages -----

  function Stage(s: State, id: string): int {
    if id !in s.members then 3
    else match s.members[id].liveness case UP => 0 case DOWN => 1 case LEFT => 2
  }

  /** Left alone, a member moves forward one stage at a time. */
  lemma StageAdvancesByOne(s: State, e: Event, id: string)
    requires WellFormed(s)
    requires LeavesAlone(s, e, id)
    ensures Stage(s, id) <= Stage(Apply(s, e), id) <= Stage(s, id) + 1
  {
    if !Concerns(e, id) {
      UnconcernedEvent(s, e, id);
    } else if e.Visited? && id in s.members {
      VisitCarriesOutDecision(s, id, e.timestamp, e.now);
    }
  }

  /** So it passes through every stage: it is removed only after having been DOWN and then LEFT. */
  lemma {:induction false} PassesThroughEveryStage(s: State, es: seq<Event>, id: string, stage: int) returns (k: nat)
    requires WellFormed(s) && LeftAlone(s, es, id)
    requires Stage(s, id) <= stage <= Stage(Run(s, es), id)
    ensures k <= |es| && Stage(Run(s, es[..k]), id) == stage
    ensures WellFormed(Run(s, es))
  {
    if es == [] {
      k := 0;
    } else {
      var init, e := es[..|es| - 1], es[|es| - 1];
      RunKeepsWellFormed(s, init);
      EventKeepsWellFormed(Run(s, init), e);
      StageAdvancesByOne(Run(s, init), e, id);
      if stage <= Stage(Run(s, init), id) {
        k := PassesThroughEveryStage(s, init, id, stage);
        assert init[..k] == es[..k];
      } else {
        k := |es|;
        assert es[..k] == es;
      }
    }
  }

  lemma {:induction false} RunKeepsWellFormed(s: State, es: seq<Event>)
    requires WellFormed(s)
    ensures WellFormed(Run(s, es))
  {
    if es != [] {
      RunKeepsWellFormed(s, es[..|es| - 1]);
      EventKeepsWellFormed(Run(s, es[..|es| - 1]), es[|es| - 1]);
    }
  }

  // ----- Heartbeats -----

  predicate IsHeartbeat(e: Event, id: string) {
    e.Heartbeat? && e.member.id == id
  }

  /** The clock readings of the heartbeats of id. */
  function BeatTimes(es: seq<Event>, id: string): seq<int> {
    if es == [] then []
    else
      var e := es[|es| - 1];
      BeatTimes(es[..|es| - 1], id) + if IsHeartbeat(e, id) then [e.now] else []
  }

  /** From s on, the clock does not go back and no version of id past bound arrives from elsewhere. */
  ghost predicate HolderSilent(s: State, es: seq<Event>, id: string, bound: int) {
    es == [] ||
    (var (init, e) := (es[..|es| - 1], es[|es| - 1]);
     && HolderSilent(s, init, id, bound)
     && Timely(Run(s, init), e)
     && (e.Remote? && e.update.state.id == id ==> e.update.version.ts.ms <= bound))
  }

  /** id is held, if at all, at a version that a reading past bound replaces. */
  predicate Beatable(s: State, id: string, bound: int) {
    id in s.members ==> s.members[id].version.ts.ms <= bound || s.Owns(id)
  }

  lemma {:induction false} StaysBeatable(s: State, es: seq<Event>, id: string, bound: int)
    requires WellFormed(s) && IssuedUpTo(s) && Beatable(s, id, bound) && HolderSilent(s, es, id, bound)
    ensures var t := Run(s, es); WellFormed(t) && IssuedUpTo(t) && t.cfg == s.cfg && Beatable(t, id, bound)
  {
    if es != [] {
      var init, e := es[..|es| - 1], es[|es| - 1];
      StaysBeatable(s, init, id, bound);
      EventKeepsWellFormed(Run(s, init), e);
      EventKeepsIssuedUpTo(Run(s, init), e);
      var effect := EventEffect(Run(s, init), e);
    }
  }

  predicate UpAndOwned(s: State, id: string) {
    s.Owns(id) && s.members[id].liveness == UP
  }

  lemma HeartbeatPastBoundWins(s: State, member: MemberState, at: int, now: int, bound: int)
    requires WellFormed(s) && IssuedUpTo(s) && ClockAhead(s, now)
    requires Beatable(s, member.id, bound) && bound < now && member.id != s.cfg.localId
    ensures UpAndOwned(MemberHeartbeat(s, member, at, now), member.id)
    ensures !UpAndOwned(s, member.id) ==>
      var m := MemberHeartbeat(s, member, at, now).members[member.id]; m.state == member && m.expiry == 0
  {
    if !UpAndOwned(s, member.id) {
      assert Accepts(s, member.id, NextVersion(s, now));
    }
  }

  lemma BeatPastBoundWins(s: State, es: seq<Event>, e: Event, id: string, bound: int)
    requires WellFormed(s) && IssuedUpTo(s) && id != s.cfg.localId
    requires Beatable(s, id, bound) && HolderSilent(s, es, id, bound)
    requires Timely(Run(s, es), e) && IsHeartbeat(e, id) && bound < e.now
    ensures UpAndOwned(Apply(Run(s, es), e), id)
  {
    StaysBeatable(s, es, id, bound);
    assert ReadsClock(e, e.now);
    HeartbeatPastBoundWins(Run(s, es), e.member, e.at, e.now, bound);
  }

  /** The heartbeats of id begin by start + gap, are at most gap apart, and go past bound. */
  ghost predicate BeatsPast(es: seq<Event>, id: string, start: int, bound: int, gap: int) {
    var times := BeatTimes(es, id);
    WellSpaced(times, start + gap, gap) && times != [] && times[|times| - 1] > bound
  }

  lemma LastBeatTime(es: seq<Event>, id: string, first: int, gap: int)
    requires es != [] && WellSpaced(BeatTimes(es, id), first, gap)
    ensures var (times, e) := (BeatTimes(es[..|es| - 1], id), es[|es| - 1]);
      && WellSpaced(times, first, gap)
      && BeatTimes(es, id) == (if IsHeartbeat(e, id) then times + [e.now] else times)
      && (IsHeartbeat(e, id) ==> if times == [] then e.now <= first else e.now <= times[|times| - 1] + gap)
  {
    var (times, e) := (BeatTimes(es[..|es| - 1], id), es[|es| - 1]);
    if IsHeartbeat(e, id) {
      WellSpacedPrefix(times, e.now, first, gap);
    } else {
      assert times + [] == times;
    }
  }

  lemma FirstBeatPast(es: seq<Event>, id: string, start: int, bound: int, gap: int)
    requires es != [] && BeatsPast(es, id, start, bound, gap) && start <= bound
    requires !BeatsPast(es[..|es| - 1], id, start, bound, gap)
    ensures IsHeartbeat(es[|es| - 1], id) && bound < es[|es| - 1].now <= bound + gap
  {
    LastBeatTime(es, id, start + gap, gap);
  }

  lemma PrefixOfPrefix<T>(xs: seq<T>, m: nat, n: nat)
    requires n <= m <= |xs|
    ensures xs[..m][..n] == xs[..n]
    ensures n == |xs| ==> xs[..n] == xs
  {
  }

  lemma FirstBeatWins(s: State, es: seq<Event>, id: string, start: int, bound: int, gap: int)
    requires WellFormed(s) && IssuedUpTo(s) && id != s.cfg.localId
    requires Beatable(s, id, bound) && HolderSilent(s, es, id, bound) && start <= bound
    requires es != [] && BeatsPast(es, id, start, bound, gap) && !BeatsPast(es[..|es| - 1], id, start, bound, gap)
    ensures IsHeartbeat(es[|es| - 1], id) && bound < es[|es| - 1].now <= bound + gap
    ensures UpAndOwned(Run(s, es), id)
  {
    FirstBeatPast(es, id, start, bound, gap);
    BeatPastBoundWins(s, es[..|es| - 1], es[|es| - 1], id, bound);
  }

  /**
   * A competing version is ahead of the local clock, up to bound, and nothing later arrives
   * from elsewhere. Whatever the sweeps, the removals and the node joins and leaves do in
   * the meantime, a client that heartbeats at most gap apart has its member owned here and
   * up within gap of the clock passing bound.
   */
  lemma {:induction false} HeartbeatsWinBackOwnership(s: State, es: seq<Event>, id: string, start: int, bound: int,
                                                      gap: int)
    returns (k: nat)
    requires WellFormed(s) && IssuedUpTo(s) && id != s.cfg.localId
    requires Beatable(s, id, bound) && HolderSilent(s, es, id, bound) && start <= bound
    requires BeatsPast(es, id, start, bound, gap)
    ensures k < |es| && IsHeartbeat(es[k], id) && bound < es[k].now <= bound + gap
    ensures UpAndOwned(Run(s, es[..k + 1]), id)
  {
    var init := es[..|es| - 1];
    if BeatsPast(init, id, start, bound, gap) {
      k := HeartbeatsWinBackOwnership(s, init, id, start, bound, gap);
      PrefixOfPrefix(es, |es| - 1, k + 1);
    } else {
      k := |es| - 1;
      FirstBeatWins(s, es, id, start, bound, gap);
      PrefixOfPrefix(es, |es|, k + 1);
    }
  }

  /**
   * id is only heartbeated, visited within the heartbeat timeout of its last heartbeat, or
   * sent updates that are discarded.
   */
  ghost predicate Attended(s: State, es: seq<Event>, id: string) {
    es == [] ||
    (var (init, e) := (es[..|es| - 1], es[|es| - 1]); var t := Run(s, init);
     && Attended(s, init, id)
     && (Concerns(e, id) ==>
           || IsHeartbeat(e, id)
           || (e.Remote? && Apply(t, e) == t)
           || (e.Visited? && id in t.lastSeen && e.timestamp - t.lastSeen[id] <= t.cfg.heartbeat)))
  }

  /** While heartbeats keep up with the sweeps, the member stays as it is: up, owned, and at the same version. */
  lemma {:induction false} AttendedMemberIsLeftAlone(s: State, es: seq<Event>, id: string)
    requires WellFormed(s) && UpAndOwned(s, id) && Attended(s, es, id)
    ensures var t := Run(s, es); WellFormed(t) && t.cfg == s.cfg && Held(t, id) == Held(s, id)
  {
    if es != [] {
      var init, e := es[..|es| - 1], es[|es| - 1];
      AttendedMemberIsLeftAlone(s, init, id);
      EventKeepsWellFormed(Run(s, init), e);
      var effect := EventEffect(Run(s, init), e);
      if !Concerns(e, id) {
        UnconcernedEvent(Run(s, init), e, id);
      }
    }
  }
}
