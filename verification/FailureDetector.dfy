/** The liveness sweep: its order does not matter, and takeover is complete. */
module FailureDetector {
  import opened Rpc
  import opened Versions
  import opened RegistryState

  datatype Decision = Keep | Delete | Reissue(liveness: Liveness, expiry: int)

  /** What the failure detector wants for one member, from that member's own entries alone. */
  function Decide(cfg: Config, leftNodes: map<string, int>, m: Member, seen: int, timestamp: int): Decision {
    if m.liveness == LEFT && timestamp > m.expiry then Delete
    else if m.version.owner == cfg.localId then
      match m.liveness
      case UP => if timestamp - seen > cfg.heartbeat then Reissue(DOWN, timestamp + cfg.reconnect) else Keep
      case DOWN => if timestamp > m.expiry then Reissue(LEFT, timestamp + cfg.tombstone) else Keep
      case LEFT => Keep
    else if m.version.owner in leftNodes && timestamp - leftNodes[m.version.owner] > cfg.heartbeat then
      if m.liveness == UP then Reissue(DOWN, timestamp + cfg.reconnect) else Reissue(m.liveness, m.expiry)
    else Keep
  }

  function Seen(s: State, id: string): int {
    if id in s.lastSeen then s.lastSeen[id] else 0
  }

  function DecisionFor(s: State, id: string, timestamp: int): Decision
    requires id in s.members
  {
    if id == s.cfg.localId then Keep
    else Decide(s.cfg, s.leftNodes, s.members[id], Seen(s, id), timestamp)
  }

  /** What is left of m when its decision is carried out with version v. */
  function Outcome(m: Member, d: Decision, v: Version): Option<Member> {
    match d
    case Keep => Some(m)
    case Delete => None
    case Reissue(liveness, expiry) =>
      if Newer(v, m.version) then Some(Member(m.state, liveness, v, expiry)) else Some(m)
  }

  /** s and t are alike at id as far as a visit to id can tell. */
  predicate AlikeAt(s: State, t: State, id: string) {
    && Held(s, id) == Held(t, id)
    && (id in s.lastSeen <==> id in t.lastSeen)
    && Seen(s, id) == Seen(t, id)
    && s.cfg == t.cfg && s.leftNodes == t.leftNodes && s.priority == t.priority
  }

  predicate Attempts(s: State, id: string, timestamp: int) {
    id in s.members && DecisionFor(s, id, timestamp).Reissue?
  }

  lemma VisitCarriesOutDecision(s: State, id: string, timestamp: int, now: int)
    requires WellFormed(s) && id in s.members
    ensures var t := Visit(s, id, timestamp, now); var d := DecisionFor(s, id, timestamp);
      && Held(t, id) == Outcome(s.members[id], d, NextVersion(s, now))
      && t.last == (if d.Reissue? then Some(NextVersion(s, now)) else s.last)
      && (id in t.lastSeen <==> t.Owns(id))
      && (id in t.lastSeen ==>
            t.lastSeen[id] == if d.Reissue? && t.members[id] != s.members[id] then now else Seen(s, id))
  {
    var d := DecisionFor(s, id, timestamp);
    if d.Reissue? {
      ReissueOutcome(s, id, d.liveness, d.expiry, now);
    }
  }

  lemma ReissueOutcome(s: State, id: string, liveness: Liveness, expiry: int, now: int)
    requires WellFormed(s) && id in s.members && id != s.cfg.localId
    ensures var (m, t) := (s.members[id], UpdateMember(s, s.members[id].state, liveness, expiry, now));
      && Held(t, id) == Outcome(m, Reissue(liveness, expiry), NextVersion(s, now))
      && t.last == Some(NextVersion(s, now))
      && (id in t.lastSeen <==> t.Owns(id))
      && (id in t.lastSeen ==> t.lastSeen[id] == if t.members[id] != m then now else Seen(s, id))
  {
  }

  lemma VisitLeavesOthersAlone(s: State, id: string, timestamp: int, now: int, other: string)
    requires WellFormed(s) && id != other
    ensures AlikeAt(s, Visit(s, id, timestamp, now), other)
  {
    var effect := VisitEffect(s, id, timestamp, now);
    DidLeavesOthersAlone(s, Visit(s, id, timestamp, now), effect, id, other);
  }

  lemma DidLeavesOthersAlone(s: State, t: State, effect: Effect, id: string, other: string)
    requires Did(s, t, effect) && VisitFrame(s, t) && id != other
    requires match effect
             case Quiet => t == s
             case Burned(_) => true
             case Issued(m) => m.state.id == id
             case Accepted(_) => false
             case Removed(gone) => gone == id
    ensures AlikeAt(s, t, other)
  {
  }

  ghost predicate NoDuplicates(order: seq<string>) {
    forall i, j :: 0 <= i < j < |order| ==> order[i] != order[j]
  }

  ghost predicate Constant(nows: seq<int>, now: int) {
    forall k :: 0 <= k < |nows| ==> nows[k] == now
  }

  /** t holds what a visit to id, deciding on s and reading now, leaves of it. */
  predicate SweptAt(s: State, t: State, id: string, timestamp: int, now: int, counter: nat)
    requires id in s.members
  {
    var d := DecisionFor(s, id, timestamp);
    && Held(t, id) == Outcome(s.members[id], d, Version(s.cfg.localId, Timestamp(now, counter)))
    && (id in t.lastSeen <==> t.Owns(id))
    && (id in t.lastSeen ==>
          t.lastSeen[id] == if d.Reissue? && t.members[id] != s.members[id] then now else Seen(s, id))
    && t.cfg == s.cfg && t.leftNodes == s.leftNodes && t.priority == s.priority
  }

  lemma AlikeBefore(s: State, s1: State, t: State, id: string, timestamp: int, now: int, counter: nat)
    requires AlikeAt(s, s1, id) && id in s1.members && SweptAt(s1, t, id, timestamp, now, counter)
    ensures id in s.members && SweptAt(s, t, id, timestamp, now, counter)
  {
  }

  lemma AlikeAfter(s: State, t1: State, t: State, id: string, timestamp: int, now: int, counter: nat)
    requires AlikeAt(t1, t, id) && id in s.members && SweptAt(s, t1, id, timestamp, now, counter)
    ensures SweptAt(s, t, id, timestamp, now, counter)
  {
  }

  /** The last version once n more versions were issued at now. */
  function LastAfter(s: State, now: int, n: nat): Option<Version> {
    if n == 0 then s.last
    else Some(Version(s.cfg.localId, Timestamp(now, NextVersion(s, now).ts.counter + n - 1)))
  }

  /** s1 is what a visit to id leaves of s, as far as the rest of a sweep can tell. */
  ghost predicate Leaves(s: State, s1: State, id: string, timestamp: int, now: int) {
    && WellFormed(s1) && s1.cfg == s.cfg
    && s1.last == LastAfter(s, now, if Attempts(s, id, timestamp) then 1 else 0)
    && (id in s.members ==> SweptAt(s, s1, id, timestamp, now, NextVersion(s, now).ts.counter))
    && (id in s1.members ==> id in s.members)
    && (forall other :: other != id ==> AlikeAt(s, s1, other))
  }

  lemma VisitSweeps(s: State, id: string, timestamp: int, now: int)
    requires WellFormed(s)
    ensures var s1 := Visit(s, id, timestamp, now);
      && s1.cfg == s.cfg
      && s1.last == LastAfter(s, now, if Attempts(s, id, timestamp) then 1 else 0)
      && (id in s.members ==> SweptAt(s, s1, id, timestamp, now, NextVersion(s, now).ts.counter))
      && (id in s1.members ==> id in s.members)
  {
    if id in s.members {
      VisitCarriesOutDecision(s, id, timestamp, now);
    }
    var effect := VisitEffect(s, id, timestamp, now);
  }

  lemma VisitIsLocal(s: State, id: string, timestamp: int, now: int)
    requires WellFormed(s)
    ensures forall other :: other != id ==> AlikeAt(s, Visit(s, id, timestamp, now), other)
  {
    forall other | other != id ensures AlikeAt(s, Visit(s, id, timestamp, now), other) {
      VisitLeavesOthersAlone(s, id, timestamp, now, other);
    }
  }

  lemma VisitLeaves(s: State, id: string, timestamp: int, now: int) returns (s1: State)
    requires WellFormed(s)
    ensures s1 == Visit(s, id, timestamp, now)
    ensures Leaves(s, s1, id, timestamp, now)
  {
    s1 := Visit(s, id, timestamp, now);
    VisitKeepsWellFormed(s, id, timestamp, now);
    VisitSweeps(s, id, timestamp, now);
    VisitIsLocal(s, id, timestamp, now);
  }

  lemma SweepUnfolds(s: State, order: seq<string>, timestamp: int, nows: seq<int>) returns (s1: State)
    requires WellFormed(s) && |nows| == |order| && order != []
    ensures Sweep(s, order, timestamp, nows) == Sweep(s1, order[1..], timestamp, nows[1..])
    ensures Leaves(s, s1, order[0], timestamp, nows[0])
  {
    s1 := VisitLeaves(s, order[0], timestamp, nows[0]);
  }

  lemma {:induction false} SweepLeavesOthersAlone(s: State, order: seq<string>, timestamp: int, nows: seq<int>,
                                                  other: string)
    requires WellFormed(s) && |nows| == |order| && other !in order
    ensures AlikeAt(s, Sweep(s, order, timestamp, nows), other)
    decreases |order|
  {
    if order != [] {
      var s1 := SweepUnfolds(s, order, timestamp, nows);
      SweepLeavesOthersAlone(s1, order[1..], timestamp, nows[1..], other);
      assert AlikeAt(s, s1, other);
    }
  }

  /**
   * A sweep treats the member it visits i-th as if it were alone: by its decision at the
   * start of the sweep, with a version at the i-th clock reading.
   */
  lemma {:induction false} SweepAt(s: State, order: seq<string>, timestamp: int, nows: seq<int>, i: nat)
    returns (counter: nat)
    requires WellFormed(s) && |nows| == |order| && NoDuplicates(order)
    requires i < |order| && order[i] in s.members
    ensures SweptAt(s, Sweep(s, order, timestamp, nows), order[i], timestamp, nows[i], counter)
    ensures Constant(nows, nows[i]) ==> counter >= NextVersion(s, nows[i]).ts.counter
    decreases |order|
  {
    var s1 := SweepUnfolds(s, order, timestamp, nows);
    if i == 0 {
      counter := NextVersion(s, nows[0]).ts.counter;
      SweepLeavesOthersAlone(s1, order[1..], timestamp, nows[1..], order[0]);
      AlikeAfter(s, s1, Sweep(s1, order[1..], timestamp, nows[1..]), order[0], timestamp, nows[0], counter);
    } else {
      assert order[1..][i - 1] == order[i] && nows[1..][i - 1] == nows[i];
      assert AlikeAt(s, s1, order[i]);
      counter := SweepAt(s1, order[1..], timestamp, nows[1..], i - 1);
      AlikeBefore(s, s1, Sweep(s1, order[1..], timestamp, nows[1..]), order[i], timestamp, nows[i], counter);
      assert Constant(nows, nows[i]) ==> Constant(nows[1..], nows[i]) && nows[0] == nows[i];
    }
  }

  lemma {:induction false} SweepAppend(s: State, order: seq<string>, timestamp: int, nows: seq<int>, id: string,
                                       now: int)
    requires |nows| == |order|
    ensures Sweep(s, order + [id], timestamp, nows + [now]) ==
      Visit(Sweep(s, order, timestamp, nows), id, timestamp, now)
    decreases |order|
  {
    var order', nows' := order + [id], nows + [now];
    if order == [] {
      assert order'[1..] == [] && nows'[1..] == [];
    } else {
      SweepAppend(Visit(s, order[0], timestamp, nows[0]), order[1..], timestamp, nows[1..], id, now);
      assert order'[1..] == order[1..] + [id] && nows'[1..] == nows[1..] + [now];
    }
  }

  /** The first n readings of a clock. */
  function Readings(clock: nat -> int, n: nat): seq<int> {
    seq(n, i requires 0 <= i => clock(i))
  }

  /** order lists, each once, the keys that are not left. */
  ghost predicate Enumerated(keys: set<string>, left: set<string>, order: seq<string>) {
    && left <= keys && NoDuplicates(order)
    && (forall id :: id in order <==> id in keys && id !in left)
  }

  lemma EnumerateNext(keys: set<string>, left: set<string>, order: seq<string>, id: string)
    requires Enumerated(keys, left, order) && id in left
    ensures Enumerated(keys, left - {id}, order + [id])
  {
  }

  /** The visits that make up a sweep, as events. */
  function Visits(order: seq<string>, timestamp: int, nows: seq<int>): seq<Event>
    requires |nows| == |order|
  {
    seq(|order|, i requires 0 <= i < |order| => Visited(order[i], timestamp, nows[i]))
  }

  lemma {:induction false} RunFromFront(s: State, e: Event, es: seq<Event>)
    ensures Run(s, [e] + es) == Run(Apply(s, e), es)
  {
    if es == [] {
      assert ([e] + es)[..|[e] + es| - 1] == [];
    } else {
      RunFromFront(s, e, es[..|es| - 1]);
      assert ([e] + es)[..|[e] + es| - 1] == [e] + es[..|es| - 1];
    }
  }

  /** A sweep is a run of visits, so whatever every event keeps, a sweep keeps. */
  lemma {:induction false} SweepIsRun(s: State, order: seq<string>, timestamp: int, nows: seq<int>)
    requires |nows| == |order|
    ensures Sweep(s, order, timestamp, nows) == Run(s, Visits(order, timestamp, nows))
    decreases |order|
  {
    if order != [] {
      var e := Visited(order[0], timestamp, nows[0]);
      SweepIsRun(Apply(s, e), order[1..], timestamp, nows[1..]);
      RunFromFront(s, e, Visits(order[1..], timestamp, nows[1..]));
      assert Visits(order, timestamp, nows) == [e] + Visits(order[1..], timestamp, nows[1..]);
    }
  }

  // ----- Order -----

  /** The same but for the counters that order the versions of one millisecond. */
  predicate SameUpToCounter(m: Member, n: Member) {
    m.(version := n.version) == n && m.version.owner == n.version.owner && m.version.ts.ms == n.version.ts.ms
  }

  predicate SameSweepAt(t: State, r: State, id: string) {
    && (id in t.members <==> id in r.members)
    && (id in t.members ==> SameUpToCounter(t.members[id], r.members[id]))
    && (id in t.lastSeen <==> id in r.lastSeen)
    && (id in t.lastSeen ==> t.lastSeen[id] == r.lastSeen[id])
  }

  ghost predicate SameSweep(t: State, r: State) {
    && t.cfg == r.cfg && t.leftNodes == r.leftNodes && t.priority == r.priority && t.last == r.last
    && (forall id :: SameSweepAt(t, r, id))
  }

  function AttemptSet(s: State, order: seq<string>, timestamp: int): set<string> {
    set id | id in order && Attempts(s, id, timestamp)
  }

  lemma AlikeAttempts(s: State, s1: State, id: string, timestamp: int)
    requires AlikeAt(s, s1, id)
    ensures Attempts(s, id, timestamp) <==> Attempts(s1, id, timestamp)
  {
  }

  lemma AttemptsElsewhere(s: State, s1: State, order: seq<string>, timestamp: int)
    requires NoDuplicates(order) && order != []
    requires forall id :: id != order[0] ==> AlikeAt(s, s1, id)
    ensures |AttemptSet(s, order, timestamp)| ==
      |AttemptSet(s1, order[1..], timestamp)| + if Attempts(s, order[0], timestamp) then 1 else 0
  {
    var first, all, rest := order[0], AttemptSet(s, order, timestamp), AttemptSet(s1, order[1..], timestamp);
    assert first !in rest;
    forall id | id != first ensures id in all <==> id in rest {
      AlikeAttempts(s, s1, id, timestamp);
    }
    if first in all {
      assert all == rest + {first};
    } else {
      assert all == rest;
    }
  }

  /** The last version after a sweep counts the versions it issued, used or not. */
  lemma {:induction false} SweepLast(s: State, order: seq<string>, timestamp: int, nows: seq<int>, now: int)
    requires WellFormed(s) && |nows| == |order| && NoDuplicates(order) && Constant(nows, now)
    ensures Sweep(s, order, timestamp, nows).last == LastAfter(s, now, |AttemptSet(s, order, timestamp)|)
    decreases |order|
  {
    if order == [] {
      assert AttemptSet(s, order, timestamp) == {};
    } else {
      var s1 := SweepUnfolds(s, order, timestamp, nows);
      assert Constant(nows[1..], now) && nows[0] == now;
      SweepLast(s1, order[1..], timestamp, nows[1..], now);
      AttemptsElsewhere(s, s1, order, timestamp);
      var k: nat := if Attempts(s, order[0], timestamp) then 1 else 0;
      LastAfterAdds(s, s1, now, k, |AttemptSet(s1, order[1..], timestamp)|);
    }
  }

  lemma LastAfterAdds(s: State, s1: State, now: int, k: nat, n: nat)
    requires s1.cfg == s.cfg && s1.last == LastAfter(s, now, k)
    ensures LastAfter(s1, now, n) == LastAfter(s, now, k + n)
  {
  }

  /** No owned copy is stamped with the reading of this sweep and a counter still to be issued. */
  ghost predicate FreshReading(s: State, now: int) {
    forall id :: s.Owns(id) && s.members[id].version.ts.ms == now ==>
      s.members[id].version.ts.counter < NextVersion(s, now).ts.counter
  }

  /** Along any run whose clock never goes back, every reading is fresh. */
  lemma MonotonicClockIsFresh(s: State, now: int)
    requires IssuedUpTo(s) && ClockAhead(s, now)
    ensures FreshReading(s, now)
  {
  }

  /** order lists the members of s, each once, as ranging over the map does. */
  ghost predicate IsSweepOrder(s: State, order: seq<string>) {
    NoDuplicates(order) && (forall id :: id in order <==> id in s.members)
  }

  lemma SweepOrderAt(s: State, xs: seq<string>, ys: seq<string>, timestamp: int, ns: seq<int>, ms: seq<int>,
                     now: int, id: string)
    requires WellFormed(s) && FreshReading(s, now)
    requires IsSweepOrder(s, xs) && IsSweepOrder(s, ys)
    requires |ns| == |xs| && |ms| == |ys| && Constant(ns, now) && Constant(ms, now)
    ensures SameSweepAt(Sweep(s, xs, timestamp, ns), Sweep(s, ys, timestamp, ms), id)
  {
    var t, r := Sweep(s, xs, timestamp, ns), Sweep(s, ys, timestamp, ms);
    if id in s.members {
      var i :| 0 <= i < |xs| && xs[i] == id;
      var j :| 0 <= j < |ys| && ys[j] == id;
      var c := SweepAt(s, xs, timestamp, ns, i);
      var d := SweepAt(s, ys, timestamp, ms, j);
      OutcomeIgnoresCounter(s, id, DecisionFor(s, id, timestamp), now, c, d);
    } else {
      SweepLeavesOthersAlone(s, xs, timestamp, ns, id);
      SweepLeavesOthersAlone(s, ys, timestamp, ms, id);
    }
  }

  lemma OutcomeIgnoresCounter(s: State, id: string, d: Decision, now: int, c1: nat, c2: nat)
    requires id in s.members && FreshReading(s, now)
    requires c1 >= NextVersion(s, now).ts.counter && c2 >= NextVersion(s, now).ts.counter
    ensures var m := s.members[id];
      var (v1, v2) := (Version(s.cfg.localId, Timestamp(now, c1)), Version(s.cfg.localId, Timestamp(now, c2)));
      && (Outcome(m, d, v1).None? <==> Outcome(m, d, v2).None?)
      && (Outcome(m, d, v1).Some? ==> SameUpToCounter(Outcome(m, d, v1).value, Outcome(m, d, v2).value))
      && (Outcome(m, d, v1) == Some(m) <==> Outcome(m, d, v2) == Some(m))
  {
  }

  lemma {:induction false} SweepFrame(s: State, order: seq<string>, timestamp: int, nows: seq<int>)
    requires WellFormed(s) && |nows| == |order|
    ensures var t := Sweep(s, order, timestamp, nows);
      && WellFormed(t) && t.members.Keys <= s.members.Keys
      && t.cfg == s.cfg && t.leftNodes == s.leftNodes && t.priority == s.priority
    decreases |order|
  {
    if order != [] {
      var s1 := SweepUnfolds(s, order, timestamp, nows);
      SweepFrame(s1, order[1..], timestamp, nows[1..]);
      assert AlikeAt(s, s1, order[0] + "'");
      forall id | id in s1.members ensures id in s.members {
        assert id != order[0] ==> AlikeAt(s, s1, id);
      }
    }
  }

  /**
   * However the members are ranged over, a sweep with one clock reading leaves the same
   * members with the same state, liveness, expiry and owner, and the same last version; only
   * the counters within the millisecond can be handed out differently.
   */
  lemma SweepOrderIsIrrelevant(s: State, xs: seq<string>, ys: seq<string>, timestamp: int, ns: seq<int>,
                               ms: seq<int>, now: int)
    requires WellFormed(s) && FreshReading(s, now)
    requires IsSweepOrder(s, xs) && IsSweepOrder(s, ys)
    requires |ns| == |xs| && |ms| == |ys| && Constant(ns, now) && Constant(ms, now)
    ensures SameSweep(Sweep(s, xs, timestamp, ns), Sweep(s, ys, timestamp, ms))
  {
    var t, r := Sweep(s, xs, timestamp, ns), Sweep(s, ys, timestamp, ms);
    forall id ensures SameSweepAt(t, r, id) {
      SweepOrderAt(s, xs, ys, timestamp, ns, ms, now, id);
    }
    SweepFrame(s, xs, timestamp, ns);
    SweepFrame(s, ys, timestamp, ms);
    SweepLast(s, xs, timestamp, ns, now);
    SweepLast(s, ys, timestamp, ms, now);
    assert AttemptSet(s, xs, timestamp) == AttemptSet(s, ys, timestamp);
  }

  // ----- What one sweep does -----

  /** Each member makes at most one transition, forwards, and the local member none. */
  lemma OneTransitionPerSweep(s: State, order: seq<string>, timestamp: int, nows: seq<int>, id: string)
    requires WellFormed(s) && IsSweepOrder(s, order) && |nows| == |order| && id in s.members
    ensures var m := s.members[id]; var t := Held(Sweep(s, order, timestamp, nows), id);
      && (t.None? ==> m.liveness == LEFT && timestamp > m.expiry)
      && (t.Some? ==> t.value.state == m.state)
      && (t.Some? && t.value.liveness != m.liveness ==>
            || (m.liveness == UP && t.value.liveness == DOWN && t.value.expiry == timestamp + s.cfg.reconnect)
            || (&& m.liveness == DOWN && t.value.liveness == LEFT && timestamp > m.expiry
                && t.value.expiry == timestamp + s.cfg.tombstone))
      && (t.Some? && t.value.liveness == m.liveness ==> t.value.expiry == m.expiry)
      && (id == s.cfg.localId ==> t == Some(m))
  {
    var i :| 0 <= i < |order| && order[i] == id;
    var c := SweepAt(s, order, timestamp, nows, i);
  }

  /** node is recorded as gone for longer than the heartbeat timeout. */
  predicate LongGone(s: State, node: string, timestamp: int) {
    node != s.cfg.localId && node in s.leftNodes && timestamp - s.leftNodes[node] > s.cfg.heartbeat
  }

  /**
   * A member of a node long gone is taken over exactly when the clock read for it is past
   * the version's millisecond. Taking over starts a countdown for a member that was up, and
   * never restarts one that is running.
   */
  lemma TakeoverAt(s: State, order: seq<string>, timestamp: int, nows: seq<int>, i: nat)
    requires WellFormed(s) && IsSweepOrder(s, order) && |nows| == |order| && i < |order|
    requires LongGone(s, s.members[order[i]].version.owner, timestamp)
    ensures var m := s.members[order[i]]; var t := Held(Sweep(s, order, timestamp, nows), order[i]);
      if m.liveness == LEFT && timestamp > m.expiry then t == None
      else if nows[i] <= m.version.ts.ms then t == Some(m)
      else
        && t.Some? && t.value.state == m.state
        && t.value.version.owner == s.cfg.localId && t.value.version.ts.ms == nows[i]
        && t.value.liveness == (if m.liveness == UP then DOWN else m.liveness)
        && t.value.expiry == (if m.liveness == UP then timestamp + s.cfg.reconnect else m.expiry)
  {
    var c := SweepAt(s, order, timestamp, nows, i);
  }

  /** Nothing is left with a node long gone, if the clock is past its versions. */
  lemma TakeoverIsComplete(s: State, order: seq<string>, timestamp: int, nows: seq<int>, node: string)
    requires WellFormed(s) && IsSweepOrder(s, order) && |nows| == |order|
    requires LongGone(s, node, timestamp)
    requires forall i :: 0 <= i < |order| && s.members[order[i]].version.owner == node ==>
      nows[i] > s.members[order[i]].version.ts.ms
    ensures OwnedBy(Sweep(s, order, timestamp, nows), node) == {}
  {
    var t := Sweep(s, order, timestamp, nows);
    SweepFrame(s, order, timestamp, nows);
    forall id | id in t.members ensures t.members[id].version.owner != node {
      var i :| 0 <= i < |order| && order[i] == id;
      if s.members[id].version.owner == node {
        TakeoverAt(s, order, timestamp, nows, i);
      } else {
        var c := SweepAt(s, order, timestamp, nows, i);
      }
    }
  }

  /** Members of other nodes still in the cluster only ever lose an expired tombstone. */
  lemma OthersOnlyLoseTombstones(s: State, order: seq<string>, timestamp: int, nows: seq<int>, id: string)
    requires WellFormed(s) && IsSweepOrder(s, order) && |nows| == |order| && id in s.members
    requires !s.Owns(id) && s.members[id].version.owner !in s.leftNodes
    ensures Held(Sweep(s, order, timestamp, nows), id) ==
      if s.members[id].liveness == LEFT && timestamp > s.members[id].expiry then None else Some(s.members[id])
  {
    var i :| 0 <= i < |order| && order[i] == id;
    var c := SweepAt(s, order, timestamp, nows, i);
  }
}
