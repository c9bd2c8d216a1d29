/** Repair with digests that are full of priority ids: two nodes that pull in turn and learn nothing. */
module BoundedRepair {
  import opened Rpc
  import opened RegistryState
  import opened ReplicaRepair

  /** a's priority ids fill its digest, b has none, and on those ids neither is ahead of the other. */
  ghost predicate Stuck(a: State, b: State, limit: int) {
    && |a.priority| == Max(limit, 1) && b.priority == {}
    && (forall id :: id in a.priority ==> StoredTimestamp(a, id) == StoredTimestamp(b, id))
  }

  lemma NothingFromNone<T>(xs: seq<T>, s: set<T>)
    requires forall x :: x in xs ==> x in s
    ensures s == {} ==> xs == []
  {
    if xs != [] {
      assert xs[0] in s;
    }
  }

  lemma NothingToSend(b: State, digest: map<string, Timestamp>, delta: seq<Member>)
    requires IsDelta(b, digest, delta)
    ensures Sends(b, digest) == {} ==> delta == []
  {
    var sent := set id | id in Sends(b, digest) :: CopyMember(b.members[id]);
    NothingFromNone(delta, sent);
  }

  /** When the server has nothing newer, a sync moves the digest's ids to its priority ids, and that is all. */
  lemma EmptySync(a: State, b: State, limit: int, x: Exchange)
    requires CanSync(a, b, limit, x)
    requires forall id :: id in x.digest ==> StoredTimestamp(a, id) == StoredTimestamp(b, id)
    ensures x.delta == []
    ensures Puller(a, x) == a.(priority := a.priority - x.digest.Keys)
    ensures Server(b, x) == b.(priority := b.priority + x.digest.Keys)
  {
    NothingToSend(b, x.digest, x.delta);
    assert Sends(b, x.digest) == {};
  }

  lemma StuckDigest(a: State, b: State, limit: int, digest: map<string, Timestamp>)
    requires Stuck(a, b, limit) && IsDigest(a, limit, digest)
    ensures digest.Keys == a.priority
  {
    SubsetIsNoLarger(a.priority, a.priority + a.members.Keys);
    if digest.Keys <= a.priority {
      SubsetIsNoLarger(digest.Keys, a.priority);
    } else {
      SubsetIsNoLarger(a.priority, digest.Keys);
    }
  }

  /** A pull does nothing but hand the priority ids over, and the server is then as stuck. */
  lemma StuckPull(a: State, b: State, limit: int, x: Exchange)
    requires Stuck(a, b, limit) && CanSync(a, b, limit, x)
    ensures x.digest.Keys == a.priority && x.delta == []
    ensures Puller(a, x) == a.(priority := {}) && Server(b, x) == b.(priority := a.priority)
    ensures Stuck(Server(b, x), Puller(a, x), limit)
  {
    StuckDigest(a, b, limit, x.digest);
    EmptySync(a, b, limit, x);
  }

  /** Such a pull is always possible. */
  lemma StuckCanPull(a: State, b: State, limit: int) returns (x: Exchange)
    requires Stuck(a, b, limit)
    ensures CanSync(a, b, limit, x)
  {
    var digest := map id | id in a.priority :: StoredTimestamp(a, id);
    assert digest.Keys == a.priority;
    SubsetIsNoLarger(a.priority, a.priority + a.members.Keys);
    assert Sends(b, digest) == {};
    x := Exchange(digest, []);
  }

  /** Two nodes, and which of them pulls next. */
  datatype Turn = Turn(puller: State, server: State)

  /** Where the nodes are after they have pulled in turn. */
  function AfterTurns(t: Turn, xs: seq<Exchange>): Turn {
    if xs == [] then t
    else
      var (s, x) := (AfterTurns(t, xs[..|xs| - 1]), xs[|xs| - 1]);
      Turn(Server(s.server, x), Puller(s.puller, x))
  }

  ghost predicate CanTakeTurns(t: Turn, limit: int, xs: seq<Exchange>) {
    xs == [] ||
    (var (init, x) := (xs[..|xs| - 1], xs[|xs| - 1]); var s := AfterTurns(t, init);
     CanTakeTurns(t, limit, init) && CanSync(s.puller, s.server, limit, x))
  }

  /** t after n pulls that hand the priority ids over. */
  function HandedOver(t: Turn, n: nat): Turn {
    if n % 2 == 0 then t
    else Turn(t.server.(priority := t.puller.priority), t.puller.(priority := {}))
  }

  lemma HandOver(t: Turn, limit: int, n: nat, x: Exchange)
    requires Stuck(t.puller, t.server, limit)
    requires var s := HandedOver(t, n); CanSync(s.puller, s.server, limit, x)
    ensures var s := HandedOver(t, n);
      && Stuck(s.puller, s.server, limit)
      && Turn(Server(s.server, x), Puller(s.puller, x)) == HandedOver(t, n + 1)
  {
    var s := HandedOver(t, n);
    StuckPull(s.puller, s.server, limit, x);
  }

  /**
   * However often the nodes go on pulling in turn, with whatever choices, they hold what they
   * held, and one or the other has all the priority ids.
   */
  lemma {:induction false} TurnsHandPriorityOn(t: Turn, limit: int, xs: seq<Exchange>)
    requires Stuck(t.puller, t.server, limit) && CanTakeTurns(t, limit, xs)
    ensures AfterTurns(t, xs) == HandedOver(t, |xs|)
  {
    if xs != [] {
      TurnsHandPriorityOn(t, limit, xs[..|xs| - 1]);
      HandOver(t, limit, |xs| - 1, xs[|xs| - 1]);
    }
  }

  function Swapped(t: Turn): Turn {
    Turn(t.server, t.puller)
  }

  ghost predicate SameMembersAs(t: Turn, s: Turn) {
    t.puller.members == s.puller.members && t.server.members == s.server.members
  }

  lemma BehindDependsOnMembers(t: Turn, s: Turn)
    requires SameMembersAs(t, s)
    ensures BehindSet(t.puller, t.server) == BehindSet(s.puller, s.server)
  {
  }

  /** So after any number of turns each holds what it held, and is behind on what it was behind on. */
  lemma TurnsCanStarve(t: Turn, limit: int, xs: seq<Exchange>)
    requires Stuck(t.puller, t.server, limit) && CanTakeTurns(t, limit, xs)
    ensures var (r, s) := (if |xs| % 2 == 0 then t else Swapped(t), AfterTurns(t, xs));
      && SameMembersAs(s, r)
      && BehindSet(s.puller, s.server) == BehindSet(r.puller, r.server)
      && BehindSet(s.server, s.puller) == BehindSet(r.server, r.puller)
  {
    TurnsHandPriorityOn(t, limit, xs);
    var (r, s) := (if |xs| % 2 == 0 then t else Swapped(t), AfterTurns(t, xs));
    BehindDependsOnMembers(s, r);
    BehindDependsOnMembers(Swapped(s), Swapped(r));
  }

  lemma OneMoreTurn(t: Turn, limit: int, xs: seq<Exchange>, x: Exchange)
    requires CanTakeTurns(t, limit, xs)
    requires var s := AfterTurns(t, xs); CanSync(s.puller, s.server, limit, x)
    ensures CanTakeTurns(t, limit, xs + [x])
  {
    assert (xs + [x])[..|xs + [x]| - 1] == xs;
  }

  lemma StuckAfterTurns(t: Turn, limit: int, xs: seq<Exchange>)
    requires Stuck(t.puller, t.server, limit) && CanTakeTurns(t, limit, xs)
    ensures Stuck(AfterTurns(t, xs).puller, AfterTurns(t, xs).server, limit)
  {
    TurnsHandPriorityOn(t, limit, xs);
  }

  /** Any number of turns is possible. */
  lemma {:induction false} TurnsCanGoOn(t: Turn, limit: int, k: nat) returns (xs: seq<Exchange>)
    requires Stuck(t.puller, t.server, limit)
    ensures |xs| == k && CanTakeTurns(t, limit, xs)
  {
    xs := [];
    if k > 0 {
      var before := TurnsCanGoOn(t, limit, k - 1);
      StuckAfterTurns(t, limit, before);
      var s := AfterTurns(t, before);
      var x := StuckCanPull(s.puller, s.server, limit);
      xs := before + [x];
      OneMoreTurn(t, limit, before, x);
    }
  }

  /**
   * Nodes get stuck by themselves. If a holds just enough members to fill its digest, all of
   * them up to date, and neither node has priority ids, then a pull leaves b stuck.
   */
  lemma FullDigestSticks(a: State, b: State, limit: int, x: Exchange)
    requires CanSync(a, b, limit, x)
    requires a.priority == {} && b.priority == {} && |a.members| == Max(limit, 1)
    requires forall id :: id in a.members ==> StoredTimestamp(a, id) == StoredTimestamp(b, id)
    ensures Stuck(Server(b, x), Puller(a, x), limit)
    ensures Puller(a, x).members == a.members && Server(b, x).members == b.members
  {
    assert a.priority + a.members.Keys == a.members.Keys;
    SubsetIsNoLarger(x.digest.Keys, a.members.Keys);
    EmptySync(a, b, limit, x);
  }
}
