/** Digest and delta: one registry pulling from another what it is missing. */
module ReplicaRepair {
  import opened Rpc
  import opened Versions
  import opened RegistryState
  import opened Delivery

  function Min(a: int, b: int): int { if a < b then a else b }

  function Max(a: int, b: int): int { if a < b then b else a }

  /** digest is a possible answer of Digest(limit), whatever the map order and the shuffle. */
  ghost predicate IsDigest(s: State, limit: int, digest: map<string, Timestamp>) {
    && digest.Keys <= s.priority + s.members.Keys
    && |digest.Keys| == Min(Max(limit, 1), |s.priority + s.members.Keys|)
    && (digest.Keys <= s.priority || s.priority <= digest.Keys)
    && (forall id :: id in digest ==> digest[id] == StoredTimestamp(s, id))
  }

  /** us lists, in some order, a copy of each member that the digest is behind on. */
  ghost predicate IsDelta(s: State, digest: map<string, Timestamp>, us: seq<Member>) {
    && (forall i, j :: 0 <= i < j < |us| ==> us[i].state.id != us[j].state.id)
    && (forall u :: u in us ==> u.state.id in Sends(s, digest) && u == CopyMember(s.members[u.state.id]))
    && (forall id :: id in Sends(s, digest) ==> CopyMember(s.members[id]) in us)
  }

  /** us is the delta, and priority the ids asked for, but for the ids in left. */
  ghost predicate IsDeltaSoFar(s: State, digest: map<string, Timestamp>, left: set<string>, us: seq<Member>,
                               priority: set<string>) {
    && left <= digest.Keys
    && (forall i, j :: 0 <= i < j < |us| ==> us[i].state.id != us[j].state.id)
    && (forall u :: u in us ==>
          u.state.id !in left && u.state.id in Sends(s, digest) && u == CopyMember(s.members[u.state.id]))
    && (forall id :: id in Sends(s, digest) && id !in left ==> CopyMember(s.members[id]) in us)
    && priority == s.priority + (digest.Keys - left - Sends(s, digest))
  }

  lemma DeltaSends(s: State, digest: map<string, Timestamp>, left: set<string>, us: seq<Member>,
                   priority: set<string>, id: string)
    requires WellFormed(s) && IsDeltaSoFar(s, digest, left, us, priority) && id in left && id in Sends(s, digest)
    ensures IsDeltaSoFar(s, digest, left - {id}, us + [CopyMember(s.members[id])], priority)
  {
  }

  lemma DeltaAsksFor(s: State, digest: map<string, Timestamp>, left: set<string>, us: seq<Member>,
                     priority: set<string>, id: string)
    requires IsDeltaSoFar(s, digest, left, us, priority) && id in left && id !in Sends(s, digest)
    ensures IsDeltaSoFar(s, digest, left - {id}, us, priority + {id})
  {
  }

  lemma DeltaIsComplete(s: State, digest: map<string, Timestamp>, us: seq<Member>, priority: set<string>)
    requires IsDeltaSoFar(s, digest, {}, us, priority)
    ensures IsDelta(s, digest, us) && AfterDelta(s, digest) == s.(priority := priority)
  {
    assert digest.Keys - {} == digest.Keys;
  }

  /** What one run of Sync exchanged. */
  datatype Exchange = Exchange(digest: map<string, Timestamp>, delta: seq<Member>)

  /** x is a possible exchange when a pulls from b. */
  ghost predicate CanSync(a: State, b: State, limit: int, x: Exchange) {
    IsDigest(a, limit, x.digest) && IsDelta(b, x.digest, x.delta)
  }

  function Puller(a: State, x: Exchange): State {
    DeliverAll(AfterDigest(a, x.digest), x.delta)
  }

  function Server(b: State, x: Exchange): State {
    AfterDelta(b, x.digest)
  }

  // ----- One sync -----

  /** a would accept b's copy of id. */
  predicate WouldAccept(a: State, b: State, id: string) {
    && id in b.members
    && id != a.cfg.localId
    && b.members[id].version.owner != a.cfg.localId
    && Accepts(a, id, b.members[id].version)
  }

  /** Exactly the ids that were sent and are acceptable change, to the server's copy. */
  lemma PullOutcome(a: State, b: State, limit: int, x: Exchange, id: string)
    requires WellFormed(b) && CanSync(a, b, limit, x)
    ensures var t := Puller(a, x);
      if id in Sends(b, x.digest) && WouldAccept(a, b, id)
      then id in t.members && t.members[id] == CopyMember(b.members[id])
      else (id in t.members <==> id in a.members) && (id in a.members ==> t.members[id] == a.members[id])
  {
    var s, us := AfterDigest(a, x.digest), x.delta;
    DeliveryOutcome(s, us, id);
    if id in Sends(b, x.digest) {
      var c := CopyMember(b.members[id]);
      assert Admissible(s, c) ==> Candidate(s, us, id, c);
    }
  }

  /** id is a member on which a is behind b. */
  predicate Behind(a: State, b: State, id: string) {
    id in b.members && Accepts(a, id, b.members[id].version)
  }

  function BehindSet(a: State, b: State): set<string> {
    set id | id in b.members && Behind(a, b, id)
  }

  ghost predicate Positive(s: State) {
    forall id :: id in s.members ==> Before(Timestamp(0, 0), s.members[id].version.ts)
  }

  /** No copy of t is older than the copy of s it took the place of, and none is lost. */
  ghost predicate NothingOlder(s: State, t: State) {
    forall id :: id in s.members ==> id in t.members && AtLeast(t.members[id].version, s.members[id].version)
  }

  /** For every limit and every choice a sync can make, no stored version gets older. */
  lemma SyncNeverGoesBack(a: State, b: State, limit: int, x: Exchange)
    requires WellFormed(b) && CanSync(a, b, limit, x)
    ensures NothingOlder(a, Puller(a, x))
    ensures Server(b, x).members == b.members
    ensures Puller(a, x).priority == a.priority - x.digest.Keys
  {
    forall id | id in a.members
      ensures id in Puller(a, x).members && AtLeast(Puller(a, x).members[id].version, a.members[id].version)
    {
      PullOutcome(a, b, limit, x, id);
    }
    DeliveryFrame(AfterDigest(a, x.digest), x.delta);
  }

  lemma BehindAfter(a: State, b: State, limit: int, x: Exchange, id: string)
    requires WellFormed(b) && Positive(b) && CanSync(a, b, limit, x)
    ensures Behind(Puller(a, x), Server(b, x), id) <==>
      Behind(a, b, id) && !(id in x.digest && WouldAccept(a, b, id))
  {
    PullOutcome(a, b, limit, x, id);
    if id in x.digest && WouldAccept(a, b, id) {
      assert Before(x.digest[id], b.members[id].version.ts);
    }
  }

  /**
   * The members on which a is behind b never grow, and strictly shrink as soon as the digest
   * reaches one of them that a does not guard. No two owners need be kept apart for this.
   */
  lemma SyncMakesProgress(a: State, b: State, limit: int, x: Exchange)
    requires WellFormed(b) && Positive(b) && CanSync(a, b, limit, x)
    ensures BehindSet(Puller(a, x), Server(b, x)) ==
      BehindSet(a, b) - (set id | id in x.digest && WouldAccept(a, b, id))
    ensures (exists id :: id in x.digest && WouldAccept(a, b, id)) ==>
      |BehindSet(Puller(a, x), Server(b, x))| < |BehindSet(a, b)|
  {
    var before, after := BehindSet(a, b), BehindSet(Puller(a, x), Server(b, x));
    var won := set id | id in x.digest && WouldAccept(a, b, id);
    forall id ensures id in after <==> id in before && id !in won {
      BehindAfter(a, b, limit, x, id);
    }
    if id :| id in x.digest && WouldAccept(a, b, id) {
      assert id in won && id in before;
      StrictSubsetIsSmaller(after, before);
    }
  }

  /** a and b after a pulled from b once for each exchange. */
  function AfterSyncs(a: State, b: State, xs: seq<Exchange>): (State, State) {
    if xs == [] then (a, b)
    else
      var ((a', b'), x) := (AfterSyncs(a, b, xs[..|xs| - 1]), xs[|xs| - 1]);
      (Puller(a', x), Server(b', x))
  }

  ghost predicate CanSyncAll(a: State, b: State, limit: int, xs: seq<Exchange>) {
    xs == [] ||
    (var (init, x) := (xs[..|xs| - 1], xs[|xs| - 1]); var (a', b') := AfterSyncs(a, b, init);
     CanSyncAll(a, b, limit, init) && CanSync(a', b', limit, x))
  }

  /** The digest of x reaches a member that a would take over from b. */
  ghost predicate Useful(a: State, b: State, x: Exchange) {
    exists id :: id in x.digest && WouldAccept(a, b, id)
  }

  ghost function UsefulSyncs(a: State, b: State, xs: seq<Exchange>): nat {
    if xs == [] then 0
    else
      var (init, x) := (xs[..|xs| - 1], xs[|xs| - 1]); var (a', b') := AfterSyncs(a, b, init);
      UsefulSyncs(a, b, init) + if Useful(a', b', x) then 1 else 0
  }

  /**
   * Over any number of syncs, however small the limit, each one that reaches something uses
   * up a member that a was behind on: useful syncs and members still behind never exceed
   * the members behind at the start.
   */
  lemma {:induction false} SyncsUseUpWhatIsBehind(a: State, b: State, limit: int, xs: seq<Exchange>)
    requires WellFormed(b) && Positive(b) && CanSyncAll(a, b, limit, xs)
    ensures var (a', b') := AfterSyncs(a, b, xs);
      && b' == b.(priority := b'.priority) && NothingOlder(a, a')
      && BehindSet(a', b') <= BehindSet(a, b)
      && UsefulSyncs(a, b, xs) + |BehindSet(a', b')| <= |BehindSet(a, b)|
  {
    if xs != [] {
      var (init, x) := (xs[..|xs| - 1], xs[|xs| - 1]);
      SyncsUseUpWhatIsBehind(a, b, limit, init);
      var (a', b') := AfterSyncs(a, b, init);
      WellFormedDepends(b, b');
      SyncNeverGoesBack(a', b', limit, x);
      SyncMakesProgress(a', b', limit, x);
      SubsetIsNoLarger(BehindSet(Puller(a', x), Server(b', x)), BehindSet(a', b'));
      NothingOlderIsTransitive(a, a', Puller(a', x));
    }
  }

  lemma {:induction false} StrictSubsetIsSmaller<T>(a: set<T>, b: set<T>)
    requires a < b
    ensures |a| < |b|
  {
    var x :| x in b && x !in a;
    SubsetIsNoLarger(a, b - {x});
  }

  lemma {:induction false} SubsetIsNoLarger<T>(a: set<T>, b: set<T>)
    requires a <= b
    ensures |a| <= |b|
    ensures |a| == |b| ==> a == b
  {
    if x :| x in a {
      SubsetIsNoLarger(a - {x}, b - {x});
    }
  }

  // ----- Three rounds -----

  /** A limit that does not cut the digest short. */
  lemma LargeDigestCoversAll(s: State, limit: int, digest: map<string, Timestamp>)
    requires IsDigest(s, limit, digest) && limit >= |s.priority + s.members.Keys|
    ensures digest.Keys == s.priority + s.members.Keys
  {
    SubsetIsNoLarger(digest.Keys, s.priority + s.members.Keys);
  }

  /** A node's own copy is at least as new as any copy of it in its name at t. */
  ghost predicate Dominates(s: State, t: State) {
    forall id :: id in t.members && t.members[id].version.owner == s.cfg.localId ==>
      id in s.members && AtLeast(s.members[id].version, t.members[id].version)
  }

  /** Copies of the same version of the same member are the same. */
  ghost predicate AgreeOnPayload(s: State, t: State) {
    forall id :: id in s.members && id in t.members && s.members[id].version == t.members[id].version ==>
      Same(s.members[id], t.members[id])
  }

  /** a and b hold id under different owners at the same millisecond. */
  predicate TiedOn(a: State, b: State, id: string) {
    id in a.members && id in b.members && Tied(a.members[id].version, b.members[id].version)
  }

  /** What two registries bring to a repair; all but positive clocks follow from running the cluster. */
  ghost predicate Repairable(a: State, b: State) {
    && a.cfg.localId != b.cfg.localId
    && WellFormed(a) && WellFormed(b)
    && Positive(a) && Positive(b)
    && Dominates(a, b) && Dominates(b, a) && AgreeOnPayload(a, b)
  }

  /** Both hold the same version of id, or neither holds any. */
  predicate Alike(a: State, b: State, id: string) {
    && (id in a.members <==> id in b.members)
    && (id in a.members ==> Same(a.members[id], b.members[id]))
  }

  /** Three pulls in turn: a from b, b from a, a from b. */
  datatype ThreeRounds = ThreeRounds(x1: Exchange, x2: Exchange, x3: Exchange, l1: int, l2: int, l3: int)

  function A1(a: State, r: ThreeRounds): State { Puller(a, r.x1) }
  function B1(b: State, r: ThreeRounds): State { Server(b, r.x1) }
  function A2(a: State, r: ThreeRounds): State { Server(A1(a, r), r.x2) }
  function B2(b: State, r: ThreeRounds): State { Puller(B1(b, r), r.x2) }
  function A3(a: State, r: ThreeRounds): State { Puller(A2(a, r), r.x3) }
  function B3(b: State, r: ThreeRounds): State { Server(B2(b, r), r.x3) }

  ghost predicate Unlimited(s: State, limit: int) {
    limit >= |s.priority + s.members.Keys|
  }

  ghost predicate CanRun(a: State, b: State, r: ThreeRounds) {
    && CanSync(a, b, r.l1, r.x1) && Unlimited(a, r.l1)
    && CanSync(B1(b, r), A1(a, r), r.l2, r.x2) && Unlimited(B1(b, r), r.l2)
    && CanSync(A2(a, r), B2(b, r), r.l3, r.x3) && Unlimited(A2(a, r), r.l3)
  }

  /** Any registry has a digest and any digest an answer, so three uncut rounds are always possible. */
  lemma ThreeRoundsCanRun(a: State, b: State) returns (r: ThreeRounds)
    requires WellFormed(a) && WellFormed(b)
    ensures CanRun(a, b, r)
  {
    var x1, l1 := UncutSync(a, b);
    var a1, b1 := SyncKeepsWellFormed(a, b, x1);
    var x2, l2 := UncutSync(b1, a1);
    var b2, a2 := SyncKeepsWellFormed(b1, a1, x2);
    var x3, l3 := UncutSync(a2, b2);
    r := ThreeRounds(x1, x2, x3, l1, l2, l3);
    assert a1 == A1(a, r) && b1 == B1(b, r) && a2 == A2(a, r) && b2 == B2(b, r);
  }

  lemma SyncKeepsWellFormed(a: State, b: State, x: Exchange) returns (a': State, b': State)
    requires WellFormed(a) && WellFormed(b)
    ensures a' == Puller(a, x) && b' == Server(b, x) && WellFormed(a') && WellFormed(b')
  {
    a', b' := Puller(a, x), Server(b, x);
    DeliveryFrame(AfterDigest(a, x.digest), x.delta);
    WellFormedDepends(b, b');
  }

  lemma UncutSync(a: State, b: State) returns (x: Exchange, limit: int)
    requires WellFormed(b)
    ensures CanSync(a, b, limit, x) && Unlimited(a, limit)
  {
    var ids := a.priority + a.members.Keys;
    limit := |ids|;
    var digest := map id | id in ids :: StoredTimestamp(a, id);
    assert digest.Keys == ids;
    x := WouldAnswer(b, digest);
  }

  /** Some answer to any digest exists. */
  lemma WouldAnswer(b: State, digest: map<string, Timestamp>) returns (x: Exchange)
    requires WellFormed(b)
    ensures x.digest == digest && IsDelta(b, digest, x.delta)
  {
    var us, left := [], digest.Keys;
    var priority := b.priority + (digest.Keys - left - Sends(b, digest));
    while left != {}
      invariant IsDeltaSoFar(b, digest, left, us, priority)
      decreases left
    {
      var id :| id in left;
      if id in Sends(b, digest) {
        DeltaSends(b, digest, left, us, priority, id);
        us := us + [CopyMember(b.members[id])];
      } else {
        DeltaAsksFor(b, digest, left, us, priority, id);
        priority := priority + {id};
      }
      left := left - {id};
    }
    DeltaIsComplete(b, digest, us, priority);
    x := Exchange(digest, us);
  }

  // One id followed through the rounds: what is held, and what is asked for.

  function HeldTimestamp(m: Option<Member>): Timestamp {
    if m.Some? then m.value.version.ts else Timestamp(0, 0)
  }

  /** The server sends its copy of an id whose digest entry is that of the puller's copy. */
  predicate SendsCopy(mine: Option<Member>, theirs: Option<Member>) {
    theirs.Some? && Before(HeldTimestamp(mine), theirs.value.version.ts)
  }

  function Pulled(localId: string, mine: Option<Member>, theirs: Option<Member>, asked: bool): Option<Member> {
    if asked && SendsCopy(mine, theirs) && theirs.value.version.owner != localId &&
       (mine.Some? ==> Newer(theirs.value.version, mine.value.version))
    then Some(CopyMember(theirs.value)) else mine
  }

  /** A sync with an uncut digest, seen at one id. */
  lemma SyncAt(a: State, b: State, limit: int, x: Exchange, id: string)
    requires WellFormed(b) && CanSync(a, b, limit, x) && Unlimited(a, limit) && id != a.cfg.localId
    ensures Held(Puller(a, x), id) ==
      Pulled(a.cfg.localId, Held(a, id), Held(b, id), id in a.members || id in a.priority)
  {
    SyncSends(a, b, limit, x, id);
    PullOutcome(a, b, limit, x, id);
  }

  lemma SyncSends(a: State, b: State, limit: int, x: Exchange, id: string)
    requires CanSync(a, b, limit, x) && Unlimited(a, limit)
    ensures id in Sends(b, x.digest) <==>
      (id in a.members || id in a.priority) && SendsCopy(Held(a, id), Held(b, id))
  {
    LargeDigestCoversAll(a, limit, x.digest);
  }

  lemma SyncPriorityAt(a: State, b: State, limit: int, x: Exchange, id: string)
    requires CanSync(a, b, limit, x) && Unlimited(a, limit)
    ensures var asked := id in a.members || id in a.priority;
      && (id in Puller(a, x).priority <==> id in a.priority && !asked)
      && (id in Server(b, x).priority <==>
            id in b.priority || (asked && !SendsCopy(Held(a, id), Held(b, id))))
  {
    LargeDigestCoversAll(a, limit, x.digest);
    DeliveryFrame(AfterDigest(a, x.digest), x.delta);
  }

  predicate SameHeld(m: Option<Member>, n: Option<Member>) {
    (m.None? && n.None?) || (m.Some? && n.Some? && Same(m.value, n.value))
  }

  lemma RoundsKeepShape(a: State, b: State, r: ThreeRounds)
    requires WellFormed(a) && WellFormed(b)
    ensures WellFormed(A1(a, r)) && A1(a, r).cfg == a.cfg
    ensures B1(b, r).cfg == b.cfg && B1(b, r).members == b.members && B1(b, r).lastSeen == b.lastSeen
    ensures A2(a, r).cfg == a.cfg && A2(a, r).members == A1(a, r).members
    ensures WellFormed(B2(b, r)) && B2(b, r).cfg == b.cfg
  {
    DeliveryFrame(AfterDigest(a, r.x1.digest), r.x1.delta);
    DeliveryFrame(AfterDigest(B1(b, r), r.x2.digest), r.x2.delta);
  }

  /** The state of one id between rounds: held by a, held by b, asked for by a, asked for by b. */
  datatype IdState = IdState(a: Option<Member>, b: Option<Member>, pa: bool, pb: bool)

  function IdStateOf(a: State, b: State, id: string): IdState {
    IdState(Held(a, id), Held(b, id), id in a.priority, id in b.priority)
  }

  function PullByA(i: IdState, localId: string): IdState {
    var asked := i.a.Some? || i.pa;
    IdState(Pulled(localId, i.a, i.b, asked), i.b, i.pa && !asked, i.pb || (asked && !SendsCopy(i.a, i.b)))
  }

  function Swap(i: IdState): IdState {
    IdState(i.b, i.a, i.pb, i.pa)
  }

  lemma SyncMoves(a: State, b: State, limit: int, x: Exchange, id: string)
    requires WellFormed(b) && CanSync(a, b, limit, x) && Unlimited(a, limit) && id != a.cfg.localId
    ensures IdStateOf(Puller(a, x), Server(b, x), id) == PullByA(IdStateOf(a, b, id), a.cfg.localId)
  {
    SyncAt(a, b, limit, x, id);
    SyncPriorityAt(a, b, limit, x, id);
  }

  /** What Repairable says at one id of nodes a and b. */
  predicate RepairableId(i: IdState, a: string, b: string) {
    && (i.a.Some? ==> Before(Timestamp(0, 0), i.a.value.version.ts))
    && (i.b.Some? ==> Before(Timestamp(0, 0), i.b.value.version.ts))
    && (i.b.Some? && i.b.value.version.owner == a ==> i.a.Some? && AtLeast(i.a.value.version, i.b.value.version))
    && (i.a.Some? && i.a.value.version.owner == b ==> i.b.Some? && AtLeast(i.b.value.version, i.a.value.version))
    && (i.a.Some? && i.b.Some? && i.a.value.version == i.b.value.version ==> Same(i.a.value, i.b.value))
  }

  predicate TiedHeld(m: Option<Member>, n: Option<Member>) {
    m.Some? && n.Some? && Tied(m.value.version, n.value.version)
  }

  function ThreePulls(i: IdState, a: string, b: string): IdState {
    PullByA(Swap(PullByA(Swap(PullByA(i, a)), b)), a)
  }

  lemma PullsAgree(i: IdState, a: string, b: string)
    requires RepairableId(i, a, b)
    ensures SameHeld(ThreePulls(i, a, b).a, ThreePulls(i, a, b).b) <==> !TiedHeld(i.a, i.b)
  {
  }

  lemma RepairableIsAtEachId(a: State, b: State, id: string)
    requires Repairable(a, b)
    ensures RepairableId(IdStateOf(a, b, id), a.cfg.localId, b.cfg.localId)
    ensures TiedHeld(Held(a, id), Held(b, id)) <==> TiedOn(a, b, id)
  {
  }

  lemma ThreeRoundsAt(a: State, b: State, r: ThreeRounds, id: string)
    requires Repairable(a, b) && CanRun(a, b, r)
    requires id != a.cfg.localId && id != b.cfg.localId
    ensures SameHeld(Held(A3(a, r), id), Held(B3(b, r), id)) <==> !TiedOn(a, b, id)
  {
    RoundsKeepShape(a, b, r);
    SyncMoves(a, b, r.l1, r.x1, id);
    SyncMoves(B1(b, r), A1(a, r), r.l2, r.x2, id);
    SyncMoves(A2(a, r), B2(b, r), r.l3, r.x3, id);
    RepairableIsAtEachId(a, b, id);
    PullsAgree(IdStateOf(a, b, id), a.cfg.localId, b.cfg.localId);
  }

  lemma NothingOlderIsTransitive(s: State, t: State, u: State)
    requires NothingOlder(s, t) && NothingOlder(t, u)
    ensures NothingOlder(s, u)
  {
  }

  lemma SameMembersNothingOlder(s: State, t: State, u: State)
    requires s.members == t.members && NothingOlder(t, u)
    ensures NothingOlder(s, u)
  {
  }

  lemma ThreeRoundsNeverGoBack(a: State, b: State, r: ThreeRounds)
    requires WellFormed(a) && WellFormed(b) && CanRun(a, b, r)
    ensures NothingOlder(a, A3(a, r)) && NothingOlder(b, B3(b, r))
  {
    RoundsKeepShape(a, b, r);
    var a1, b1, a2, b2, a3, b3 := A1(a, r), B1(b, r), A2(a, r), B2(b, r), A3(a, r), B3(b, r);
    assert NothingOlder(a, a1) by { SyncNeverGoesBack(a, b, r.l1, r.x1); }
    assert NothingOlder(b1, b2) by { SyncNeverGoesBack(b1, a1, r.l2, r.x2); }
    assert NothingOlder(a2, a3) by { SyncNeverGoesBack(a2, b2, r.l3, r.x3); }
    SameMembersNothingOlder(a1, a2, a3);
    NothingOlderIsTransitive(a, a1, a3);
    SameMembersNothingOlder(b, b1, b2);
    assert b3.members == b2.members;
  }

  /**
   * Three pulls, whatever order maps are walked and ids shuffled in, bring two registries to
   * the same version of a member exactly when they did not start in a tie on it, and leave
   * none older than before. The two nodes' own members are not theirs to exchange.
   */
  lemma ThreeRoundsConverge(a: State, b: State, r: ThreeRounds)
    requires Repairable(a, b) && CanRun(a, b, r)
    ensures forall id :: id != a.cfg.localId && id != b.cfg.localId ==>
      (Alike(A3(a, r), B3(b, r), id) <==> !TiedOn(a, b, id))
    ensures NothingOlder(a, A3(a, r)) && NothingOlder(b, B3(b, r))
  {
    forall id | id != a.cfg.localId && id != b.cfg.localId
      ensures Alike(A3(a, r), B3(b, r), id) <==> !TiedOn(a, b, id)
    {
      ThreeRoundsAt(a, b, r, id);
      HeldIsAlike(A3(a, r), B3(b, r), id);
    }
    ThreeRoundsNeverGoBack(a, b, r);
  }

  lemma HeldIsAlike(s: State, t: State, id: string)
    ensures SameHeld(Held(s, id), Held(t, id)) <==> Alike(s, t, id)
  {
  }

  /** Two pulls are never enough for a member a has not heard of: it cannot ask before b has shown it the id. */
  lemma TwoRoundsAreNotEnough(a: State, b: State, r: ThreeRounds, id: string)
    requires Repairable(a, b) && CanRun(a, b, r)
    requires id != a.cfg.localId && id != b.cfg.localId
    requires id !in a.members && id !in a.priority && id in b.members
    ensures !Alike(A2(a, r), B2(b, r), id)
  {
    RoundsKeepShape(a, b, r);
    SyncMoves(a, b, r.l1, r.x1, id);
    SyncMoves(B1(b, r), A1(a, r), r.l2, r.x2, id);
    HeldIsAlike(A2(a, r), B2(b, r), id);
  }

  // ----- Priority members -----

  /** An id found to be out of date stays queued until a digest asks for it. */
  lemma {:induction false} PriorityIsNeverForgotten(s: State, es: seq<Event>, id: string)
    requires id in s.priority
    requires forall e :: e in es && e.TookDigest? ==> id !in e.digest
    ensures id in Run(s, es).priority
  {
    if es != [] {
      PriorityIsNeverForgotten(s, es[..|es| - 1], id);
      PriorityOfEvent(Run(s, es[..|es| - 1]), es[|es| - 1]);
    }
  }

  /** Only digests take ids out of the queue, and only deltas put ids in. */
  lemma PriorityOfEvent(s: State, e: Event)
    ensures Apply(s, e).priority ==
      match e
      case TookDigest(digest) => s.priority - digest.Keys
      case ServedDelta(digest) => s.priority + (digest.Keys - Sends(s, digest))
      case _ => s.priority
  {
  }

  /** Priority ids are taken before all others, at least one per digest. */
  lemma DigestDrainsPriority(s: State, limit: int, digest: map<string, Timestamp>)
    requires IsDigest(s, limit, digest)
    ensures |AfterDigest(s, digest).priority| == Max(0, |s.priority| - Max(limit, 1))
  {
    var all, keys, left := s.priority + s.members.Keys, digest.Keys, s.priority - digest.Keys;
    SplitSize(s.priority, keys);
    if s.priority <= keys {
      SubsetIsNoLarger(s.priority, keys);
      assert left == {};
    } else if |keys| == |all| {
      SubsetIsNoLarger(keys, all);
    }
  }

  lemma SplitSize<T>(a: set<T>, b: set<T>)
    requires b <= a || a <= b
    ensures b <= a ==> |a - b| == |a| - |b|
  {
    if b <= a {
      assert a == (a - b) + b;
    }
  }
}
