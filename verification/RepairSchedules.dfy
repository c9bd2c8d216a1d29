/** One id, held or asked for at any number of nodes, under any schedule of uncut pulls. */
module RepairSchedules {
  import opened Rpc
  import opened Versions
  import opened ReplicaRepair

  /** What a node has of the id: the copy it holds, and whether the id is queued as a priority. */
  datatype Entry = Entry(held: Option<Member>, asks: bool)

  type Entries = map<string, Entry>

  datatype Pull = Pull(caller: string, server: string)

  predicate CanPull(ns: Entries, p: Pull) {
    p.caller in ns && p.server in ns && p.caller != p.server
  }

  function AfterPull(ns: Entries, p: Pull): Entries
    requires CanPull(ns, p)
  {
    var (a, b) := (ns[p.caller], ns[p.server]);
    var i := PullByA(IdState(a.held, b.held, a.asks, b.asks), p.caller);
    ns[p.caller := Entry(i.a, i.pa)][p.server := Entry(i.b, i.pb)]
  }

  /** A pull that cannot be made changes nothing. */
  function AfterPulls(ns: Entries, ps: seq<Pull>): Entries {
    if ps == [] then ns
    else
      var (ns', p) := (AfterPulls(ns, ps[..|ps| - 1]), ps[|ps| - 1]);
      if CanPull(ns', p) then AfterPull(ns', p) else ns'
  }

  lemma {:induction false} PullsConcat(ns: Entries, ps: seq<Pull>, qs: seq<Pull>)
    ensures AfterPulls(ns, ps + qs) == AfterPulls(AfterPulls(ns, ps), qs)
  {
    if qs == [] {
      assert ps + qs == ps;
    } else {
      PullsConcat(ns, ps, qs[..|qs| - 1]);
      assert (ps + qs)[..|ps + qs| - 1] == ps + qs[..|qs| - 1];
    }
  }

  lemma NextPull(ns: Entries, ps: seq<Pull>, k: nat)
    requires k < |ps| && CanPull(AfterPulls(ns, ps[..k]), ps[k])
    ensures AfterPulls(ns, ps[..k + 1]) == AfterPull(AfterPulls(ns, ps[..k]), ps[k])
  {
    assert ps[..k + 1][..k] == ps[..k];
  }

  lemma {:induction false} PullsKeepNodes(ns: Entries, ps: seq<Pull>)
    ensures AfterPulls(ns, ps).Keys == ns.Keys
  {
    if ps != [] {
      PullsKeepNodes(ns, ps[..|ps| - 1]);
    }
  }

  // ----- Invariants -----

  predicate Holds(ns: Entries, n: string) {
    n in ns && ns[n].held.Some?
  }

  function VersionAt(ns: Entries, n: string): Version
    requires Holds(ns, n)
  {
    ns[n].held.value.version
  }

  ghost predicate ClocksArePositive(ns: Entries) {
    forall n :: Holds(ns, n) ==> Before(Timestamp(0, 0), VersionAt(ns, n).ts)
  }

  /** Owners hold the newest copy in their name. */
  ghost predicate OwnersAreAhead(ns: Entries) {
    forall m, n :: Holds(ns, m) && n in ns && VersionAt(ns, m).owner == n ==>
      Holds(ns, n) && AtLeast(VersionAt(ns, n), VersionAt(ns, m))
  }

  ghost predicate VersionsStandForPayloads(ns: Entries) {
    forall m, n :: Holds(ns, m) && Holds(ns, n) && VersionAt(ns, m) == VersionAt(ns, n) ==>
      Same(ns[m].held.value, ns[n].held.value)
  }

  ghost predicate Sound(ns: Entries) {
    ClocksArePositive(ns) && OwnersAreAhead(ns) && VersionsStandForPayloads(ns)
  }

  /** A pull leaves each node its copy, up to the expiry, or gives the caller the server's, if newer. */
  lemma PullAt(ns: Entries, p: Pull, n: string)
    requires CanPull(ns, p) && n in ns
    ensures var ns' := AfterPull(ns, p);
      || ns'[n].held == ns[n].held
      || (&& n == p.caller && Holds(ns, p.server) && ns'[n].held == Some(CopyMember(ns[p.server].held.value))
          && (Holds(ns, n) ==> Newer(VersionAt(ns', n), VersionAt(ns, n))))
  {
  }

  /** Where the copy at n came from, and that it is no older than the one before. */
  lemma PullSource(ns: Entries, p: Pull, n: string) returns (m: string)
    requires CanPull(ns, p) && Holds(AfterPull(ns, p), n)
    ensures Holds(ns, m) && Same(AfterPull(ns, p)[n].held.value, ns[m].held.value)
    ensures Holds(ns, n) ==> AtLeast(VersionAt(AfterPull(ns, p), n), VersionAt(ns, n))
  {
    PullAt(ns, p, n);
    m := if AfterPull(ns, p)[n].held == ns[n].held then n else p.server;
  }

  lemma PullKeepsHolding(ns: Entries, p: Pull, n: string)
    requires CanPull(ns, p) && Holds(ns, n)
    ensures Holds(AfterPull(ns, p), n)
  {
    PullAt(ns, p, n);
  }

  lemma {:induction false} PullsKeepHolding(ns: Entries, ps: seq<Pull>, n: string)
    requires Holds(ns, n)
    ensures Holds(AfterPulls(ns, ps), n)
  {
    if ps != [] {
      var (ns', p) := (AfterPulls(ns, ps[..|ps| - 1]), ps[|ps| - 1]);
      PullsKeepHolding(ns, ps[..|ps| - 1], n);
      if CanPull(ns', p) {
        PullKeepsHolding(ns', p, n);
      }
    }
  }

  lemma PullKeepsOwnerAhead(ns: Entries, p: Pull, m: string, n: string)
    requires CanPull(ns, p) && OwnersAreAhead(ns)
    requires Holds(AfterPull(ns, p), m) && n in ns && VersionAt(AfterPull(ns, p), m).owner == n
    ensures Holds(AfterPull(ns, p), n) && AtLeast(VersionAt(AfterPull(ns, p), n), VersionAt(AfterPull(ns, p), m))
  {
    var s := PullSource(ns, p, m);
    PullKeepsHolding(ns, p, n);
    var r := PullSource(ns, p, n);
    NewerIsStrictOrder(VersionAt(AfterPull(ns, p), n), VersionAt(ns, n), VersionAt(ns, s));
  }

  lemma PullKeepsPayloads(ns: Entries, p: Pull)
    requires CanPull(ns, p) && VersionsStandForPayloads(ns)
    ensures VersionsStandForPayloads(AfterPull(ns, p))
  {
    var ns' := AfterPull(ns, p);
    forall m, n | Holds(ns', m) && Holds(ns', n) && VersionAt(ns', m) == VersionAt(ns', n)
      ensures Same(ns'[m].held.value, ns'[n].held.value)
    {
      var s := PullSource(ns, p, m);
      var r := PullSource(ns, p, n);
    }
  }

  lemma PullKeepsClocks(ns: Entries, p: Pull)
    requires CanPull(ns, p) && ClocksArePositive(ns)
    ensures ClocksArePositive(AfterPull(ns, p))
  {
    forall n | Holds(AfterPull(ns, p), n) ensures Before(Timestamp(0, 0), VersionAt(AfterPull(ns, p), n).ts) {
      var s := PullSource(ns, p, n);
    }
  }

  lemma PullKeepsSound(ns: Entries, p: Pull)
    requires CanPull(ns, p) && Sound(ns)
    ensures Sound(AfterPull(ns, p))
  {
    var ns' := AfterPull(ns, p);
    PullKeepsClocks(ns, p);
    forall m, n | Holds(ns', m) && n in ns' && VersionAt(ns', m).owner == n
      ensures Holds(ns', n) && AtLeast(VersionAt(ns', n), VersionAt(ns', m))
    {
      PullKeepsOwnerAhead(ns, p, m, n);
    }
    PullKeepsPayloads(ns, p);
  }

  lemma {:induction false} PullsKeepSound(ns: Entries, ps: seq<Pull>)
    requires Sound(ns)
    ensures Sound(AfterPulls(ns, ps))
  {
    if ps != [] {
      PullsKeepSound(ns, ps[..|ps| - 1]);
      if CanPull(AfterPulls(ns, ps[..|ps| - 1]), ps[|ps| - 1]) {
        PullKeepsSound(AfterPulls(ns, ps[..|ps| - 1]), ps[|ps| - 1]);
      }
    }
  }

  // ----- The latest version -----

  /** v is at least every version held. */
  ghost predicate LedBy(ns: Entries, v: Version) {
    forall n :: Holds(ns, n) ==> AtLeast(v, VersionAt(ns, n))
  }

  predicate HoldsVersion(ns: Entries, n: string, v: Version) {
    Holds(ns, n) && VersionAt(ns, n) == v
  }

  lemma PullKeepsLeader(ns: Entries, p: Pull, v: Version)
    requires CanPull(ns, p) && LedBy(ns, v)
    ensures LedBy(AfterPull(ns, p), v)
    ensures forall n :: HoldsVersion(ns, n, v) ==> HoldsVersion(AfterPull(ns, p), n, v)
  {
    var ns' := AfterPull(ns, p);
    forall n | Holds(ns', n) ensures AtLeast(v, VersionAt(ns', n)) {
      var s := PullSource(ns, p, n);
    }
    forall n | HoldsVersion(ns, n, v) ensures HoldsVersion(ns', n, v) {
      PullKeepsHolding(ns, p, n);
      var s := PullSource(ns, p, n);
      NewerIsStrictOrder(v, VersionAt(ns', n), v);
    }
  }

  lemma {:induction false} PullsKeepLeader(ns: Entries, ps: seq<Pull>, v: Version)
    requires Sound(ns) && LedBy(ns, v)
    ensures var ns' := AfterPulls(ns, ps);
      && Sound(ns') && LedBy(ns', v)
      && (forall n :: HoldsVersion(ns, n, v) ==> HoldsVersion(ns', n, v))
      && (forall n :: Holds(ns, n) ==> Holds(ns', n))
  {
    if ps != [] {
      var (ns', p) := (AfterPulls(ns, ps[..|ps| - 1]), ps[|ps| - 1]);
      PullsKeepLeader(ns, ps[..|ps| - 1], v);
      if CanPull(ns', p) {
        PullKeepsSound(ns', p);
        PullKeepsLeader(ns', p, v);
        forall n | Holds(ns', n) ensures Holds(AfterPull(ns', p), n) {
          PullKeepsHolding(ns', p, n);
        }
      }
    }
  }

  /** m and n hold the id under different owners at its latest millisecond. */
  ghost predicate ContestedBy(ns: Entries, m: string, n: string) {
    && Holds(ns, m) && Holds(ns, n) && Tied(VersionAt(ns, m), VersionAt(ns, n))
    && (forall k :: Holds(ns, k) ==> VersionAt(ns, k).ts.ms <= VersionAt(ns, m).ts.ms)
  }

  ghost predicate Uncontested(ns: Entries) {
    forall m, n :: !ContestedBy(ns, m, n)
  }

  /** One of the nodes given holds the lexicographically latest timestamp. */
  lemma {:induction false} LatestTimestamp(ns: Entries, among: set<string>) returns (t: string)
    requires among != {} && forall n :: n in among ==> Holds(ns, n)
    ensures t in among && forall n :: n in among ==> NotAfter(VersionAt(ns, n).ts, VersionAt(ns, t).ts)
    decreases among
  {
    t :| t in among;
    if among != {t} {
      var r := LatestTimestamp(ns, among - {t});
      if Before(VersionAt(ns, t).ts, VersionAt(ns, r).ts) {
        t := r;
      }
    }
  }

  /** Without a tie at the top some node holds a version that is at least all others. */
  lemma LeaderExists(ns: Entries, n: string) returns (t: string)
    requires Holds(ns, n) && Uncontested(ns)
    ensures Holds(ns, t) && LedBy(ns, VersionAt(ns, t))
  {
    var holders := set m | m in ns && Holds(ns, m);
    assert n in holders;
    t := LatestTimestamp(ns, holders);
    forall m | Holds(ns, m) ensures AtLeast(VersionAt(ns, t), VersionAt(ns, m)) {
      assert m in holders;
      assert Tied(VersionAt(ns, t), VersionAt(ns, m)) ==> ContestedBy(ns, t, m);
    }
  }

  ghost predicate AllAgree(ns: Entries) {
    forall m, n :: m in ns && n in ns ==> SameHeld(ns[m].held, ns[n].held)
  }

  lemma LeaderEverywhereAgrees(ns: Entries, v: Version)
    requires Sound(ns) && forall n :: n in ns ==> HoldsVersion(ns, n, v)
    ensures AllAgree(ns)
  {
  }

  /** No pull changes the owners of a tie at the top, or goes past its millisecond. */
  lemma {:induction false} TieIsForever(ns: Entries, ps: seq<Pull>, m: string, n: string)
    requires ContestedBy(ns, m, n)
    ensures var ns' := AfterPulls(ns, ps);
      && ContestedBy(ns', m, n)
      && VersionAt(ns', m).owner == VersionAt(ns, m).owner && VersionAt(ns', n).owner == VersionAt(ns, n).owner
  {
    if ps != [] {
      var (ns', p) := (AfterPulls(ns, ps[..|ps| - 1]), ps[|ps| - 1]);
      TieIsForever(ns, ps[..|ps| - 1], m, n);
      if CanPull(ns', p) {
        PullKeepsTie(ns', p, m, n);
      }
    }
  }

  lemma PullKeepsTie(ns: Entries, p: Pull, m: string, n: string)
    requires CanPull(ns, p) && ContestedBy(ns, m, n)
    ensures var ns' := AfterPull(ns, p);
      && ContestedBy(ns', m, n)
      && VersionAt(ns', m).owner == VersionAt(ns, m).owner && VersionAt(ns', n).owner == VersionAt(ns, n).owner
  {
    PullKeepsHolding(ns, p, m);
    PullKeepsHolding(ns, p, n);
    forall k | Holds(AfterPull(ns, p), k)
      ensures VersionAt(AfterPull(ns, p), k).ts.ms <= VersionAt(ns, m).ts.ms
    {
      var s := PullSource(ns, p, k);
    }
    var s := PullSource(ns, p, m);
    var r := PullSource(ns, p, n);
  }

  lemma TieIsDisagreement(ns: Entries, m: string, n: string)
    requires ContestedBy(ns, m, n)
    ensures !AllAgree(ns)
  {
    assert !SameHeld(ns[m].held, ns[n].held);
  }

  lemma {:induction false} NothingComesFromNothing(ns: Entries, ps: seq<Pull>)
    requires forall n :: !Holds(ns, n)
    ensures forall n :: !Holds(AfterPulls(ns, ps), n)
  {
    if ps != [] {
      var (ns', p) := (AfterPulls(ns, ps[..|ps| - 1]), ps[|ps| - 1]);
      NothingComesFromNothing(ns, ps[..|ps| - 1]);
      if CanPull(ns', p) {
        forall n | Holds(AfterPull(ns', p), n) ensures false {
          var s := PullSource(ns', p, n);
        }
      }
    }
  }

  // ----- Pulls in turn -----

  /** A pull from a node with the latest version brings it exactly if the caller has, or asks for, the id. */
  lemma PullFromLeader(ns: Entries, p: Pull, v: Version)
    requires CanPull(ns, p) && Sound(ns) && LedBy(ns, v) && HoldsVersion(ns, p.server, v)
    ensures HoldsVersion(AfterPull(ns, p), p.caller, v) <==> Holds(ns, p.caller) || ns[p.caller].asks
  {
    if Holds(ns, p.caller) {
      NewerIsStrictOrder(v, VersionAt(ns, p.caller), v);
    }
  }

  /** Each pair in turn: three pulls, back and forth, with no other in between. */
  function InTurns(pairs: seq<(string, string)>): seq<Pull> {
    if pairs == [] then []
    else
      var (a, b) := pairs[|pairs| - 1];
      InTurns(pairs[..|pairs| - 1]) + [Pull(a, b), Pull(b, a), Pull(a, b)]
  }

  ghost predicate PairsUp(ns: Entries, pairs: seq<(string, string)>) {
    && (forall x :: x in pairs ==> x.0 in ns && x.1 in ns && x.0 != x.1)
    && (forall a, b :: a in ns && b in ns && a != b ==> (a, b) in pairs || (b, a) in pairs)
  }

  function PullThrice(ns: Entries, a: string, b: string): Entries
    requires a in ns && b in ns && a != b
  {
    AfterPull(AfterPull(AfterPull(ns, Pull(a, b)), Pull(b, a)), Pull(a, b))
  }

  lemma ThreePullsRun(ns: Entries, a: string, b: string)
    requires a in ns && b in ns && a != b
    ensures AfterPulls(ns, [Pull(a, b), Pull(b, a), Pull(a, b)]) == PullThrice(ns, a, b)
  {
    var ps := [Pull(a, b), Pull(b, a), Pull(a, b)];
    NextPull(ns, ps, 0);
    NextPull(ns, ps, 1);
    NextPull(ns, ps, 2);
    assert ps[..3] == ps;
  }

  lemma ThreePullsAt(ns: Entries, a: string, b: string)
    requires a in ns && b in ns && a != b
    ensures var i := ThreePulls(IdState(ns[a].held, ns[b].held, ns[a].asks, ns[b].asks), a, b);
      var ns' := AfterPulls(ns, [Pull(a, b), Pull(b, a), Pull(a, b)]);
      ns'.Keys == ns.Keys && ns'[a].held == i.a && ns'[b].held == i.b
  {
    ThreePullsRun(ns, a, b);
  }

  /** After three pulls in turn, two nodes one of which held the latest version both hold it. */
  lemma ThreePullsSpreadLatest(ns: Entries, a: string, b: string, v: Version)
    requires Sound(ns) && LedBy(ns, v) && a in ns && b in ns && a != b
    requires HoldsVersion(ns, a, v) || HoldsVersion(ns, b, v)
    ensures var ns' := AfterPulls(ns, [Pull(a, b), Pull(b, a), Pull(a, b)]);
      HoldsVersion(ns', a, v) && HoldsVersion(ns', b, v)
  {
    var i := IdState(ns[a].held, ns[b].held, ns[a].asks, ns[b].asks);
    ThreePullsAt(ns, a, b);
    assert Holds(ns, a) && Holds(ns, b) ==> !Tied(VersionAt(ns, a), VersionAt(ns, b));
    PullsAgree(i, a, b);
    PullsKeepLeader(ns, [Pull(a, b), Pull(b, a), Pull(a, b)], v);
  }

  lemma {:induction false} InTurnsSpreadsLatest(ns: Entries, pairs: seq<(string, string)>, a: string, t: string,
                                                v: Version)
    requires Sound(ns) && LedBy(ns, v) && HoldsVersion(ns, t, v) && a in ns && a != t
    requires (a, t) in pairs || (t, a) in pairs
    ensures HoldsVersion(AfterPulls(ns, InTurns(pairs)), a, v)
  {
    var (init, x) := (pairs[..|pairs| - 1], pairs[|pairs| - 1]);
    var last := [Pull(x.0, x.1), Pull(x.1, x.0), Pull(x.0, x.1)];
    PullsConcat(ns, InTurns(init), last);
    PullsKeepLeader(ns, InTurns(init), v);
    PullsKeepNodes(ns, InTurns(init));
    if (a, t) in init || (t, a) in init {
      InTurnsSpreadsLatest(ns, init, a, t, v);
      PullsKeepLeader(AfterPulls(ns, InTurns(init)), last, v);
    } else {
      ThreePullsSpreadLatest(AfterPulls(ns, InTurns(init)), x.0, x.1, v);
    }
  }

  /**
   * Whatever the nodes hold and ask for, three pulls in turn between every two of them make
   * all agree, exactly if no two owners share the id's latest millisecond.
   */
  lemma InTurnsConverges(ns: Entries, pairs: seq<(string, string)>)
    requires Sound(ns) && PairsUp(ns, pairs)
    ensures AllAgree(AfterPulls(ns, InTurns(pairs))) <==> Uncontested(ns)
  {
    var ps := InTurns(pairs);
    PullsKeepNodes(ns, ps);
    if m, n :| ContestedBy(ns, m, n) {
      TieIsForever(ns, ps, m, n);
      TieIsDisagreement(AfterPulls(ns, ps), m, n);
    } else if n :| Holds(ns, n) {
      var t := LeaderExists(ns, n);
      var v := VersionAt(ns, t);
      PullsKeepLeader(ns, ps, v);
      forall a | a in ns ensures HoldsVersion(AfterPulls(ns, ps), a, v) {
        if a != t {
          InTurnsSpreadsLatest(ns, pairs, a, t, v);
        }
      }
      LeaderEverywhereAgrees(AfterPulls(ns, ps), v);
    } else {
      NothingComesFromNothing(ns, ps);
      NothingAgrees(ns);
      NothingAgrees(AfterPulls(ns, ps));
    }
  }

  lemma NothingAgrees(ns: Entries)
    requires forall n :: !Holds(ns, n)
    ensures AllAgree(ns) && Uncontested(ns)
  {
    forall n | n in ns ensures ns[n].held.None? {
      assert !Holds(ns, n);
    }
  }
}
