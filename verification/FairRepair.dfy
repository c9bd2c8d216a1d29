/** Passes in which every node pulls from every other: when they make all nodes agree on an id. */
module FairRepair {
  import opened Rpc
  import opened ReplicaRepair
  import opened RepairSchedules

  /** Each node pulls from each other one at least once, in any order. */
  ghost predicate IsPass(nodes: set<string>, ps: seq<Pull>) {
    && (forall p :: p in ps ==> p.caller in nodes && p.server in nodes && p.caller != p.server)
    && (forall a, b :: a in nodes && b in nodes && a != b ==> Pull(a, b) in ps)
  }

  ghost predicate ArePasses(nodes: set<string>, passes: seq<seq<Pull>>) {
    forall ps :: ps in passes ==> IsPass(nodes, ps)
  }

  function Flatten(passes: seq<seq<Pull>>): seq<Pull> {
    if passes == [] then [] else Flatten(passes[..|passes| - 1]) + passes[|passes| - 1]
  }

  /** However k passes are ordered, all nodes agree in the end. */
  ghost predicate PassesConverge(ns: Entries, k: nat) {
    forall passes {:trigger ArePasses(ns.Keys, passes)} ::
      |passes| == k && ArePasses(ns.Keys, passes) ==> AllAgree(AfterPulls(ns, Flatten(passes)))
  }

  predicate Lacks(ns: Entries, n: string) {
    n in ns && ns[n].held.None?
  }

  ghost predicate Unknown(ns: Entries) {
    forall n :: !Holds(ns, n)
  }

  ghost predicate AtMostOneLacks(ns: Entries) {
    forall c, d :: Lacks(ns, c) && Lacks(ns, d) ==> c == d
  }

  predicate OthersHold(ns: Entries, n: string) {
    forall m :: m in ns && m != n ==> Holds(ns, m)
  }

  /** n holds the id, or asks for it and whichever node it asks has it. */
  predicate Ready(ns: Entries, n: string) {
    Holds(ns, n) || (n in ns && ns[n].asks && OthersHold(ns, n))
  }

  lemma {:induction false} InFlatten(passes: seq<seq<Pull>>, p: Pull)
    ensures p in Flatten(passes) <==> exists ps :: ps in passes && p in ps
  {
    if passes != [] {
      var (init, last) := (passes[..|passes| - 1], passes[|passes| - 1]);
      InFlatten(init, p);
      assert passes == init + [last];
    }
  }

  lemma FlattenLast(passes: seq<seq<Pull>>, last: seq<Pull>)
    ensures Flatten(passes + [last]) == Flatten(passes) + last
  {
    assert (passes + [last])[..|passes + [last]| - 1] == passes;
  }

  lemma {:induction false} FlattenFirst(first: seq<Pull>, passes: seq<seq<Pull>>)
    ensures Flatten([first] + passes) == first + Flatten(passes)
  {
    var all := [first] + passes;
    if passes == [] {
      assert all[..0] == [];
    } else {
      FlattenFirst(first, passes[..|passes| - 1]);
      assert all[..|all| - 1] == [first] + passes[..|passes| - 1];
    }
  }

  // ----- Where passes converge -----

  lemma OthersKeepHolding(ns: Entries, p: Pull, n: string)
    requires CanPull(ns, p) && OthersHold(ns, n)
    ensures OthersHold(AfterPull(ns, p), n)
  {
    forall m | m in ns && m != n ensures Holds(AfterPull(ns, p), m) {
      PullKeepsHolding(ns, p, m);
    }
  }

  lemma PullKeepsReady(ns: Entries, p: Pull, n: string)
    requires CanPull(ns, p) && Sound(ns) && Ready(ns, n)
    ensures Ready(AfterPull(ns, p), n)
  {
    if Holds(ns, n) {
      PullKeepsHolding(ns, p, n);
    } else {
      OthersKeepHolding(ns, p, n);
    }
  }

  lemma {:induction false} PullsKeepReady(ns: Entries, ps: seq<Pull>, n: string)
    requires Sound(ns) && Ready(ns, n)
    ensures Ready(AfterPulls(ns, ps), n)
  {
    if ps != [] {
      var (init, p) := (ps[..|ps| - 1], ps[|ps| - 1]);
      PullsKeepReady(ns, init, n);
      PullsKeepSound(ns, init);
      if CanPull(AfterPulls(ns, init), p) {
        PullKeepsReady(AfterPulls(ns, init), p, n);
      }
    }
  }

  lemma {:induction false} ReadyNodeGetsLatest(ns: Entries, ps: seq<Pull>, a: string, b: string, v: Version)
    requires Sound(ns) && LedBy(ns, v) && HoldsVersion(ns, b, v) && Ready(ns, a)
    requires a != b && Pull(a, b) in ps
    ensures HoldsVersion(AfterPulls(ns, ps), a, v)
  {
    var (init, p) := (ps[..|ps| - 1], ps[|ps| - 1]);
    var ns' := AfterPulls(ns, init);
    PullsKeepLeader(ns, init, v);
    PullsKeepNodes(ns, init);
    if Pull(a, b) in init {
      ReadyNodeGetsLatest(ns, init, a, b, v);
      if CanPull(ns', p) {
        PullKeepsLeader(ns', p, v);
      }
    } else {
      assert p == Pull(a, b);
      PullsKeepReady(ns, init, a);
      PullFromLeader(ns', p, v);
    }
  }

  lemma ReadyNodesAgree(ns: Entries, ps: seq<Pull>, t: string, v: Version)
    requires Sound(ns) && LedBy(ns, v) && HoldsVersion(ns, t, v) && forall n :: n in ns ==> Ready(ns, n)
    requires forall a :: a in ns && a != t ==> Pull(a, t) in ps
    ensures AllAgree(AfterPulls(ns, ps))
  {
    PullsKeepNodes(ns, ps);
    PullsKeepLeader(ns, ps, v);
    forall a | a in ns ensures HoldsVersion(AfterPulls(ns, ps), a, v) {
      if a != t {
        ReadyNodeGetsLatest(ns, ps, a, t, v);
      }
    }
    LeaderEverywhereAgrees(AfterPulls(ns, ps), v);
  }

  /** A pull of any holder from the one node that lacks the id makes that node ask, until it gets it. */
  lemma {:induction false} PassMakesReady(ns: Entries, ps: seq<Pull>, a: string, d: string)
    requires Sound(ns) && d in ns && a in ns && a != d && OthersHold(ns, d) && Pull(a, d) in ps
    ensures Ready(AfterPulls(ns, ps), d)
  {
    var (init, p) := (ps[..|ps| - 1], ps[|ps| - 1]);
    var ns' := AfterPulls(ns, init);
    PullsKeepNodes(ns, init);
    PullsKeepSound(ns, init);
    if Pull(a, d) in init {
      PassMakesReady(ns, init, a, d);
      if CanPull(ns', p) {
        PullKeepsReady(ns', p, d);
      }
    } else {
      assert p == Pull(a, d);
      forall m | m in ns && m != d ensures Holds(ns', m) {
        PullsKeepHolding(ns, init, m);
      }
      OthersKeepHolding(ns', p, d);
      if Holds(ns', d) {
        PullKeepsHolding(ns', p, d);
      }
    }
  }

  lemma OnePassMakesAllReady(ns: Entries, ps: seq<Pull>, t: string)
    requires Sound(ns) && AtMostOneLacks(ns) && Holds(ns, t) && IsPass(ns.Keys, ps)
    ensures forall n :: n in ns ==> Ready(AfterPulls(ns, ps), n)
  {
    forall n | n in ns ensures Ready(AfterPulls(ns, ps), n) {
      if Holds(ns, n) {
        PullsKeepHolding(ns, ps, n);
      } else {
        assert Lacks(ns, n) && forall m :: m in ns ==> Holds(ns, m) || Lacks(ns, m);
        PassMakesReady(ns, ps, t, n);
      }
    }
  }

  lemma ReadyNodesConverge(ns: Entries, passes: seq<seq<Pull>>)
    requires Sound(ns) && Uncontested(ns) && forall n :: n in ns ==> Ready(ns, n)
    requires ArePasses(ns.Keys, passes) && passes != []
    ensures AllAgree(AfterPulls(ns, Flatten(passes)))
  {
    var ps := Flatten(passes);
    if n :| Holds(ns, n) {
      var t := LeaderExists(ns, n);
      forall a | a in ns && a != t ensures Pull(a, t) in ps {
        InFlatten(passes, Pull(a, t));
        assert passes[0] in passes;
      }
      ReadyNodesAgree(ns, ps, t, VersionAt(ns, t));
    } else {
      NothingComesFromNothing(ns, ps);
      NothingAgrees(AfterPulls(ns, ps));
    }
  }

  lemma UnknownConverges(ns: Entries, ps: seq<Pull>)
    requires Unknown(ns)
    ensures AllAgree(AfterPulls(ns, ps)) && Uncontested(ns)
  {
    NothingComesFromNothing(ns, ps);
    NothingAgrees(ns);
    NothingAgrees(AfterPulls(ns, ps));
  }

  lemma TwoPassesConverge(ns: Entries, passes: seq<seq<Pull>>)
    requires Sound(ns) && Uncontested(ns) && AtMostOneLacks(ns) && !Unknown(ns)
    requires ArePasses(ns.Keys, passes) && |passes| >= 2
    ensures AllAgree(AfterPulls(ns, Flatten(passes)))
  {
    var (first, rest) := (passes[0], passes[1..]);
    var n :| Holds(ns, n);
    var t := LeaderExists(ns, n);
    var (v, ns1) := (VersionAt(ns, t), AfterPulls(ns, first));
    assert passes == [first] + rest && first in passes && rest[0] in passes;
    FlattenFirst(first, rest);
    PullsConcat(ns, first, Flatten(rest));
    PullsKeepLeader(ns, first, v);
    PullsKeepNodes(ns, first);
    OnePassMakesAllReady(ns, first, t);
    forall a | a in ns && a != t ensures Pull(a, t) in Flatten(rest) {
      InFlatten(rest, Pull(a, t));
      assert rest[0] in rest;
    }
    ReadyNodesAgree(ns1, Flatten(rest), t, v);
  }

  // ----- Where they do not -----

  lemma {:induction false} SetToSeq(s: set<string>) returns (names: seq<string>)
    ensures forall n :: n in names <==> n in s
    decreases s
  {
    if s == {} {
      names := [];
    } else {
      var n :| n in s;
      var rest := SetToSeq(s - {n});
      names := rest + [n];
    }
  }

  /** One node pulls from all others. */
  function PullsOf(a: string, names: seq<string>): seq<Pull> {
    if names == [] then []
    else
      var b := names[|names| - 1];
      PullsOf(a, names[..|names| - 1]) + if a == b then [] else [Pull(a, b)]
  }

  /** All nodes but some pull from all others. */
  function PullsOfAllBut(skip: set<string>, callers: seq<string>, names: seq<string>): seq<Pull> {
    if callers == [] then []
    else
      var a := callers[|callers| - 1];
      PullsOfAllBut(skip, callers[..|callers| - 1], names) + if a in skip then [] else PullsOf(a, names)
  }

  lemma {:induction false} InPullsOf(a: string, names: seq<string>, p: Pull)
    ensures p in PullsOf(a, names) <==> p.caller == a && p.server in names && p.server != a
  {
    if names != [] {
      InPullsOf(a, names[..|names| - 1], p);
      assert p.server in names <==> p.server in names[..|names| - 1] || p.server == names[|names| - 1];
    }
  }

  lemma {:induction false} InPullsOfAllBut(skip: set<string>, callers: seq<string>, names: seq<string>, p: Pull)
    ensures p in PullsOfAllBut(skip, callers, names) <==>
      p.caller in callers && p.caller !in skip && p.server in names && p.server != p.caller
  {
    if callers != [] {
      var a := callers[|callers| - 1];
      InPullsOfAllBut(skip, callers[..|callers| - 1], names, p);
      InPullsOf(a, names, p);
      assert p.caller in callers <==> p.caller in callers[..|callers| - 1] || p.caller == a;
    }
  }

  ghost predicate Names(nodes: set<string>, names: seq<string>) {
    forall n :: n in names <==> n in nodes
  }

  /** All others first; then c, from d before the rest; then d, from c before the rest. */
  function StarvingPass(names: seq<string>, c: string, d: string): seq<Pull> {
    PullsOfAllBut({c, d}, names, names) + (([Pull(c, d)] + PullsOf(c, names)) + ([Pull(d, c)] + PullsOf(d, names)))
  }

  /** n first; then all others. */
  function ShyPass(names: seq<string>, n: string): seq<Pull> {
    PullsOf(n, names) + PullsOfAllBut({n}, names, names)
  }

  lemma StarvingIsPass(nodes: set<string>, names: seq<string>, c: string, d: string)
    requires Names(nodes, names) && c in nodes && d in nodes && c != d
    ensures IsPass(nodes, StarvingPass(names, c, d))
  {
    forall p
      ensures p in StarvingPass(names, c, d) <==> p.caller in nodes && p.server in nodes && p.caller != p.server
    {
      InPullsOfAllBut({c, d}, names, names, p);
      InPullsOf(c, names, p);
      InPullsOf(d, names, p);
    }
  }

  lemma ShyIsPass(nodes: set<string>, names: seq<string>, n: string)
    requires Names(nodes, names) && n in nodes
    ensures IsPass(nodes, ShyPass(names, n))
  {
    forall p ensures p in ShyPass(names, n) <==> p.caller in nodes && p.server in nodes && p.caller != p.server {
      InPullsOfAllBut({n}, names, names, p);
      InPullsOf(n, names, p);
    }
  }

  /** Only a node's own pulls bring it anything. */
  lemma {:induction false} OthersPullsKeepLacking(ns: Entries, ps: seq<Pull>, n: string)
    requires Lacks(ns, n) && forall p :: p in ps ==> p.caller != n
    ensures Lacks(AfterPulls(ns, ps), n)
  {
    if ps != [] {
      var (ns', p) := (AfterPulls(ns, ps[..|ps| - 1]), ps[|ps| - 1]);
      OthersPullsKeepLacking(ns, ps[..|ps| - 1], n);
      if CanPull(ns', p) {
        PullAt(ns', p, n);
      }
    }
  }

  /** And not even those, while it does not ask. */
  lemma {:induction false} IdlePullsKeepLacking(ns: Entries, ps: seq<Pull>, n: string)
    requires Lacks(ns, n) && !ns[n].asks && forall p :: p in ps ==> p.caller == n
    ensures Lacks(AfterPulls(ns, ps), n) && !AfterPulls(ns, ps)[n].asks
  {
    if ps != [] {
      IdlePullsKeepLacking(ns, ps[..|ps| - 1], n);
    }
  }

  /** c uses up its question on d, and gets nothing from the rest. */
  lemma TurnIsWasted(ns: Entries, names: seq<string>, c: string, d: string)
    requires Lacks(ns, c) && Lacks(ns, d) && c != d
    ensures var ns' := AfterPulls(ns, [Pull(c, d)] + PullsOf(c, names)); Lacks(ns', c) && Lacks(ns', d)
  {
    var ns1 := AfterPulls(ns, [Pull(c, d)]);
    NextPull(ns, [Pull(c, d)], 0);
    assert [Pull(c, d)][..1] == [Pull(c, d)];
    assert ns1 == AfterPull(ns, Pull(c, d));
    forall p | p in PullsOf(c, names) ensures p.caller == c {
      InPullsOf(c, names, p);
    }
    IdlePullsKeepLacking(ns1, PullsOf(c, names), c);
    OthersPullsKeepLacking(ns1, PullsOf(c, names), d);
    PullsConcat(ns, [Pull(c, d)], PullsOf(c, names));
  }

  lemma StarvingPassStarves(ns: Entries, names: seq<string>, c: string, d: string)
    requires Lacks(ns, c) && Lacks(ns, d) && c != d
    ensures var ns' := AfterPulls(ns, StarvingPass(names, c, d)); Lacks(ns', c) && Lacks(ns', d)
  {
    var (others, turnC, turnD) :=
      (PullsOfAllBut({c, d}, names, names), [Pull(c, d)] + PullsOf(c, names), [Pull(d, c)] + PullsOf(d, names));
    forall p | p in others ensures p.caller != c && p.caller != d {
      InPullsOfAllBut({c, d}, names, names, p);
    }
    var ns1 := AfterPulls(ns, others);
    OthersPullsKeepLacking(ns, others, c);
    OthersPullsKeepLacking(ns, others, d);
    TurnIsWasted(ns1, names, c, d);
    TurnIsWasted(AfterPulls(ns1, turnC), names, d, c);
    PullsConcat(ns, others, turnC + turnD);
    PullsConcat(ns1, turnC, turnD);
  }

  lemma ShyPassLeavesLacking(ns: Entries, names: seq<string>, n: string)
    requires Lacks(ns, n) && !ns[n].asks
    ensures Lacks(AfterPulls(ns, ShyPass(names, n)), n)
  {
    forall p | p in PullsOf(n, names) ensures p.caller == n {
      InPullsOf(n, names, p);
    }
    forall p | p in PullsOfAllBut({n}, names, names) ensures p.caller != n {
      InPullsOfAllBut({n}, names, names, p);
    }
    IdlePullsKeepLacking(ns, PullsOf(n, names), n);
    OthersPullsKeepLacking(AfterPulls(ns, PullsOf(n, names)), PullsOfAllBut({n}, names, names), n);
    PullsConcat(ns, PullsOf(n, names), PullsOfAllBut({n}, names, names));
  }

  function Repeat(ps: seq<Pull>, k: nat): seq<seq<Pull>> {
    if k == 0 then [] else Repeat(ps, k - 1) + [ps]
  }

  lemma {:induction false} RepeatedPass(nodes: set<string>, ps: seq<Pull>, k: nat)
    requires IsPass(nodes, ps)
    ensures |Repeat(ps, k)| == k && ArePasses(nodes, Repeat(ps, k))
  {
    if k > 0 {
      RepeatedPass(nodes, ps, k - 1);
    }
  }

  lemma OneMorePass(ns: Entries, ps: seq<Pull>, k: nat)
    ensures AfterPulls(ns, Flatten(Repeat(ps, k + 1))) == AfterPulls(AfterPulls(ns, Flatten(Repeat(ps, k))), ps)
  {
    FlattenLast(Repeat(ps, k), ps);
    PullsConcat(ns, Flatten(Repeat(ps, k)), ps);
  }

  /** The pass ps leaves c and d without the id if they lack it. */
  ghost predicate Starves(ps: seq<Pull>, c: string, d: string) {
    forall ns {:trigger AfterPulls(ns, ps)} ::
      Lacks(ns, c) && Lacks(ns, d) ==> Lacks(AfterPulls(ns, ps), c) && Lacks(AfterPulls(ns, ps), d)
  }

  lemma {:induction false} StarvesForEver(ns: Entries, ps: seq<Pull>, c: string, d: string, k: nat)
    requires Lacks(ns, c) && Lacks(ns, d) && Starves(ps, c, d)
    ensures var ns' := AfterPulls(ns, Flatten(Repeat(ps, k))); Lacks(ns', c) && Lacks(ns', d)
  {
    if k > 0 {
      StarvesForEver(ns, ps, c, d, k - 1);
      OneMorePass(ns, ps, k - 1);
    }
  }

  /**
   * That every node pulls from every other, however often, is not enough for an id that two
   * nodes have not heard of. In every pass each can use up its question on the other, just
   * before it pulls from the nodes that have the answer.
   */
  lemma FairPullsCanStarve(ns: Entries, names: seq<string>, c: string, d: string, k: nat)
    requires Lacks(ns, c) && Lacks(ns, d) && c != d && Names(ns.Keys, names)
    ensures IsPass(ns.Keys, StarvingPass(names, c, d))
    ensures var ns' := AfterPulls(ns, Flatten(Repeat(StarvingPass(names, c, d), k))); Lacks(ns', c) && Lacks(ns', d)
  {
    var ps := StarvingPass(names, c, d);
    StarvingIsPass(ns.Keys, names, c, d);
    assert Starves(ps, c, d) by {
      forall s | Lacks(s, c) && Lacks(s, d) ensures Lacks(AfterPulls(s, ps), c) && Lacks(AfterPulls(s, ps), d) {
        StarvingPassStarves(s, names, c, d);
      }
    }
    StarvesForEver(ns, ps, c, d, k);
  }

  lemma LackingIsDisagreement(ns: Entries, ps: seq<Pull>, n: string, t: string)
    requires Holds(ns, t) && Lacks(AfterPulls(ns, ps), n)
    ensures !AllAgree(AfterPulls(ns, ps))
  {
    PullsKeepHolding(ns, ps, t);
    assert !SameHeld(AfterPulls(ns, ps)[n].held, AfterPulls(ns, ps)[t].held);
  }

  lemma ContestedNeverConverges(ns: Entries, k: nat)
    requires !Uncontested(ns)
    ensures !PassesConverge(ns, k)
  {
    var m, n :| ContestedBy(ns, m, n);
    var names := SetToSeq(ns.Keys);
    ShyIsPass(ns.Keys, names, m);
    var passes := Repeat(ShyPass(names, m), k);
    RepeatedPass(ns.Keys, ShyPass(names, m), k);
    TieIsForever(ns, Flatten(passes), m, n);
    TieIsDisagreement(AfterPulls(ns, Flatten(passes)), m, n);
  }

  lemma TwoLackersNeverConverge(ns: Entries, c: string, d: string, t: string, k: nat)
    requires Lacks(ns, c) && Lacks(ns, d) && c != d && Holds(ns, t)
    ensures !PassesConverge(ns, k)
  {
    var names := SetToSeq(ns.Keys);
    FairPullsCanStarve(ns, names, c, d, k);
    RepeatedPass(ns.Keys, StarvingPass(names, c, d), k);
    LackingIsDisagreement(ns, Flatten(Repeat(StarvingPass(names, c, d), k)), c, t);
  }

  lemma ShyNodeNeedsTwoPasses(ns: Entries, n: string, t: string)
    requires Lacks(ns, n) && !ns[n].asks && Holds(ns, t)
    ensures !PassesConverge(ns, 1)
  {
    var names := SetToSeq(ns.Keys);
    var ps := ShyPass(names, n);
    ShyIsPass(ns.Keys, names, n);
    ShyPassLeavesLacking(ns, names, n);
    FlattenFirst(ps, []);
    assert [ps] + [] == [ps] && ps + [] == ps && Flatten([ps]) == ps;
    LackingIsDisagreement(ns, ps, n, t);
    assert ArePasses(ns.Keys, [ps]);
  }

  // ----- The exact conditions -----

  /**
   * Any two or more passes make all nodes agree, whatever their order, exactly if no two
   * owners contest the id's latest millisecond, and nobody or all but at most one hold it.
   */
  lemma PassesConvergeIff(ns: Entries, k: nat)
    requires Sound(ns) && k >= 2
    ensures PassesConverge(ns, k) <==> Uncontested(ns) && (Unknown(ns) || AtMostOneLacks(ns))
  {
    if !Uncontested(ns) {
      ContestedNeverConverges(ns, k);
    } else if Unknown(ns) {
      forall passes | |passes| == k && ArePasses(ns.Keys, passes)
        ensures AllAgree(AfterPulls(ns, Flatten(passes)))
      {
        UnknownConverges(ns, Flatten(passes));
      }
    } else if AtMostOneLacks(ns) {
      forall passes | |passes| == k && ArePasses(ns.Keys, passes)
        ensures AllAgree(AfterPulls(ns, Flatten(passes)))
      {
        TwoPassesConverge(ns, passes);
      }
    } else {
      var c, d :| Lacks(ns, c) && Lacks(ns, d) && c != d;
      var t :| Holds(ns, t);
      TwoLackersNeverConverge(ns, c, d, t, k);
    }
  }

  /** One pass does exactly if, besides, the one node that may lack the id asks for it. */
  lemma OnePassConvergesIff(ns: Entries)
    requires Sound(ns)
    ensures PassesConverge(ns, 1) <==>
      Uncontested(ns) && (Unknown(ns) || forall n :: n in ns ==> Ready(ns, n))
  {
    if !Uncontested(ns) {
      ContestedNeverConverges(ns, 1);
    } else if Unknown(ns) {
      forall passes | |passes| == 1 && ArePasses(ns.Keys, passes)
        ensures AllAgree(AfterPulls(ns, Flatten(passes)))
      {
        UnknownConverges(ns, Flatten(passes));
      }
    } else if forall n :: n in ns ==> Ready(ns, n) {
      forall passes | |passes| == 1 && ArePasses(ns.Keys, passes)
        ensures AllAgree(AfterPulls(ns, Flatten(passes)))
      {
        ReadyNodesConverge(ns, passes);
      }
    } else {
      var n :| n in ns && !Ready(ns, n);
      var t :| Holds(ns, t);
      if ns[n].asks {
        var m :| m in ns && m != n && !Holds(ns, m);
        TwoLackersNeverConverge(ns, n, m, t, 1);
      } else {
        ShyNodeNeedsTwoPasses(ns, n, t);
      }
    }
  }
}
