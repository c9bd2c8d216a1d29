/** Repair among any number of nodes: what schedules of pulls make all registries agree. */
module ClusterRepair {
  import opened Rpc
  import opened Versions
  import opened RegistryState
  import opened Delivery
  import opened ReplicaRepair
  import opened RepairSchedules
  import opened FairRepair
  import opened ClusterProtocol

  type Nodes = map<string, State>

  /** One pull, with what was exchanged. */
  datatype Round = Round(pull: Pull, x: Exchange, limit: int)

  /** What holds of the nodes of a cluster in which no member was dropped and no clock reads 0. */
  ghost predicate Repairables(nodes: Nodes) {
    && (forall n :: n in nodes ==> nodes[n].cfg.localId == n && WellFormed(nodes[n]) && Positive(nodes[n]))
    && (forall m, n :: m in nodes && n in nodes ==>
          Dominates(nodes[m], nodes[n]) && AgreeOnPayload(nodes[m], nodes[n]))
  }

  /** Every run of a cluster that drops no member it issued leaves its nodes so, if they were not started at 0. */
  lemma RunsAreRepairable(steps: seq<Step>)
    requires DeletionFree(steps)
    requires forall n :: n in Reached(steps).nodes ==> Positive(Reached(steps).nodes[n])
    ensures Repairables(Reached(steps).nodes)
  {
    var c := Reached(steps);
    OneVersionOnePayload(steps);
    OwnersDominateInEveryRun(steps);
    forall m, n | m in c.nodes && n in c.nodes
      ensures Dominates(c.nodes[m], c.nodes[n]) && AgreeOnPayload(c.nodes[m], c.nodes[n])
    {
      NodesDominate(c, m, n);
    }
  }

  ghost predicate CanPullUncut(nodes: Nodes, r: Round) {
    var (a, b) := (r.pull.caller, r.pull.server);
    && a in nodes && b in nodes && a != b
    && CanSync(nodes[a], nodes[b], r.limit, r.x) && Unlimited(nodes[a], r.limit)
  }

  function AfterRound(nodes: Nodes, r: Round): Nodes {
    var (a, b) := (r.pull.caller, r.pull.server);
    if a in nodes && b in nodes then nodes[a := Puller(nodes[a], r.x)][b := Server(nodes[b], r.x)] else nodes
  }

  function AfterRounds(nodes: Nodes, rs: seq<Round>): Nodes {
    if rs == [] then nodes else AfterRound(AfterRounds(nodes, rs[..|rs| - 1]), rs[|rs| - 1])
  }

  /** rs is a schedule of uncut pulls, with nothing else in between. */
  ghost predicate Undisturbed(nodes: Nodes, rs: seq<Round>) {
    rs == [] ||
    (Undisturbed(nodes, rs[..|rs| - 1]) && CanPullUncut(AfterRounds(nodes, rs[..|rs| - 1]), rs[|rs| - 1]))
  }

  function Pulls(rs: seq<Round>): seq<Pull> {
    if rs == [] then [] else Pulls(rs[..|rs| - 1]) + [rs[|rs| - 1].pull]
  }

  /** What the nodes have of one id. */
  function EntriesOf(nodes: Nodes, id: string): Entries {
    map n | n in nodes :: Entry(Held(nodes[n], id), id in nodes[n].priority)
  }

  ghost predicate IsNode(s: State, n: string) {
    s.cfg.localId == n && WellFormed(s)
  }

  ghost predicate AreNodes(nodes: Nodes) {
    forall n :: n in nodes ==> IsNode(nodes[n], n)
  }

  lemma SyncKeepsNodes(a: State, b: State, m: string, n: string, x: Exchange)
    requires IsNode(a, m) && IsNode(b, n)
    ensures IsNode(Puller(a, x), m) && IsNode(Server(b, x), n)
  {
    var a', b' := SyncKeepsWellFormed(a, b, x);
    DeliveryFrame(AfterDigest(a, x.digest), x.delta);
  }

  lemma RoundKeepsNodes(nodes: Nodes, r: Round)
    requires AreNodes(nodes)
    requires r.pull.caller in nodes && r.pull.server in nodes && r.pull.caller != r.pull.server
    ensures AreNodes(AfterRound(nodes, r)) && AfterRound(nodes, r).Keys == nodes.Keys
  {
    var (a, b) := (r.pull.caller, r.pull.server);
    SyncKeepsNodes(nodes[a], nodes[b], a, b, r.x);
  }

  lemma RoundAt(nodes: Nodes, r: Round, id: string)
    requires AreNodes(nodes) && CanPullUncut(nodes, r) && id !in nodes
    ensures CanPull(EntriesOf(nodes, id), r.pull)
    ensures EntriesOf(AfterRound(nodes, r), id) == AfterPull(EntriesOf(nodes, id), r.pull)
  {
    var (a, b, ns) := (r.pull.caller, r.pull.server, EntriesOf(nodes, id));
    assert IsNode(nodes[a], a) && IsNode(nodes[b], b);
    SyncMoves(nodes[a], nodes[b], r.limit, r.x, id);
    var i := PullByA(IdState(ns[a].held, ns[b].held, ns[a].asks, ns[b].asks), a);
    EntriesAfter(nodes, a, Puller(nodes[a], r.x), b, Server(nodes[b], r.x), id);
    assert Entry(i.a, i.pa) == EntriesOf(AfterRound(nodes, r), id)[a];
    assert Entry(i.b, i.pb) == EntriesOf(AfterRound(nodes, r), id)[b];
  }

  lemma EntriesAfter(nodes: Nodes, a: string, s: State, b: string, t: State, id: string)
    requires a in nodes && b in nodes && a != b
    ensures EntriesOf(nodes[a := s][b := t], id) ==
      EntriesOf(nodes, id)[a := Entry(Held(s, id), id in s.priority)][b := Entry(Held(t, id), id in t.priority)]
  {
  }

  lemma LastPull(ns: Entries, rs: seq<Round>)
    requires rs != []
    ensures var (init, r) := (rs[..|rs| - 1], rs[|rs| - 1]); var before := AfterPulls(ns, Pulls(init));
      CanPull(before, r.pull) ==> AfterPulls(ns, Pulls(rs)) == AfterPull(before, r.pull)
  {
    var (qs, q) := (Pulls(rs[..|rs| - 1]), rs[|rs| - 1].pull);
    assert Pulls(rs) == qs + [q] && (qs + [q])[..|qs + [q]| - 1] == qs;
  }

  /** Each id goes its own way, as RepairSchedules says. */
  lemma {:induction false} RoundsAt(nodes: Nodes, rs: seq<Round>, id: string)
    requires AreNodes(nodes) && Undisturbed(nodes, rs) && id !in nodes
    ensures AreNodes(AfterRounds(nodes, rs)) && AfterRounds(nodes, rs).Keys == nodes.Keys
    ensures EntriesOf(AfterRounds(nodes, rs), id) == AfterPulls(EntriesOf(nodes, id), Pulls(rs))
  {
    if rs != [] {
      var (init, r) := (rs[..|rs| - 1], rs[|rs| - 1]);
      RoundsAt(nodes, init, id);
      RoundKeepsNodes(AfterRounds(nodes, init), r);
      RoundAt(AfterRounds(nodes, init), r, id);
      LastPull(EntriesOf(nodes, id), rs);
    }
  }

  lemma RepairableEntries(nodes: Nodes, id: string, m: string, n: string)
    requires Repairables(nodes) && m in nodes && n in nodes && id in nodes[m].members
    ensures nodes[n].cfg.localId == n && Before(Timestamp(0, 0), nodes[m].members[id].version.ts)
    ensures nodes[m].members[id].version.owner == n ==>
      id in nodes[n].members && AtLeast(nodes[n].members[id].version, nodes[m].members[id].version)
    ensures id in nodes[n].members && nodes[m].members[id].version == nodes[n].members[id].version ==>
      Same(nodes[m].members[id], nodes[n].members[id])
  {
    assert Dominates(nodes[n], nodes[m]) && AgreeOnPayload(nodes[m], nodes[n]);
  }

  lemma RepairablesAreSound(nodes: Nodes, id: string)
    requires Repairables(nodes)
    ensures Sound(EntriesOf(nodes, id))
  {
    var ns := EntriesOf(nodes, id);
    forall m | Holds(ns, m) ensures Before(Timestamp(0, 0), VersionAt(ns, m).ts) {
      RepairableEntries(nodes, id, m, m);
    }
    forall m, n | Holds(ns, m) && n in ns
      ensures VersionAt(ns, m).owner == n ==> Holds(ns, n) && AtLeast(VersionAt(ns, n), VersionAt(ns, m))
      ensures Holds(ns, n) && VersionAt(ns, m) == VersionAt(ns, n) ==> Same(ns[m].held.value, ns[n].held.value)
    {
      RepairableEntries(nodes, id, m, n);
    }
  }

  /** All nodes hold the same version of id, or none holds any. */
  ghost predicate AgreeOn(nodes: Nodes, id: string) {
    forall m, n :: m in nodes && n in nodes ==> Alike(nodes[m], nodes[n], id)
  }

  /** m and n claim the latest millisecond of id for two owners. */
  ghost predicate Contest(nodes: Nodes, id: string, m: string, n: string) {
    && m in nodes && n in nodes && TiedOn(nodes[m], nodes[n], id)
    && (forall k :: k in nodes && id in nodes[k].members ==>
          nodes[k].members[id].version.ts.ms <= nodes[m].members[id].version.ts.ms)
  }

  ghost predicate ContestedTop(nodes: Nodes, id: string) {
    exists m, n :: Contest(nodes, id, m, n)
  }

  lemma EntriesTell(nodes: Nodes, id: string)
    ensures AgreeOn(nodes, id) <==> AllAgree(EntriesOf(nodes, id))
    ensures ContestedTop(nodes, id) <==> !Uncontested(EntriesOf(nodes, id))
  {
    AgreementTells(nodes, id);
    ContestTells(nodes, id);
  }

  lemma AgreementTells(nodes: Nodes, id: string)
    ensures AgreeOn(nodes, id) <==> AllAgree(EntriesOf(nodes, id))
  {
    var ns := EntriesOf(nodes, id);
    forall m, n | m in nodes && n in nodes
      ensures Alike(nodes[m], nodes[n], id) <==> SameHeld(ns[m].held, ns[n].held)
    {
      HeldIsAlike(nodes[m], nodes[n], id);
    }
  }

  lemma ContestTells(nodes: Nodes, id: string)
    ensures ContestedTop(nodes, id) <==> !Uncontested(EntriesOf(nodes, id))
  {
    forall m, n ensures Contest(nodes, id, m, n) <==> ContestedBy(EntriesOf(nodes, id), m, n) {
      ContestAt(nodes, id, m, n);
    }
  }

  lemma ContestAt(nodes: Nodes, id: string, m: string, n: string)
    ensures Contest(nodes, id, m, n) <==> ContestedBy(EntriesOf(nodes, id), m, n)
  {
    var ns := EntriesOf(nodes, id);
    assert forall k :: Holds(ns, k) <==> k in nodes && id in nodes[k].members;
    assert forall k :: Holds(ns, k) ==> VersionAt(ns, k) == nodes[k].members[id].version;
  }

  /**
   * Three pulls in turn between every two nodes make all nodes agree on an id, exactly if no
   * two owners contest its latest millisecond. The nodes' own members are not theirs to exchange.
   */
  lemma RepairInTurnsConverges(nodes: Nodes, rs: seq<Round>, pairs: seq<(string, string)>, id: string)
    requires Repairables(nodes) && Undisturbed(nodes, rs) && id !in nodes
    requires Pulls(rs) == InTurns(pairs) && PairsUp(EntriesOf(nodes, id), pairs)
    ensures AgreeOn(AfterRounds(nodes, rs), id) <==> !ContestedTop(nodes, id)
  {
    RoundsAt(nodes, rs, id);
    RepairablesAreSound(nodes, id);
    InTurnsConverges(EntriesOf(nodes, id), pairs);
    EntriesTell(nodes, id);
    EntriesTell(AfterRounds(nodes, rs), id);
  }

  lemma UncutRound(nodes: Nodes, p: Pull) returns (r: Round)
    requires AreNodes(nodes) && p.caller in nodes && p.server in nodes && p.caller != p.server
    ensures r.pull == p && CanPullUncut(nodes, r)
  {
    assert IsNode(nodes[p.server], p.server);
    var x, limit := UncutSync(nodes[p.caller], nodes[p.server]);
    r := Round(p, x, limit);
  }

  lemma OneMoreRound(nodes: Nodes, rs: seq<Round>, r: Round)
    requires Undisturbed(nodes, rs) && CanPullUncut(AfterRounds(nodes, rs), r)
    ensures Undisturbed(nodes, rs + [r]) && AfterRounds(nodes, rs + [r]) == AfterRound(AfterRounds(nodes, rs), r)
    ensures Pulls(rs + [r]) == Pulls(rs) + [r.pull]
  {
    var more := rs + [r];
    InitAndLast(more);
    assert more[..|more| - 1] == rs && more[|more| - 1] == r;
  }

  lemma ExtendSchedule(nodes: Nodes, rs: seq<Round>, p: Pull) returns (more: seq<Round>)
    requires Undisturbed(nodes, rs) && AreNodes(AfterRounds(nodes, rs)) && AfterRounds(nodes, rs).Keys == nodes.Keys
    requires p.caller in nodes && p.server in nodes && p.caller != p.server
    ensures Undisturbed(nodes, more)
    ensures AreNodes(AfterRounds(nodes, more)) && AfterRounds(nodes, more).Keys == nodes.Keys
    ensures Pulls(more) == Pulls(rs) + [p]
  {
    var r := UncutRound(AfterRounds(nodes, rs), p);
    RoundKeepsNodes(AfterRounds(nodes, rs), r);
    OneMoreRound(nodes, rs, r);
    more := rs + [r];
  }

  lemma InitAndLast<T>(xs: seq<T>)
    requires xs != []
    ensures xs[..|xs| - 1] + [xs[|xs| - 1]] == xs
  {
  }

  /** Every schedule can be carried out. */
  lemma {:induction false} SchedulesCanRun(nodes: Nodes, ps: seq<Pull>) returns (rs: seq<Round>)
    requires AreNodes(nodes)
    requires forall p :: p in ps ==> p.caller in nodes && p.server in nodes && p.caller != p.server
    ensures Undisturbed(nodes, rs) && AreNodes(AfterRounds(nodes, rs)) && AfterRounds(nodes, rs).Keys == nodes.Keys
    ensures Pulls(rs) == ps
    decreases |ps|
  {
    if ps == [] {
      rs := [];
    } else {
      var (init, p) := (ps[..|ps| - 1], ps[|ps| - 1]);
      var before := SchedulesCanRun(nodes, init);
      rs := ExtendSchedule(nodes, before, p);
      InitAndLast(ps);
    }
  }

  // ----- Fair schedules -----

  /** Whatever k passes, uncut and undisturbed, in each of which every node pulls from every other: all agree on id. */
  ghost predicate FairRepairConverges(nodes: Nodes, id: string, k: nat) {
    forall passes, rs {:trigger ArePasses(nodes.Keys, passes), Undisturbed(nodes, rs)} ::
      |passes| == k && ArePasses(nodes.Keys, passes) && Pulls(rs) == Flatten(passes) && Undisturbed(nodes, rs) ==>
        AgreeOn(AfterRounds(nodes, rs), id)
  }

  lemma FlattenedPulls(nodes: set<string>, passes: seq<seq<Pull>>)
    requires ArePasses(nodes, passes)
    ensures forall p :: p in Flatten(passes) ==> p.caller in nodes && p.server in nodes && p.caller != p.server
  {
    forall p | p in Flatten(passes) ensures p.caller in nodes && p.server in nodes && p.caller != p.server {
      InFlatten(passes, p);
    }
  }

  /** Fair repair of whole registries converges on an id exactly if it does so for that id alone. */
  lemma FairRepairIsAtEachId(nodes: Nodes, id: string, k: nat)
    requires AreNodes(nodes) && id !in nodes
    ensures FairRepairConverges(nodes, id, k) <==> PassesConverge(EntriesOf(nodes, id), k)
  {
    var ns := EntriesOf(nodes, id);
    assert ns.Keys == nodes.Keys;
    if FairRepairConverges(nodes, id, k) {
      forall passes | |passes| == k && ArePasses(ns.Keys, passes) ensures AllAgree(AfterPulls(ns, Flatten(passes))) {
        FlattenedPulls(nodes.Keys, passes);
        var rs := SchedulesCanRun(nodes, Flatten(passes));
        RoundsAt(nodes, rs, id);
        AgreementTells(AfterRounds(nodes, rs), id);
        assert ArePasses(nodes.Keys, passes);
      }
    }
    if PassesConverge(ns, k) {
      forall passes, rs |
        |passes| == k && ArePasses(nodes.Keys, passes) && Pulls(rs) == Flatten(passes) && Undisturbed(nodes, rs)
        ensures AgreeOn(AfterRounds(nodes, rs), id)
      {
        RoundsAt(nodes, rs, id);
        AgreementTells(AfterRounds(nodes, rs), id);
        assert ArePasses(ns.Keys, passes);
      }
    }
  }

  /** Nobody holds id, or all nodes but at most one do. */
  ghost predicate Spread(nodes: Nodes, id: string) {
    || (forall n :: n in nodes ==> id !in nodes[n].members)
    || (forall c, d :: c in nodes && d in nodes && id !in nodes[c].members && id !in nodes[d].members ==> c == d)
  }

  /** And if just one lacks it, then with id among its priority ids. */
  ghost predicate SpreadAndAsked(nodes: Nodes, id: string) {
    || (forall n :: n in nodes ==> id !in nodes[n].members)
    || (forall n :: n in nodes && id !in nodes[n].members ==>
          id in nodes[n].priority && forall m :: m in nodes && m != n ==> id in nodes[m].members)
  }

  lemma SpreadTells(nodes: Nodes, id: string)
    ensures var ns := EntriesOf(nodes, id);
      && (Spread(nodes, id) <==> Unknown(ns) || AtMostOneLacks(ns))
      && (SpreadAndAsked(nodes, id) <==> Unknown(ns) || forall n :: n in ns ==> Ready(ns, n))
  {
    var ns := EntriesOf(nodes, id);
    assert forall n :: Holds(ns, n) <==> n in nodes && id in nodes[n].members;
    assert forall n :: Lacks(ns, n) <==> n in nodes && id !in nodes[n].members;
    assert forall n :: n in nodes ==> (ns[n].asks <==> id in nodes[n].priority);
  }

  /**
   * Two or more fair passes make all nodes agree on an id, whatever their order, if and only
   * if no two owners contest its latest millisecond, and nobody holds it or all nodes but at
   * most one do.
   */
  lemma FairRepairConvergesIff(nodes: Nodes, id: string, k: nat)
    requires Repairables(nodes) && id !in nodes && k >= 2
    ensures FairRepairConverges(nodes, id, k) <==> !ContestedTop(nodes, id) && Spread(nodes, id)
  {
    RepairablesAreSound(nodes, id);
    FairRepairIsAtEachId(nodes, id, k);
    PassesConvergeIff(EntriesOf(nodes, id), k);
    ContestTells(nodes, id);
    SpreadTells(nodes, id);
  }

  /** One fair pass does so if and only if, besides, a node that lacks the id alone asks for it. */
  lemma OneFairPassConvergesIff(nodes: Nodes, id: string)
    requires Repairables(nodes) && id !in nodes
    ensures FairRepairConverges(nodes, id, 1) <==> !ContestedTop(nodes, id) && SpreadAndAsked(nodes, id)
  {
    RepairablesAreSound(nodes, id);
    FairRepairIsAtEachId(nodes, id, 1);
    OnePassConvergesIff(EntriesOf(nodes, id));
    ContestTells(nodes, id);
    SpreadTells(nodes, id);
  }

  /** For any number of fair passes, two nodes that lack an id can be kept from it, whoever holds it. */
  lemma FairRepairCanStarve(nodes: Nodes, id: string, c: string, d: string, k: nat)
    returns (passes: seq<seq<Pull>>, rs: seq<Round>)
    requires AreNodes(nodes) && id !in nodes && c in nodes && d in nodes && c != d
    requires id !in nodes[c].members && id !in nodes[d].members
    ensures |passes| == k && ArePasses(nodes.Keys, passes) && Pulls(rs) == Flatten(passes) && Undisturbed(nodes, rs)
    ensures var after := AfterRounds(nodes, rs);
      c in after && id !in after[c].members && d in after && id !in after[d].members
  {
    var ns := EntriesOf(nodes, id);
    var names := SetToSeq(ns.Keys);
    assert ns.Keys == nodes.Keys;
    FairPullsCanStarve(ns, names, c, d, k);
    RepeatedPass(ns.Keys, StarvingPass(names, c, d), k);
    passes := Repeat(StarvingPass(names, c, d), k);
    FlattenedPulls(nodes.Keys, passes);
    rs := SchedulesCanRun(nodes, Flatten(passes));
    RoundsAt(nodes, rs, id);
    LacksTells(AfterRounds(nodes, rs), id, c);
    LacksTells(AfterRounds(nodes, rs), id, d);
  }

  lemma LacksTells(nodes: Nodes, id: string, n: string)
    requires Lacks(EntriesOf(nodes, id), n)
    ensures n in nodes && id !in nodes[n].members
  {
  }
}
