/** Runs of a small cluster that end in what the other modules only rule out under conditions. */
module ReachableFailures {
  import opened Rpc
  import opened RegistryState
  import opened Departures
  import opened Delivery
  import opened ReplicaRepair
  import opened ClusterProtocol
  import opened ClusterRepair
  import opened BoundedRepair

  function Fresh(node: string): State {
    NewRegistry(Config(node, 10, 10, 10), None, 0)
  }

  function StartUp(node: string): Step {
    Start(Config(node, 10, 10, 10), None, 0)
  }

  lemma OneMoreStep(steps: seq<Step>, step: Step)
    ensures Reached(steps + [step]) == Next(Reached(steps), step)
    ensures DeletionFree(steps + [step]) <==> DeletionFree(steps) && !DropsIssued(Reached(steps), step)
  {
    assert (steps + [step])[..|steps + [step]| - 1] == steps;
  }

  /** Two nodes that have just started. */
  lemma TwoNodes() returns (steps: seq<Step>)
    ensures DeletionFree(steps) && Reached(steps) == Cluster(map["a" := Fresh("a"), "b" := Fresh("b")], {})
  {
    steps := [StartUp("a")];
    OneMoreStep([], StartUp("a"));
    assert [] + [StartUp("a")] == steps;
    assert Stored(Fresh("a")) == {} && Stored(Fresh("b")) == {};
    assert Reached(steps) == Cluster(map["a" := Fresh("a")], {});
    OneMoreStep(steps, StartUp("b"));
    steps := steps + [StartUp("b")];
  }

  /** A registration, as a step of the cluster. */
  lemma AddStep(c: Cluster, node: string, member: MemberState, now: int) returns (m: Member)
    requires node in c.nodes && ClockAhead(c.nodes[node], now)
    requires member.id != c.nodes[node].cfg.localId && member.id !in c.nodes[node].members
    ensures m == Member(member, UP, NextVersion(c.nodes[node], now), 0)
    ensures var c' := Next(c, Local(node, Add(member, now)));
      && c' == Cluster(c.nodes[node := AddMember(c.nodes[node], member, now)], c.copies + {m})
      && c'.nodes[node].members == c.nodes[node].members[member.id := m]
    ensures !DropsIssued(c, Local(node, Add(member, now)))
  {
    m := Member(member, UP, NextVersion(c.nodes[node], now), 0);
    EmittedByEffect(c.nodes[node], AddMember(c.nodes[node], member, now), Issued(m));
  }

  lemma TieIsReachable() returns (steps: seq<Step>)
    ensures DeletionFree(steps) && "a" in Reached(steps).nodes && "b" in Reached(steps).nodes
    ensures var (s, t) := (Reached(steps).nodes["a"], Reached(steps).nodes["b"]);
      Positive(s) && Positive(t) && TiedOn(s, t, "m")
  {
    steps := TwoNodes();
    var add := Add(BareState("m"), 1);
    var m := AddStep(Reached(steps), "a", BareState("m"), 1);
    OneMoreStep(steps, Local("a", add));
    steps := steps + [Local("a", add)];
    var n := AddStep(Reached(steps), "b", BareState("m"), 1);
    OneMoreStep(steps, Local("b", add));
    steps := steps + [Local("b", add)];
  }

  /** The two registrations, sent to a third node, leave it with whichever arrives first. */
  lemma OrderCanMatter() returns (s: State, u: Member, v: Member)
    ensures s == Fresh("c")
    ensures u == Member(BareState("m"), UP, Version("a", Timestamp(1, 0)), 0)
    ensures v == Member(BareState("m"), UP, Version("b", Timestamp(1, 0)), 0)
    ensures !OrderInsensitive(s, [u, v])
    ensures var t := DeliverAll(s, [u, u, v]); "m" in t.members && t.members["m"].version.owner == "a"
    ensures var t := DeliverAll(s, [v, u, v]); "m" in t.members && t.members["m"].version.owner == "b"
  {
    s := Fresh("c");
    u := Member(BareState("m"), UP, Version("a", Timestamp(1, 0)), 0);
    v := Member(BareState("m"), UP, Version("b", Timestamp(1, 0)), 0);
    NewRegistryIsWellFormed(Config("c", 10, 10, 10), None, 0);
    assert [u, v][0] == u && [u, v][1] == v;
    assert TiedAtTop(s, [u, v], u, v) && TiedAtTop(s, [u, v], v, u);
    OrderInsensitiveIffNoTopTie(s, [u, v]);
    FirstOfTieWins(s, [u, v], u, v);
    FirstOfTieWins(s, [u, v], v, u);
    assert [u] + [u, v] == [u, u, v] && [v] + [u, v] == [v, u, v];
  }

  lemma NodeIsWellFormed(steps: seq<Step>, node: string)
    requires node in Reached(steps).nodes
    ensures WellFormed(Reached(steps).nodes[node])
  {
    OneVersionOnePayload(steps);
  }

  /**
   * Two clients registering the same member at two nodes in the same millisecond is enough:
   * no member is ever dropped, and yet three undisturbed pulls do not make the nodes agree.
   */
  lemma RepairCanFail() returns (steps: seq<Step>, r: ThreeRounds)
    ensures DeletionFree(steps) && "a" in Reached(steps).nodes && "b" in Reached(steps).nodes
    ensures var (s, t) := (Reached(steps).nodes["a"], Reached(steps).nodes["b"]);
      && Positive(s) && Positive(t) && CanRun(s, t, r)
      && TiedOn(s, t, "m") && !Alike(A3(s, r), B3(t, r), "m")
  {
    steps := TieIsReachable();
    NodeIsWellFormed(steps, "a");
    NodeIsWellFormed(steps, "b");
    r := ThreeRoundsCanRun(Reached(steps).nodes["a"], Reached(steps).nodes["b"]);
    RepairConvergesAfterEveryRun(steps, "a", "b", r);
    assert "m" != "a" && "m" != "b";
  }

  lemma DropIsReachable() returns (steps: seq<Step>, step: Step)
    ensures DeletionFree(steps) && DropsIssued(Reached(steps), step)
  {
    steps := TwoNodes();
    var add, remove := Local("a", Add(BareState("m"), 1)), Local("a", Remove("m", 2, 2));
    var m := AddStep(Reached(steps), "a", BareState("m"), 1);
    OneMoreStep(steps, add);
    steps := steps + [add];
    var c := Reached(steps);
    OneMoreStep(steps, remove);
    steps := steps + [remove];
    step := Local("a", Visited("m", 13, 13));
    assert m in Reached(steps).copies && Reached(steps).nodes["a"] == RemoveMember(c.nodes["a"], "m", 2, 2);
    assert Reached(steps).nodes["a"].members["m"].liveness == LEFT;
  }

  /**
   * A node that registers, unregisters and sweeps away a member has dropped it, while a copy
   * in its name is still about.
   */
  lemma DominanceCanEnd() returns (steps: seq<Step>, step: Step)
    ensures DeletionFree(steps) && DropsIssued(Reached(steps), step)
    ensures OwnersDominate(Reached(steps)) && !OwnersDominate(Reached(steps + [step]))
  {
    steps, step := DropIsReachable();
    OwnersDominateInEveryRun(steps);
    OneVersionOnePayload(steps);
    DominanceEndsExactlyWhenDropped(Reached(steps), step);
    OneMoreStep(steps, step);
  }

  /** A node is reported gone before the member registered there arrives, and no sweep will ever take it over. */
  lemma OrphanIsReachable() returns (steps: seq<Step>)
    ensures DeletionFree(steps) && "a" in Reached(steps).nodes && Orphan(Reached(steps).nodes["a"], "m")
  {
    steps := TwoNodes();
    var add := Local("b", Add(BareState("m"), 1));
    var m := AddStep(Reached(steps), "b", BareState("m"), 1);
    OneMoreStep(steps, add);
    steps := steps + [add];
    var leave := Local("a", NodeLeave("b", 2));
    OneMoreStep(steps, leave);
    steps := steps + [leave];
    assert OwnedBy(Fresh("a"), "b") == {};
    assert Reached(steps).nodes["a"] == OnNodeLeave(Fresh("a"), "b", 2) && m in Reached(steps).copies;
    OneMoreStep(steps, Deliver("a", m));
    steps := steps + [Deliver("a", m)];
    NewRegistryIsWellFormed(Config("a", 10, 10, 10), None, 0);
    LateArrivalIsOrphan(Fresh("a"), "b", 2, m);
  }

  ghost predicate OnlyB(nodes: Nodes) {
    && nodes.Keys == {"a", "b", "c"}
    && nodes["a"].members == map[] && nodes["c"].members == map[]
    && nodes["b"].members == map["m" := Member(BareState("m"), UP, Version("b", Timestamp(1, 0)), 0)]
  }

  lemma OnlyBIsReachable() returns (steps: seq<Step>)
    ensures DeletionFree(steps) && OnlyB(Reached(steps).nodes)
  {
    steps := TwoNodes();
    OneMoreStep(steps, StartUp("c"));
    steps := steps + [StartUp("c")];
    var add := Local("b", Add(BareState("m"), 1));
    var m := AddStep(Reached(steps), "b", BareState("m"), 1);
    OneMoreStep(steps, add);
    steps := steps + [add];
  }

  lemma OnlyBIsUneven(nodes: Nodes)
    requires OnlyB(nodes)
    ensures forall n :: n in nodes ==> Positive(nodes[n])
    ensures !ContestedTop(nodes, "m") && !Spread(nodes, "m")
  {
    assert "m" !in nodes["a"].members && "m" !in nodes["c"].members && "m" in nodes["b"].members;
  }

  /** Of three nodes only one holds a member, and nothing contests it: fair repair need not spread it. */
  lemma StarvationIsReachable() returns (steps: seq<Step>)
    ensures DeletionFree(steps) && Repairables(Reached(steps).nodes)
    ensures var nodes := Reached(steps).nodes;
      && "m" !in nodes && !ContestedTop(nodes, "m")
      && forall k: nat :: k >= 2 ==> !FairRepairConverges(nodes, "m", k)
  {
    steps := OnlyBIsReachable();
    OnlyBIsUneven(Reached(steps).nodes);
    UnevenRunStarves(steps);
  }

  lemma UnevenRunStarves(steps: seq<Step>)
    requires DeletionFree(steps) && forall n :: n in Reached(steps).nodes ==> Positive(Reached(steps).nodes[n])
    requires "m" !in Reached(steps).nodes && !Spread(Reached(steps).nodes, "m")
    ensures Repairables(Reached(steps).nodes)
    ensures forall k: nat :: k >= 2 ==> !FairRepairConverges(Reached(steps).nodes, "m", k)
  {
    RunsAreRepairable(steps);
    UnevenStarves(Reached(steps).nodes);
  }

  lemma UnevenStarves(nodes: Nodes)
    requires Repairables(nodes) && "m" !in nodes && !Spread(nodes, "m")
    ensures forall k: nat :: k >= 2 ==> !FairRepairConverges(nodes, "m", k)
  {
    forall k: nat | k >= 2 ensures !FairRepairConverges(nodes, "m", k) {
      FairRepairConvergesIff(nodes, "m", k);
    }
  }

  /** b registers a member, and a is told. */
  lemma BothTold() returns (steps: seq<Step>)
    ensures DeletionFree(steps)
    ensures var m := Member(BareState("m"), UP, Version("b", Timestamp(1, 0)), 0);
      var (a, b) := (RemoteUpdate(Fresh("a"), m), AddMember(Fresh("b"), BareState("m"), 1));
      Reached(steps).nodes == map["a" := a, "b" := b] && b.members == map["m" := m]
  {
    steps := TwoNodes();
    var add := Local("b", Add(BareState("m"), 1));
    var m := AddStep(Reached(steps), "b", BareState("m"), 1);
    OneMoreStep(steps, add);
    steps := steps + [add];
    OneMoreStep(steps, Deliver("a", m));
    steps := steps + [Deliver("a", m)];
  }

  /** Then it registers another one, and a is not told. */
  lemma HalfTold() returns (steps: seq<Step>)
    ensures DeletionFree(steps) && "a" in Reached(steps).nodes && "b" in Reached(steps).nodes
    ensures var (a, b) := (Reached(steps).nodes["a"], Reached(steps).nodes["b"]);
      && a.priority == {} && b.priority == {}
      && a.members.Keys == {"m"} && b.members.Keys == {"m", "n"} && a.members["m"] == b.members["m"]
  {
    steps := BothTold();
    var more := Local("b", Add(BareState("n"), 2));
    var n := AddStep(Reached(steps), "b", BareState("n"), 2);
    OneMoreStep(steps, more);
    steps := steps + [more];
  }

  /**
   * With a digest limit of 0 or 1, two nodes that repair in turn, a first, never exchange the
   * one member that a lacks, whatever they choose: all they ever ask for is the one both have.
   */
  lemma LimitOfOneCanStarve() returns (steps: seq<Step>)
    ensures DeletionFree(steps) && "a" in Reached(steps).nodes && "b" in Reached(steps).nodes
    ensures var (a, b) := (Reached(steps).nodes["a"], Reached(steps).nodes["b"]);
      && "n" !in a.members && "n" in b.members
      && forall limit, x, xs ::
           limit <= 1 && CanSync(a, b, limit, x) && CanTakeTurns(Turn(Server(b, x), Puller(a, x)), limit, xs) ==>
             var t := AfterTurns(Turn(Server(b, x), Puller(a, x)), xs);
             (if |xs| % 2 == 0 then t.server else t.puller).members == a.members
  {
    steps := HalfTold();
    var (a, b) := (Reached(steps).nodes["a"], Reached(steps).nodes["b"]);
    assert |a.members.Keys| == |a.members| == 1;
    forall limit, x, xs |
      limit <= 1 && CanSync(a, b, limit, x) && CanTakeTurns(Turn(Server(b, x), Puller(a, x)), limit, xs)
      ensures var t := AfterTurns(Turn(Server(b, x), Puller(a, x)), xs);
        (if |xs| % 2 == 0 then t.server else t.puller).members == a.members
    {
      FullDigestSticks(a, b, limit, x);
      TurnsCanStarve(Turn(Server(b, x), Puller(a, x)), limit, xs);
    }
  }
}
