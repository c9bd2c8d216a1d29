/** Nodes that leave: which of their members are taken over in the end. */
module Departures {
  import opened Rpc
  import opened RegistryState
  import opened FailureDetector
  import opened Lifecycle

  /** A departure is recorded exactly if the node owns members at that moment, or was recorded before. */
  lemma DepartureIsRecordedIfItOwns(s: State, node: string, at: int)
    ensures var t := OnNodeLeave(s, node, at);
      && (node in t.leftNodes <==> node in s.leftNodes || OwnedBy(s, node) != {})
      && (node in t.leftNodes ==> t.leftNodes[node] == if OwnedBy(s, node) != {} then at else s.leftNodes[node])
  {
  }

  /** The events tell nothing of the node. */
  ghost predicate SilentOn(es: seq<Event>, node: string) {
    forall e :: e in es ==> e != NodeJoin(node) && !(e.NodeLeave? && e.node == node)
  }

  lemma RecordOfEvent(s: State, e: Event, node: string)
    requires e != NodeJoin(node) && !(e.NodeLeave? && e.node == node)
    ensures var t := Apply(s, e);
      && t.cfg == s.cfg && (node in t.leftNodes <==> node in s.leftNodes)
      && (node in t.leftNodes ==> t.leftNodes[node] == s.leftNodes[node])
  {
    match e
    case Visited(id, timestamp, now) => var effect := VisitEffect(s, id, timestamp, now);
    case _ => var effect := EventEffect(s, e);
  }

  lemma {:induction false} RecordIsKept(s: State, es: seq<Event>, node: string)
    requires SilentOn(es, node)
    ensures var t := Run(s, es);
      && t.cfg == s.cfg && (node in t.leftNodes <==> node in s.leftNodes)
      && (node in t.leftNodes ==> t.leftNodes[node] == s.leftNodes[node])
  {
    if es != [] {
      RecordIsKept(s, es[..|es| - 1], node);
      RecordOfEvent(Run(s, es[..|es| - 1]), es[|es| - 1], node);
    }
  }

  /**
   * A node leaves, and neither joins nor leaves again. A sweep, any run later, takes over a
   * member then held in the node's name if and only if the node owned some member here when it
   * left, or was recorded before, that is longer ago than the heartbeat timeout, and the
   * clock read for the member is past its version. Otherwise the member stays as it is.
   */
  lemma TakeoverIffRecorded(s: State, node: string, at: int, es: seq<Event>, order: seq<string>, timestamp: int,
                            nows: seq<int>, i: nat)
    requires WellFormed(s) && node != s.cfg.localId && SilentOn(es, node)
    requires var t := Run(OnNodeLeave(s, node, at), es);
      && IsSweepOrder(t, order) && |nows| == |order| && i < |order|
      && t.members[order[i]].version.owner == node
      && !(t.members[order[i]].liveness == LEFT && timestamp > t.members[order[i]].expiry)
    ensures var t := Run(OnNodeLeave(s, node, at), es); var r := Sweep(t, order, timestamp, nows);
      && (r.Owns(order[i]) <==>
            && nows[i] > t.members[order[i]].version.ts.ms
            && if OwnedBy(s, node) != {} then timestamp - at > s.cfg.heartbeat
               else node in s.leftNodes && timestamp - s.leftNodes[node] > s.cfg.heartbeat)
      && (!r.Owns(order[i]) ==> Held(r, order[i]) == Held(t, order[i]))
  {
    var left := OnNodeLeave(s, node, at);
    var t := Run(left, es);
    WellFormedDepends(s, left);
    RunKeepsWellFormed(left, es);
    RecordIsKept(left, es, node);
    DepartureIsRecordedIfItOwns(s, node, at);
    SweepFrame(t, order, timestamp, nows);
    var c := SweepAt(t, order, timestamp, nows, i);
  }

  // ----- Nodes that come back -----

  /** A node that joins is recorded no longer, and nothing else changes. */
  lemma JoinForgetsDeparture(s: State, node: string)
    ensures var t := OnNodeJoin(s, node);
      && node !in t.leftNodes
      && (forall other :: other != node ==>
            (other in t.leftNodes <==> other in s.leftNodes)
            && (other in t.leftNodes ==> t.leftNodes[other] == s.leftNodes[other]))
      && t.members == s.members && t.lastSeen == s.lastSeen && t.last == s.last && t.log == s.log
      && t.priority == s.priority && t.cfg == s.cfg
  {
  }

  /** Over any run after a node has joined, while it does not leave again, no sweep takes over a member in its name. */
  lemma ReturnedNodeKeepsItsMembers(s: State, node: string, es: seq<Event>, order: seq<string>, timestamp: int,
                                    nows: seq<int>, id: string)
    requires WellFormed(s) && node != s.cfg.localId
    requires forall e :: e in es && e.NodeLeave? ==> e.node != node
    requires var t := Run(OnNodeJoin(s, node), es);
      && IsSweepOrder(t, order) && |nows| == |order| && id in t.members && t.members[id].version.owner == node
    ensures var t := Run(OnNodeJoin(s, node), es);
      Held(Sweep(t, order, timestamp, nows), id) ==
        if t.members[id].liveness == LEFT && timestamp > t.members[id].expiry then None else Some(t.members[id])
  {
    var joined := OnNodeJoin(s, node);
    WellFormedDepends(s, joined);
    RunKeepsWellFormed(joined, es);
    JoinForgetsDeparture(s, node);
    StaysUnrecorded(joined, es, node);
    OthersOnlyLoseTombstones(Run(joined, es), order, timestamp, nows, id);
  }

  lemma {:induction false} StaysUnrecorded(s: State, es: seq<Event>, node: string)
    requires node !in s.leftNodes && forall e :: e in es && e.NodeLeave? ==> e.node != node
    ensures node !in Run(s, es).leftNodes && Run(s, es).cfg == s.cfg
  {
    if es != [] {
      StaysUnrecorded(s, es[..|es| - 1], node);
      LeftNodesOfEvent(Run(s, es[..|es| - 1]), es[|es| - 1], node);
      var effect := EventEffect(Run(s, es[..|es| - 1]), es[|es| - 1]);
    }
  }

  // ----- Orphans -----

  /** Another node is the owner of id, and is not recorded as having left. */
  predicate Orphan(s: State, id: string) {
    && id != s.cfg.localId && id in s.members && !s.Owns(id)
    && s.members[id].liveness != LEFT && s.members[id].version.owner !in s.leftNodes
  }

  /** A member that arrives from a node that left while owning nothing here is an orphan. */
  lemma LateArrivalIsOrphan(s: State, node: string, at: int, u: Member)
    requires WellFormed(s) && OwnedBy(s, node) == {} && node !in s.leftNodes && node != s.cfg.localId
    requires u.version.owner == node && u.state.id != s.cfg.localId && u.liveness != LEFT
    requires Accepts(s, u.state.id, u.version)
    ensures Orphan(RemoteUpdate(OnNodeLeave(s, node, at), u), u.state.id)
  {
  }

  /**
   * And an orphan is never taken over: no sweep of any run marks it down, whatever the time,
   * unless its owner is reported gone again.
   */
  lemma {:induction false} OrphanIsNeverTakenOver(s: State, es: seq<Event>, id: string)
    requires WellFormed(s) && Orphan(s, id) && LeftAlone(s, es, id)
    requires forall e :: e in es && e.NodeLeave? ==> e.node != s.members[id].version.owner
    ensures WellFormed(Run(s, es)) && Orphan(Run(s, es), id) && Held(Run(s, es), id) == Held(s, id)
  {
    if es != [] {
      var init, e := es[..|es| - 1], es[|es| - 1];
      OrphanIsNeverTakenOver(s, init, id);
      OrphanAfterEvent(Run(s, init), e, id);
    }
  }

  lemma OrphanAfterEvent(s: State, e: Event, id: string)
    requires WellFormed(s) && Orphan(s, id) && LeavesAlone(s, e, id)
    requires e.NodeLeave? ==> e.node != s.members[id].version.owner
    ensures WellFormed(Apply(s, e)) && Orphan(Apply(s, e), id) && Held(Apply(s, e), id) == Held(s, id)
  {
    var effect := EventEffect(s, e);
    EventKeepsWellFormed(s, e);
    if !Concerns(e, id) {
      UnconcernedEvent(s, e, id);
    }
    LeftNodesOfEvent(s, e, s.members[id].version.owner);
  }

  lemma LeftNodesOfEvent(s: State, e: Event, node: string)
    requires node !in s.leftNodes && (e.NodeLeave? ==> e.node != node)
    ensures node !in Apply(s, e).leftNodes
  {
  }
}
