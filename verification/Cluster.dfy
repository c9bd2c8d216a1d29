/** The other nodes this node knows, and the queues of updates to them. */
module Cluster {
  import opened Rpc
  import opened RegistryState
  import opened Metrics
  import opened PendingQueue
  import opened Subscribers
  import opened JoinBootstrap
  import opened Registry

  /** The cluster-wide gauge has one cell, without labels. */
  ghost function NodesCell(): string {
    Key(LowerValues(map[]))
  }

  lemma NodesCellHasNoName()
    ensures NodesCell() == ""
  {
    assert LowerValues(map[]) == map[] && Enumerates([], map[]);
    KeyFrom([], map[]);
  }

  class Cluster {
    var nodes: set<string>
    var clients: map<string, PendingUpdates>
    const registry: Registry
    const nodesCount: Gauge

    /** No two nodes share a queue, and the gauge counts the nodes and this one. */
    ghost predicate Valid()
      reads this, nodesCount
    {
      && (forall a, b :: a in clients && b in clients && a != b ==> clients[a] != clients[b])
      && (forall a :: a in clients ==> clients[a].limit >= 0)
      && At(nodesCount.values, NodesCell()) == |nodes| + 1
      && nodesCount != registry.membersCount && nodesCount != registry.membersOwned
    }

    constructor (registry: Registry)
      ensures Valid() && this.registry == registry && nodes == {} && clients == map[] && fresh(nodesCount)
    {
      this.registry := registry;
      nodes, clients := {}, map[];
      nodesCount := new Gauge();
      new;
      nodesCount.Set(1, map[]);
    }

    /**
     * OnJoin run on its own; JoinBootstrap lets other steps in between. Nothing happens if
     * the node cannot be reached.
     */
    method OnJoin(id: string, limit: nat, connected: bool) returns (ghost owned: seq<Member>)
      requires Valid() && registry.Valid()
      modifies this, nodesCount, registry`leftNodes
      ensures Valid() && registry.Valid()
      ensures !connected ==>
        nodes == old(nodes) && clients == old(clients) && registry.Contents() == old(registry.Contents())
      ensures connected ==>
        && nodes == old(nodes) + {id}
        && id in clients && fresh(clients[id]) && clients == old(clients)[id := clients[id]]
        && registry.Contents() == RegistryState.OnNodeJoin(old(registry.Contents()), id)
        && OwnedSnapshot(registry.Contents(), owned) && OnePerId(owned)
        && clients[id].Contents() == Queue(limit, Newest(owned, limit + 1), false)
    {
      owned := [];
      if connected {
        AddClient(id, limit);
        owned := SendOwned(id, clients[id]);
        assert [] + owned == owned;
      }
    }

    method SendOwned(id: string, client: PendingUpdates) returns (owned: seq<Member>)
      requires registry.Valid() && client.limit >= 0 && !client.closed && |client.pending| <= client.limit + 1
      modifies client, registry`leftNodes
      ensures registry.Valid()
      ensures registry.Contents() == RegistryState.OnNodeJoin(old(registry.Contents()), id)
      ensures OwnedSnapshot(registry.Contents(), owned) && OnePerId(owned)
      ensures client.Contents() == Queue(client.limit, Newest(old(client.pending) + owned, client.limit + 1), false)
    {
      registry.OnNodeJoin(id);
      owned := registry.OwnedMembers();
      PushesKeepNewest(client.Contents(), owned);
      PushAll(client, owned);
    }

    method AddClient(id: string, limit: nat)
      requires Valid()
      modifies this, nodesCount
      ensures Valid() && nodes == old(nodes) + {id}
      ensures id in clients && clients == old(clients)[id := clients[id]] && fresh(clients[id])
      ensures clients[id].limit == limit && clients[id].Contents() == Queue(limit, [], false)
    {
      var client := new PendingUpdates(limit);
      nodes := nodes + {id};
      clients := clients[id := client];
      nodesCount.Set(|nodes| + 1, map[]);
    }

    method PushAll(client: PendingUpdates, us: seq<Member>)
      requires client.limit >= 0
      modifies client
      ensures client.Contents() == PushedAll(old(client.Contents()), us)
    {
      assert us[..0] == [];
      for i := 0 to |us|
        invariant client.Contents() == PushedAll(old(client.Contents()), us[..i])
      {
        assert us[..i + 1][..i] == us[..i];
        client.Push(us[i]);
      }
      assert us[..|us|] == us;
    }

    method OnLeave(id: string, at: int)
      requires Valid() && registry.Valid()
      modifies this, nodesCount, registry`leftNodes, if id in clients then {clients[id]} else {}
      ensures Valid() && registry.Valid()
      ensures nodes == old(nodes) - {id} && clients == old(clients) - {id}
      ensures id in old(clients) ==> old(clients[id]).Contents() == Closed(old(clients[id].Contents()))
      ensures registry.Contents() == RegistryState.OnNodeLeave(old(registry.Contents()), id, at)
    {
      nodes := nodes - {id};
      if id in clients {
        clients[id].Close();
        clients := clients - {id};
      }
      nodesCount.Set(|nodes| + 1, map[]);
      registry.OnNodeLeave(id, at);
    }

    /** Hands an update to the queue of every other node, once. */
    method OnUpdate(m: Member)
      requires Valid()
      modifies clients.Values
      ensures Valid()
      ensures forall id :: id in clients ==> clients[id].Contents() == Pushed(old(clients[id].Contents()), m)
    {
      var left := clients.Keys;
      while left != {}
        modifies clients.Values
        invariant left <= clients.Keys
        invariant forall id :: id in clients ==>
          clients[id].Contents() ==
            if id in left then old(clients[id].Contents()) else Pushed(old(clients[id].Contents()), m)
        decreases left
      {
        var id :| id in left;
        left := left - {id};
        assert clients[id] in clients.Values;
        clients[id].Push(m);
      }
    }
  }
}
