/** Pulling from another node's registry. */
module ReplicaClient {
  import opened Rpc
  import opened RegistryState
  import opened Delivery
  import opened ReplicaRepair
  import opened Registry

  /** What the network does to one call. */
  datatype Fate = Answered | RequestLost | ResponseLost

  /**
   * One pull of caller from server. A call that fails has still spent the caller's digest:
   * the priority ids it carried are no longer queued.
   */
  method Sync(caller: Registry, server: Registry, limit: int, perm: seq<nat>, fate: Fate)
    returns (ghost x: Exchange)
    requires caller.Valid() && server.Valid() && caller.Repr() !! server.Repr()
    requires IsPermutation(perm, |caller.members|)
    modifies caller.Repr(), server`priority
    ensures caller.Valid() && server.Valid()
    ensures CanSync(old(caller.Contents()), old(server.Contents()), limit, x)
    ensures caller.Contents() ==
      if fate.Answered? then Puller(old(caller.Contents()), x) else AfterDigest(old(caller.Contents()), x.digest)
    ensures server.Contents() ==
      if fate.RequestLost? then old(server.Contents()) else Server(old(server.Contents()), x)
  {
    ghost var a, b := caller.Contents(), server.Contents();
    var digest := caller.Digest(limit, perm);
    if fate.RequestLost? {
      x := WouldAnswer(b, digest);
      return;
    }
    var delta := server.Delta(digest);
    x := Exchange(digest, delta);
    if fate.ResponseLost? {
      return;
    }
    ApplyAll(caller, delta);
  }

  method ApplyAll(r: Registry, us: seq<Member>)
    requires r.Valid()
    modifies r.Repr()
    ensures r.Valid() && r.subs == old(r.subs)
    ensures r.Contents() == DeliverAll(old(r.Contents()), us)
  {
    assert us[..0] == [];
    for i := 0 to |us|
      invariant r.Valid() && r.subs == old(r.subs)
      invariant r.Contents() == DeliverAll(old(r.Contents()), us[..i])
    {
      assert us[..i + 1][..i] == us[..i];
      r.RemoteUpdate(us[i]);
    }
    assert us[..|us|] == us;
  }
}
