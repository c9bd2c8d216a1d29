/** The messages that nodes and clients exchange, as values. */
module Rpc {

  datatype Option<+T> = None | Some(value: T)

  datatype Liveness = UP | DOWN | LEFT

  datatype Locality = Locality(region: string, zone: string)

  datatype MemberState = MemberState(
    id: string,
    status: string,
    service: string,
    locality: Option<Locality>,
    started: int,
    revision: string,
    metadata: map<string, string>)

  /** Unix milliseconds, and a counter ordering the versions of one millisecond. */
  datatype Timestamp = Timestamp(ms: int, counter: nat)

  datatype Version = Version(owner: string, ts: Timestamp)

  datatype Member = Member(state: MemberState, liveness: Liveness, version: Version, expiry: int)

  /** A state holding nothing but an id, as sent for a member that is gone. */
  function BareState(id: string): MemberState {
    MemberState(id, "", "", None, 0, "", map[])
  }

  /** The same version of the same member, up to the expiry that repair drops. */
  predicate Same(a: Member, b: Member) {
    a.state == b.state && a.liveness == b.liveness && a.version == b.version
  }

  /** The copy that replica repair sends. */
  function CopyMember(m: Member): (c: Member)
    ensures Same(c, m) && c.expiry == 0
    ensures forall n :: Same(n, m) && n.expiry == 0 ==> n == c
  {
    Member(m.state, m.liveness, m.version, 0)
  }
}
