# Fuddle's replicated registry, modelled and proved in Dafny

Every Fuddle node keeps a registry of members. Each member has one owner, the node
its client is connected to; owners issue versions, updates are forwarded to the other
nodes through bounded queues, and whatever gets lost on the way is repaired by nodes
pulling from each other. A failure detector on every node marks silent members DOWN, then
LEFT, then removes them, and takes over the members of nodes that left. This project
models that protocol and proves what it guarantees.

`dafny verify dfyconfig.toml` checks all of it.

## How it is laid out

| module | what it models |
|---|---|
| Rpc, Versions | messages as values, and the order that settles conflicts |
| RegistryState | the registry as a value, each operation as a function, runs of events, invariants |
| ClientOperations, Provenance | what clients' operations come to, and what each event may change and tells |
| Delivery | batches of remote updates: what arrival order can change |
| FailureDetector, Departures, Competition | the sweep, takeover, nodes that leave, nodes that compete for a member |
| Lifecycle, LastContact, Tombstones | timing over runs, heartbeats, lost contact, how long tombstones guard |
| ReplicaRepair | digest and delta, one sync, three rounds, priority ids |
| RepairSchedules, FairRepair, ClusterRepair | schedules of pulls among any number of nodes: in turn, and fair |
| BoundedRepair | digests full of priority ids |
| Subscribers | catch-up lists, and the views that notifications build |
| ClusterProtocol | any number of nodes over an unreliable network |
| ReachableFailures | small runs that end in the failures the other modules give conditions for |
| PendingQueue, JoinBootstrap | the drop-oldest queue, and joining while updates go on |
| Metrics, MemberCounts | labelled gauges, and that they count the members |
| Registry, ReplicaClient, Cluster | the source's classes, updated in place, method by method equal to the functions above |

The functions of RegistryState say what an operation does to the whole state of a registry
(members, last seen times, left nodes, priority ids, last version, and every notification
made). The methods of `Registry.Registry` are proved to do exactly that to their fields,
in any order that Go may range over a map, and also to keep both gauges exact and to call
each subscription with exactly the notifications made. All results over runs are then
lemmas about the functions. A sweep is a sequence of `Visited` events in a run
(`FailureDetector.SweepIsRun`).

What comes from outside is a parameter. An operation that reads the clock twice in the source
takes two readings: `at` or `timestamp` for its own purposes, `now` for the version it
issues (registry.go:301-302 and 396-399). The random permutation of a digest, the fate of a
call and the order of a map's keys are arbitrary. Version uniqueness needs each node's
version clock not to go back (`Timely`): 100, 50, 100 would issue (100, 0) twice (`ClientOperations.ClockGoingBackReissues`).

## What does not hold, and when

* docs/architecture/registry/replication.md:55-56 says that the order of updates does not matter. Two owners
  can claim the same millisecond, and then the first to arrive stays. `Delivery.OrderInsensitiveIffNoTopTie`
  says exactly when order matters, and `ReplicaRepair.ThreeRoundsConverge` exactly when repair of
  two nodes fails to converge; `ReachableFailures` has inputs for both. Such a tie ends with the next version
  of a later millisecond (`Competition.ReissueSettlesTieIff`).
* Repair need not converge even when every node keeps pulling from every other one and nothing is
  contested: a node asks for an id it has not heard of only in its next digest, whoever gets that
  (replicarepair.go:20-37), so that the question can miss the nodes that have the answer for ever.
  `ClusterRepair.FairRepairConvergesIff` says exactly when fair passes suffice, for two or more of them, and
  `ClusterRepair.OneFairPassConvergesIff` for one; `ReachableFailures.StarvationIsReachable` is a run where they
  do not. Three pulls in turn between every two nodes always do (`ClusterRepair.RepairInTurnsConverges`).
* All of these need digests that no limit cuts short. The cluster never sets a limit (cluster.go:62-68) and
  the client's own is 0 (pkg/registry/client/options.go:16-22), which acts as 1, so that as shipped a digest
  has one id. Under a limit the priority ids can fill every digest: two nodes that pull in turn then
  pass the same ids back and forth, also ids on which they agree (replicarepair.go:79-84), and never
  get to the others (`BoundedRepair.TurnsCanStarve`, `ReachableFailures.LimitOfOneCanStarve`). What holds
  under every limit is `ReplicaRepair.SyncsUseUpWhatIsBehind`.
* A node's own copy is the newest in its name only until the node's sweep removes an expired tombstone of a
  member it issued; `ClusterProtocol.DominanceEndsExactlyWhenDropped` gives both directions and
  `ReachableFailures.DominanceCanEnd` a run.
* docs/architecture/registry/replication.md:98-99 says that expired LEFT updates are
  discarded on receipt, so that members are not resurrected. The code does not do so
  (registry.go:344-391), and copies made by repair have no expiry at all (registry.go:688-694).
  `Tombstones.TombstoneGuardsUntilExpiry` says exactly when an older copy brings a member back.
* docs/architecture/registry/replication.md:149-152 says that updates older than the last
  contact with a member are discarded. The code compares with the held version, which heartbeats do not
  move: `LastContact.ContactIsNotHonoured` is a run in which ownership is lost, and
  `LastContact.ContactKeepsOwnershipIffNotOvertaken` says exactly when it is kept.
* docs/architecture/registry/replication.md:131-137 says that all members of a node that is gone are
  taken over. A node that owns nothing here when it leaves is not recorded, and members of it that arrive
  later stay with it: `Departures.TakeoverIffRecorded` says exactly which are taken over, any run later, and
  `ReachableFailures.OrphanIsReachable` is a run to one that is not.

## Model

| member | source | states |
|---|---|---|
| `Versions.CompareVersions` | pkg/registry/registry/registry.go:659-686 | Zero only for equal versions; lexicographic on (timestamp, counter) for one owner; between owners only a strictly later millisecond replaces, an equal one keeps what is held. |
| `Versions.CompareTimestamps` | pkg/registry/registry/replicarepair.go:102-116 | Decides the lexicographic order in both directions, and zero means equal. |
| `Versions.NewerIsStrictOrder` | pkg/registry/registry/registry.go:659-686 | Acceptance is irreflexive, asymmetric and transitive; two versions neither of which is at least the other are exactly a tie of two owners in one millisecond; what is newer is also later. |
| `Versions.IncomparabilityIsNotTransitive` | pkg/registry/registry/registry.go:659-686 | The order is not a weak order: a is incomparable with b, b with c, and yet c is newer than a. |
| `RegistryState.EventEffect` | pkg/registry/registry/registry.go:241-391 | Every operation and every visit of the failure detector does one of five things: nothing, burn a version, issue a version of its own at its clock reading, accept the delivered update, or remove a LEFT member on a visit; with the exact members, lastSeen keys, last version and notifications of each. |
| `RegistryState.UpdateMemberEffect` | pkg/registry/registry/registry.go:393-446 | An update of one's own is refused for the local member, burns a version when that version is not newer than the held one, and otherwise is stored, stamped, seen and announced as owned. |
| `RegistryState.VisitEffect` | pkg/registry/registry/failuredetector.go:25-149 | A visit never changes a member's state, never accepts anything, removes only the visited id, issues only at its own clock reading, and leaves left nodes and priority ids alone. |
| `RegistryState.NewRegistryIsWellFormed` | pkg/registry/registry/registry.go:63-103 | A new registry satisfies both invariants, with or without a local member. |
| `RegistryState.EventKeepsWellFormed` | pkg/registry/registry/registry.go:605-654 | Kept by every event: members sit under their own ids, lastSeen has exactly the locally owned ids, the local member is UP and owned here. |
| `RegistryState.EventKeepsIssuedUpTo` | pkg/registry/registry/registry.go:458-473 | Kept by every event whose clock is not behind the last version: no copy held in the local name is past the last version issued. |
| `RegistryState.LocalMemberIsFixed` | pkg/registry/registry/registry.go:344-408 | No event adds, changes or removes the local member. |
| `ClientOperations.NewRegistryHoldsItsMember` | pkg/registry/registry/registry.go:63-103 | A new registry holds its own member, if any, with the state it was given, up, without expiry, seen now, and nothing else. |
| `ClientOperations.NextVersionIsTheLeast` | pkg/registry/registry/registry.go:458-473 | While the clock does not go back, the next version is the least of this node and millisecond that is past the last. |
| `ClientOperations.ClockGoingBackReissues` | pkg/registry/registry/registry.go:458-473 | Otherwise versions are reused: registrations read at 100, 50 and 100 put two members at one version. |
| `Provenance.CopiesChangeOnlySo` | pkg/registry/registry/registry.go:282-446 | A copy changes only by an event that names its id, and only to what that event may make of it: a client's state, UP and without expiry; the held state, LEFT, for a removal; the update delivered; or one step of the failure detector; each with the owner and millisecond of its version. |
| `Provenance.MembersAppearOnlySo` | pkg/registry/registry/registry.go:282-391 | A member that was not held can only come by a registration or heartbeat of it, with that state, UP and without expiry, or by an accepted update. |
| `Provenance.StatesAreBrought` | pkg/registry/registry/registry.go:282-446 | Over any run, every state held was held before, registered by a client or delivered in an update. |
| `Registry.Registry.constructor` | pkg/registry/registry/registry.go:63-103 | Builds the specified initial state, gauges included, without subscriptions. |
| `Registry.Registry.NextVersionLocked` | pkg/registry/registry/registry.go:458-473 | Returns and records the specified next version: counter 0 in a new millisecond, one more in the same. |
| `Registry.Registry.SetMemberLocked` | pkg/registry/registry/registry.go:605-636 | Stores the member, adds or drops its lastSeen entry by owner, and keeps every cell of both gauges equal to the number of members it counts. |
| `Registry.Registry.DeleteMemberLocked` | pkg/registry/registry/registry.go:638-654 | Removes the member and its lastSeen entry, and keeps every cell of both gauges exact. |
| `Registry.Registry.NotifySubscribersLocked` | pkg/registry/registry/registry.go:448-456 | Whatever order subscriptions are ranged over, each is called once, except owner-only ones for an update that is not an owner's. |
| `Registry.Registry.UpdateMemberLocked` | pkg/registry/registry/registry.go:393-446 | Reaches the specified state, keeps gauges exact, and each subscription has received exactly the notifications made, in order. |
| `Registry.Registry.AddMember` | pkg/registry/registry/registry.go:282-287 | Reaches the specified state; invariant, gauges and subscriptions kept. |
| `Registry.Registry.MemberHeartbeat` | pkg/registry/registry/registry.go:294-313 | Only refreshes lastSeen of an owned UP member, and otherwise takes it (back); invariant, gauges and subscriptions kept. |
| `Registry.Registry.RemoveMember` | pkg/registry/registry/registry.go:320-341 | Unknown ids are ignored, others become LEFT with an expiry; invariant, gauges and subscriptions kept. |
| `Registry.Registry.RemoteUpdate` | pkg/registry/registry/registry.go:344-391 | Discards updates of the local id, in the local name or not newer; stores others as sent and tells owner-only subscriptions exactly when ownership is lost. |
| `Registry.Registry.OnNodeJoin` | pkg/registry/registry/registry.go:241-248 | Forgets the departure of the node, and nothing else changes. |
| `Registry.Registry.OnNodeLeave` | pkg/registry/registry/registry.go:250-276 | Records the departure exactly if the node owns members here. |
| `Registry.Registry.MembersForOwnerLocked` | pkg/registry/registry/registry.go:475-483 | Counts the members that the node owns, whatever order they are ranged over. |
| `Registry.Registry.OwnedMembers` | pkg/registry/registry/registry.go:157-168 | Returns all and only the locally owned members, each once. |
| `Registry.Registry.UpdateMemberLivenessLocked` | pkg/registry/registry/failuredetector.go:25-37 | One visit reaches the specified state; the local member and unknown ids are skipped. |
| `Registry.Registry.UpdateOwnedMemberLivenessLocked` | pkg/registry/registry/failuredetector.go:41-92 | UP, DOWN, LEFT and removed, each after its own timeout; gauges and subscriptions kept. |
| `Registry.Registry.UpdateRemoteMemberLivenessLocked` | pkg/registry/registry/failuredetector.go:94-149 | Removes expired tombstones and takes over from nodes long gone, keeping liveness and expiry of members not UP; gauges and subscriptions kept. |
| `Registry.Registry.UpdateLiveness` | pkg/registry/registry/failuredetector.go:16-23 | Ranging in any order over a map that its own visits change, reaches the state of a sweep that visits each member present at the start once. |
| `Registry.Registry.SubscribeLocal` | pkg/registry/registry/registry.go:187-203 | Adds an owner-only subscription that has received nothing. |
| `Registry.Registry.Subscribe` | pkg/registry/registry/registry.go:206-232 | The callback has been called with exactly a catch-up list for what the subscriber knows. |
| `Registry.Registry.Unsubscribe` | pkg/registry/registry/registry.go:226-231 | The subscription is removed, and nothing else changes. |
| `Registry.Registry.OwnerOnlyUpdatesLocked` | pkg/registry/registry/registry.go:496-552 | The list built from two maps in any order is exactly the owner-only catch-up list, each id once. |
| `Registry.Registry.AllUpdatesLocked` | pkg/registry/registry/registry.go:554-603 | The list built from two maps in any order is exactly the catch-up list for all members, each id once. |
| `Registry.Registry.UpdatesLocked` | pkg/registry/registry/registry.go:485-494 | The catch-up list of the kind asked for. |
| `Registry.Registry.Digest` | pkg/registry/registry/replicarepair.go:14-56 | For every limit, map order and permutation: min(max(limit, 1), number of priority and member ids) entries, priority ids first, each with the stored timestamp or zero; the priority ids used are no longer queued. |
| `Registry.Registry.TakePriorityLocked` | pkg/registry/registry/replicarepair.go:21-38 | Moves priority ids into the digest until it is full or none are left; a limit below 1 still takes one. |
| `Registry.Registry.FillLocked` | pkg/registry/registry/replicarepair.go:40-53 | Adds members until the digest is full or has them all. |
| `Registry.Registry.Delta` | pkg/registry/registry/replicarepair.go:63-91 | Splits the digest's ids: a copy of each member that is newer than the digest says, each once, and all others queued as priority ids. |
| `Registry.ShuffleStrings` | pkg/registry/registry/replicarepair.go:93-100 | Puts each string where the permutation says, and loses none. |
| `MemberCounts.CountOut` | pkg/registry/registry/registry.go:605-654 | Decrementing the cells of a member's old liveness and owner makes every cell right for the map without it. |
| `MemberCounts.CountIn` | pkg/registry/registry/registry.go:605-636 | Incrementing the cells of a member's new liveness and owner makes every cell right for the map with it. |
| `MemberCounts.CellKeysAreInjective` | pkg/registry/registry/registry.go:605-654 | The cells of one gauge have the same key exactly if they are the same cell. |
| `MemberCounts.CellKeysByName` | pkg/registry/registry/registry.go:605-654 | The keys of the cells written out, with the statuses up, down and left. |
| `MemberCounts.CellsByName` | pkg/registry/registry/registry.go:605-654 | Gauges that agree with the members hold, under each such key, the number of members of that status and, up to case, owner, or of that status and owned here. |
| `Registry.Registry.GaugesCountMembers` | pkg/registry/registry/registry.go:605-654 | So both gauges of a registry, after every operation, by the names of their cells. |
| `Metrics.LabelsToString` | pkg/metrics/metrics.go:134-150 | Whatever order the labels are ranged over, returns the one key of the labels. |
| `Metrics.LabelsToLowercase` | pkg/metrics/metrics.go:152-156 | Every value lowered, no label added or lost, while the map is ranged over and changed. |
| `Metrics.LowerIsExact` | pkg/metrics/metrics.go:152-156 | Capitals become the small letters of the same place in the alphabet, all else stays; UP, DOWN and LEFT become up, down and left. |
| `Metrics.LabelOrderIsIrrelevant` | pkg/metrics/metrics.go:134-150 | Two enumerations of the same labels, sorted, give the same key. |
| `Metrics.KeyOfStatusAndOwner` | pkg/metrics/metrics.go:134-150 | The key of an owner and a status, written out. |
| `Metrics.KeysAreInjective` | pkg/metrics/metrics.go:134-150 | Two pairs of owner and status share a key only if equal, even if the owner contains commas or equals signs, as long as the statuses contain no equals sign. |
| `Metrics.StatusKeysAreInjective` | pkg/metrics/metrics.go:134-150 | Two statuses share a key only if equal. |
| `Metrics.Gauge.Inc` | pkg/metrics/metrics.go:96-104 | Adds one to the cell of the lowered labels, and to no other. |
| `Metrics.Gauge.Dec` | pkg/metrics/metrics.go:106-114 | Takes one from the cell of the lowered labels, and from no other. |
| `Metrics.Gauge.Set` | pkg/metrics/metrics.go:116-124 | Sets the cell of the lowered labels, and no other. |
| `Metrics.Gauge.Value` | pkg/metrics/metrics.go:126-128 | Reads the cell of the labels as given, without lowering them. |
| `Delivery.DeliveryOutcome` | pkg/registry/registry/registry.go:344-391 | After any batch of updates, each id holds its old copy or a candidate newer than it, and no candidate could still replace it. |
| `Delivery.DeliveryFrame` | pkg/registry/registry/registry.go:344-391 | Deliveries keep the invariant, change no version counter, priority id or left node, and only ever drop lastSeen entries. |
| `Delivery.DeliveryReachesLatestMillisecond` | pkg/registry/registry/registry.go:344-391 | Whatever order and repetition, each id ends at the latest millisecond among its candidates and the old copy, ties included. |
| `Delivery.OrderInsensitiveIffNoTopTie` | pkg/registry/registry/registry.go:659-686 | All orders and repetitions of a set of updates give the same registry if and only if no id has two owners at its latest millisecond, later than the copy held before. |
| `Delivery.ReorderingAgrees` | pkg/registry/registry/registry.go:344-391 | Without such a tie, two sequences of the same updates leave the same copies, lastSeen, versions and priority ids. |
| `Delivery.FirstOfTieWins` | pkg/registry/registry/registry.go:659-686 | With such a tie, the owner is that of whichever tied update came first: the counterexample to order insensitivity. |
| `Delivery.RedeliveryIsIdempotent` | pkg/registry/registry/registry.go:344-391 | Delivering an update again changes nothing, not even the notifications. |
| `Delivery.RepairedCopyIsTakenAlike` | pkg/registry/registry/registry.go:688-694 | A registry takes a repaired copy exactly when it takes the member itself, with the same result but for that member's expiry, which becomes 0. |
| `ReachableFailures.OrderCanMatter` | pkg/registry/registry/registry.go:659-686 | Two concrete updates which a fresh registry keeps in either order of arrival, whichever comes first. |
| `FailureDetector.VisitCarriesOutDecision` | pkg/registry/registry/failuredetector.go:41-149 | A visit does what an independent decision table over the member's own entries says, and nothing else to it; versions are burned exactly on attempts to reissue. |
| `FailureDetector.VisitLeavesOthersAlone` | pkg/registry/registry/failuredetector.go:25-149 | A visit leaves every other id, its lastSeen entry, left nodes and priority ids as they were. |
| `FailureDetector.SweepAt` | pkg/registry/registry/failuredetector.go:16-23 | In a sweep each member is treated as if it were alone, by its decision at the start of the sweep and the clock reading of its own visit. |
| `FailureDetector.SweepLast` | pkg/registry/registry/failuredetector.go:16-149 | The last version after a sweep counts the reissues attempted. |
| `FailureDetector.SweepIsRun` | pkg/registry/registry/failuredetector.go:16-23 | A sweep is a run of visits, so every result about runs covers sweeps. |
| `FailureDetector.SweepOrderIsIrrelevant` | pkg/registry/registry/failuredetector.go:16-37 | With one clock reading, any two iteration orders leave the same ids, state, liveness, expiry, owner, millisecond, lastSeen and last version; only counters may be handed out differently. |
| `FailureDetector.MonotonicClockIsFresh` | pkg/registry/registry/registry.go:458-473 | The condition of that lemma holds whenever the clock is not behind the last version. |
| `FailureDetector.OneTransitionPerSweep` | pkg/registry/registry/failuredetector.go:41-149 | A member makes at most one step of UP, DOWN, LEFT, removed per sweep, with the right expiry; its state never changes; the local member makes none. |
| `FailureDetector.TakeoverAt` | pkg/registry/registry/failuredetector.go:94-149 | A member of a node long gone is taken over exactly when the clock read for it is past its version; a UP member starts its countdown, no running countdown is restarted. |
| `FailureDetector.TakeoverIsComplete` | pkg/registry/registry/failuredetector.go:94-149 | With the clock past those versions, a sweep leaves nothing owned by a node long gone. |
| `Departures.TakeoverIffRecorded` | pkg/registry/registry/failuredetector.go:94-149 | A node leaves and is not heard of again. A sweep, any run later, takes over a member then held in its name (expired tombstones aside) if and only if the node owned something here when it left, or was recorded before, that is longer ago than the heartbeat timeout, and the clock read is past the member's version; otherwise the member stays as it is. |
| `Departures.RecordIsKept` | pkg/registry/registry/registry.go:241-276 | A record of a departure, or its absence, lasts over any run that tells nothing of the node. |
| `Departures.JoinForgetsDeparture` | pkg/registry/registry/registry.go:241-248 | A node that joins is recorded as left no longer; other records and all else stay. |
| `Departures.ReturnedNodeKeepsItsMembers` | pkg/registry/registry/failuredetector.go:94-113 | Over any run after a node has joined, while it does not leave again, no sweep takes over a member held in its name: sweeps only remove its expired tombstones. |
| `FailureDetector.OthersOnlyLoseTombstones` | pkg/registry/registry/failuredetector.go:94-113 | Members of nodes not recorded as left change only by losing an expired tombstone. |
| `Competition.CompetingClaimsSettleIff` | pkg/registry/registry/failuredetector.go:115-149 | Two nodes that each issue a version of a member and are sent each other's agree, on the later one, if and only if the versions are of different milliseconds; otherwise each keeps its own. |
| `Competition.ReissueSettlesTieIff` | pkg/registry/registry/replicarepair.go:71-77 | Two nodes tied on a member stop being tied when one issues a new version and the other is sent it, if and only if that version is of a later millisecond. |
| `Competition.TakeoverIsClaim` | pkg/registry/registry/failuredetector.go:115-149 | A visit to a member of a node long gone is such a claim exactly if the clock is past the member's version. |
| `Competition.ExpiryIsClaim` | pkg/registry/registry/failuredetector.go:63-78 | So is a visit to an owned DOWN member past its expiry. |
| `FailureDetector.SweepFrame` | pkg/registry/registry/failuredetector.go:16-37 | A sweep keeps the invariant, adds no id, and leaves left nodes and priority ids alone. |
| `Lifecycle.UnattendedStaysOnSchedule` | pkg/registry/registry/failuredetector.go:41-92 | At every point of a run in which nobody attends to an owned member, liveness, expiry and last sweep are within the bounds its last contact and the sweep interval give. |
| `Lifecycle.UnattendedMemberIsRemovedInTime` | pkg/registry/registry/failuredetector.go:41-92 | Last seen at L, first sweep by L+H+P, later ones at most P apart: removal comes at a sweep after L+H+R+T and no later than L+H+R+T+3P, and after a sweep past L+H+R+T+2P the member is gone. |
| `Lifecycle.PassesThroughEveryStage` | pkg/registry/registry/failuredetector.go:41-92 | A run that takes an unattended member from one stage to a later one passes through every stage between: it is removed only after DOWN and then LEFT. |
| `Lifecycle.StageAdvancesByOne` | pkg/registry/registry/failuredetector.go:41-149 | No single event skips a stage or goes back, unless a client or another node intervenes. |
| `Lifecycle.UnconcernedEvent` | pkg/registry/registry/registry.go:393-446 | An event that does not name an id leaves its copy and its lastSeen entry as they were. |
| `Lifecycle.HeartbeatsWinBackOwnership` | pkg/registry/registry/registry.go:294-313 | A competing version is ahead of the clock up to some bound and nothing later arrives: a client heartbeating at most p apart owns its member here, UP, at a heartbeat no later than bound plus p, whatever sweeps, removals, joins and leaves do meanwhile. |
| `Lifecycle.HeartbeatPastBoundWins` | pkg/registry/registry/registry.go:294-313 | The first heartbeat past the bound leaves the member UP and owned here, and if it takes the member, with the client's state and without expiry. |
| `Lifecycle.AttendedMemberIsLeftAlone` | pkg/registry/registry/registry.go:303-312 | While heartbeats keep up with the sweeps, the member's copy and version never change: heartbeats only refresh lastSeen. |
| `LastContact.OlderThanContactIsDiscardedIff` | pkg/registry/registry/registry.go:344-391 | An update from elsewhere of an owned member, older than the last contact, is discarded if and only if it is not later than the millisecond of the held version; otherwise ownership is lost to it. |
| `LastContact.ContactKeepsOwnershipIffNotOvertaken` | pkg/registry/registry/registry.go:294-313 | Over any run of heartbeats, timely sweeps and updates older than the last contact, a member stays owned here and up at every point if and only if none of those updates is later than the version held at the start. |
| `LastContact.ContactIsNotHonoured` | pkg/registry/registry/registry.go:294-313 | Added at 100, heard from at 300, updated by another node at 200: the member is lost. |
| `LastContact.NotOvertakenIsKept` | pkg/registry/registry/registry.go:344-391 | Over such a run without such an update the copy never changes. |
| `LastContact.OvertakenIsLost` | pkg/registry/registry/registry.go:344-391 | And with one there is a point at which the member is not owned and up. |
| `ClientOperations.RegistrationTakesOwnership` | pkg/registry/registry/registry.go:282-287 | Registering issues a new version with the state given, up, owned, seen now and without expiry, and announces it once, exactly if no other owner's version is at or past the clock, members owned and up included; otherwise no member changes and nothing is announced. |
| `ClientOperations.RemovingUnknownIsIgnored` | pkg/registry/registry/registry.go:329-333 | Removing a member that is not held changes nothing: no member, no version, no notification. |
| `ClientOperations.HeartbeatIsSeen` | pkg/registry/registry/registry.go:294-313 | A heartbeat of a member owned and up sets when it was last seen to the reading of the heartbeat and changes nothing else; any other is a registration. |
| `ClientOperations.HeartbeatStartsCountdown` | pkg/registry/registry/registry.go:294-313 | A heartbeat starts the member's time unseen, at the heartbeat's reading if it was owned and up, and otherwise at that of the version issued. |
| `ClientOperations.FirstLateSweepMarksDown` | pkg/registry/registry/failuredetector.go:41-63 | A member last seen at L is unchanged by all sweeps up to L+H, over any run that leaves it to them, and the next sweep marks it DOWN, with expiry R later, if and only if it is past L+H. |
| `ClientOperations.RemovedInTimeAfterLastHeartbeat` | pkg/registry/registry/failuredetector.go:41-92 | After any run, the removal window L+H+R+T to L+H+R+T+3P counts from the last heartbeat of a member owned and up. |
| `Departures.OrphanIsNeverTakenOver` | pkg/registry/registry/failuredetector.go:94-113 | A member whose owner is not recorded as left, and not reported again, is held unchanged over any run that leaves it alone, whatever the clock: no sweep ever takes it over. |
| `Departures.LateArrivalIsOrphan` | pkg/registry/registry/registry.go:250-276 | A member that arrives from a node which left while it owned nothing here is such a member. |
| `ReachableFailures.OrphanIsReachable` | pkg/registry/registry/registry.go:250-276 | Two nodes, a registration, a departure and a delivery that get there. |
| `Tombstones.TombstoneGuardsUntilExpiry` | pkg/registry/registry/failuredetector.go:94-107 | After any run in which no client brings the member back, no sweep is past the expiry and no update replaces the tombstone, one more sweep and an older copy leave the member LEFT if and only if that sweep was not past the expiry, whoever owns the tombstone and whether or not that node has left. |
| `Tombstones.TombstoneGuardsEveryRun` | pkg/registry/registry/failuredetector.go:94-149 | Over any such run the member stays LEFT with the same state and expiry, at the tombstone's version or a newer one, takeovers included. |
| `Tombstones.VisitKeepsUnexpired` | pkg/registry/registry/failuredetector.go:79-107 | One visit keeps a tombstone if its expiry has not passed and removes it otherwise. |
| `Tombstones.UnregisteredMemberLingers` | pkg/registry/registry/registry.go:320-341 | Unregistering leaves a tombstone with the member's state; over any such run it is kept, and the next sweep removes it if and only if it is past the time of removal plus the tombstone timeout. |
| `Tombstones.RepairedTombstoneGuardsNothing` | pkg/registry/registry/registry.go:688-694 | A tombstone received by repair has lost its expiry, so one sweep removes it and any copy brings the member back. |
| `ReplicaRepair.PullOutcome` | pkg/registry/registry/replicarepair.go:63-91 | A pull changes exactly the ids that the peer sends and the puller may accept, each to the peer's copy, whatever order they come in. |
| `ReplicaRepair.SyncNeverGoesBack` | pkg/registry/client/replicaclient.go:135-164 | For every limit and random choice, a sync makes no stored version older on either side, loses none, and leaves the server's members alone. |
| `ReplicaRepair.BehindAfter` | pkg/registry/client/replicaclient.go:135-164 | After a sync the caller is behind on a member exactly if it was before and the digest did not reach it or the caller guards it. |
| `ReplicaRepair.SyncMakesProgress` | pkg/registry/client/replicaclient.go:135-164 | The members on which the caller is behind never grow, and strictly shrink as soon as the digest reaches one that it does not guard; no hypothesis on ties. |
| `ReplicaRepair.SyncsUseUpWhatIsBehind` | pkg/registry/client/replicaclient.go:135-164 | Over any number of syncs with any limit, those that reach a member to take over, plus the members the caller is still behind on, never exceed the members it was behind on at the start; nothing it holds gets older. |
| `ReplicaRepair.ThreeRoundsCanRun` | pkg/registry/registry/replicarepair.go:14-91 | From any two well-formed registries three uncut pulls are possible. |
| `ReplicaRepair.ThreeRoundsConverge` | pkg/registry/registry/replicarepair.go:14-91 | After A pulls from B, B from A and A from B with limits large enough, both hold the same version, state and liveness of an id (node-local ids excepted) if and only if they did not start in a tie on it; and nothing got older. |
| `ReplicaRepair.ThreeRoundsAt` | pkg/registry/registry/replicarepair.go:14-91 | The same at one id, priority sets included: from any starting point that the two registries can be in. |
| `ReplicaRepair.SyncMoves` | pkg/registry/registry/replicarepair.go:14-91 | A sync with an uncut digest acts on each id on its own: what is held on either side and what either side asks for next. |
| `ReplicaRepair.PullsAgree` | pkg/registry/registry/replicarepair.go:58-91 | At one id, three alternating pulls agree exactly without a tie. |
| `ReplicaRepair.TwoRoundsAreNotEnough` | pkg/registry/registry/replicarepair.go:58-91 | Two pulls never suffice for a member that A has not heard of. |
| `ClusterRepair.RepairInTurnsConverges` | pkg/registry/registry/replicarepair.go:14-91 | Any number of nodes, with any contents and priority ids: after three uncut pulls in turn between every two of them, in any order of the pairs, all agree on an id if and only if no two owners share its latest millisecond. |
| `ClusterRepair.FairRepairConvergesIff` | pkg/registry/registry/replicarepair.go:14-91 | Two or more passes, in each of which every node pulls uncut from every other: whatever their order, all nodes agree on an id if and only if no two owners share its latest millisecond, and nobody holds it or all nodes but at most one do. |
| `ClusterRepair.OneFairPassConvergesIff` | pkg/registry/registry/replicarepair.go:14-91 | One such pass suffices if and only if, besides, a node that alone lacks the id has it among its priority ids. |
| `ClusterRepair.FairRepairCanStarve` | pkg/registry/registry/replicarepair.go:20-37 | In any cluster two nodes that lack an id can be kept from it through any number of such passes, whoever holds it and whoever asks for it, because a digest uses up a priority id even if the node asked does not have it. |
| `ReachableFailures.StarvationIsReachable` | pkg/registry/registry/replicarepair.go:20-37 | Three nodes that have just started, one of them with one registration, are such a cluster. |
| `ClusterRepair.RunsAreRepairable` | pkg/registry/registry/replicarepair.go:14-91 | The nodes of any run that drops no member they issued meet the conditions of the results above. |
| `ClusterRepair.SchedulesCanRun` | pkg/registry/registry/replicarepair.go:14-91 | Every schedule of uncut pulls can be carried out. |
| `ClusterRepair.RoundsAt` | pkg/registry/registry/replicarepair.go:14-91 | A schedule over whole registries acts on each id as the schedule over that id alone. |
| `RepairSchedules.InTurnsConverges` | pkg/registry/registry/replicarepair.go:58-91 | The first of those results at one id. |
| `FairRepair.PassesConvergeIff` | pkg/registry/registry/replicarepair.go:58-91 | The result on two or more passes, at one id. |
| `FairRepair.OnePassConvergesIff` | pkg/registry/registry/replicarepair.go:58-91 | The result on one pass, at one id. |
| `FairRepair.FairPullsCanStarve` | pkg/registry/registry/replicarepair.go:20-37 | The starving schedule at one id, for any set of nodes. |
| `FairRepair.PassMakesReady` | pkg/registry/registry/replicarepair.go:79-87 | A pull of any holder from the one node that lacks an id makes it ask for the id, until it gets it. |
| `RepairSchedules.TieIsForever` | pkg/registry/registry/replicarepair.go:63-91 | Under any schedule a tie at the latest millisecond stays, with both its owners. |
| `RepairSchedules.PullFromLeader` | pkg/registry/registry/replicarepair.go:63-91 | A pull from a node with the latest version brings it if and only if the caller holds the id or has it as a priority. |
| `RepairSchedules.PullKeepsSound` | pkg/registry/registry/replicarepair.go:63-91 | Positive clocks, owners ahead of all copies in their name, and one payload per version are kept by every pull. |
| `ReplicaRepair.LargeDigestCoversAll` | pkg/registry/registry/replicarepair.go:14-56 | A digest whose limit is large enough has every priority and member id. |
| `ReplicaRepair.PriorityIsNeverForgotten` | pkg/registry/registry/replicarepair.go:14-91 | Over any run a priority id stays queued until some digest carries it. |
| `ReplicaRepair.DigestDrainsPriority` | pkg/registry/registry/replicarepair.go:14-56 | A digest with limit n shortens the priority queue by max(n, 1), or empties it. |
| `BoundedRepair.TurnsHandPriorityOn` | pkg/registry/registry/replicarepair.go:14-91 | If one node's priority ids fill its digest, the other has none and neither is ahead on them, then pulling in turn, however often, only hands the same priority ids back and forth. |
| `BoundedRepair.TurnsCanStarve` | pkg/registry/client/replicaclient.go:135-164 | So each node stays behind on whatever it was behind on. |
| `BoundedRepair.TurnsCanGoOn` | pkg/registry/client/replicaclient.go:135-164 | And any number of such turns is possible. |
| `BoundedRepair.FullDigestSticks` | pkg/registry/registry/replicarepair.go:79-87 | Nodes come to this by themselves: a pull by a node with just enough members to fill its digest, all up to date, leaves the other in that state. |
| `ReachableFailures.LimitOfOneCanStarve` | pkg/registry/client/replicaclient.go:135-138 | A run of two nodes after which, with a digest limit of 0 or 1, pulling in turn, beginning with the one that lacks a member, never brings it that member, whatever the choices. |
| `ReplicaRepair.DeltaIsComplete` | pkg/registry/registry/replicarepair.go:63-91 | When no id of the digest is left, the list is exactly the specified delta, and the priority set is the specified one. |
| `ReplicaClient.Sync` | pkg/registry/client/replicaclient.go:135-164 | Over two registries updated in place: the result is the specified pull; a call that fails before or after the server answered still spent the caller's priority ids. |
| `ReplicaClient.ApplyAll` | pkg/registry/client/replicaclient.go:159-161 | Applies the replies in the order received. |
| `Subscribers.Successor` | pkg/registry/registry/registry.go:532-548 | The version made up for a vanished member is newer than the known one, and the least such version. |
| `Subscribers.CatchUpBringsUpToDate` | pkg/registry/registry/registry.go:485-603 | For every set of known versions: only covered ids and only strictly newer updates are sent; a subscriber that accepts what is newer ends with no covered id older than the registry's, and for each covered id the registry does not have, with a LEFT member that has only the id and the next version. |
| `Subscribers.CatchUpAt` | pkg/registry/registry/registry.go:485-603 | The same at one id: the subscriber ends with the registry's copy or the one it had. |
| `Subscribers.AcceptOutcome` | pkg/registry/registry/registry.go:659-686 | Accepting a list with one update per id takes what is newer and keeps the rest. |
| `Subscribers.SubscribingTracks` | pkg/registry/registry/registry.go:206-232 | The initial list, replayed, gives a view that tracks the registry. |
| `Subscribers.DidKeepsTracking` | pkg/registry/registry/registry.go:448-456 | The notifications of any one event bring the view along. |
| `Subscribers.ViewsTrackEveryRun` | pkg/registry/registry/registry.go:206-232 | Over any run the replayed view equals the members on every id held, and is LEFT on every other id it has; an owner-only view is exact on owned ids, and all else in it that claims to be owned here is LEFT. |
| `Subscribers.UpMembersAreSeen` | pkg/registry/registry/registry.go:206-232 | Over any run the UP members of an unfiltered subscriber's view are those of the registry, although removals are silent. |
| `Subscribers.OwnedMembersAreSeen` | pkg/registry/registry/registry.go:364-390 | Over any run an owner-only subscriber sees exactly the locally owned members that have not left, since every gain, change and loss of ownership is notified. |
| `Provenance.EventTellsExactlyChanges` | pkg/registry/registry/registry.go:448-456 | Each event tells each subscription, once, of exactly the copies it changes, and an owner-only one of those alone whose member is owned here before or after; removals are not told. |
| `ClusterProtocol.OneVersionOnePayload` | pkg/registry/registry/registry.go:393-473 | In every run of any number of nodes over a network that drops, repeats and reorders, with sweeps, removals and repair: two copies anywhere with the same version are the same member in the same state and liveness, and expiries differ only if repair dropped one. |
| `ClusterProtocol.NextKeepsConsistent` | pkg/registry/registry/registry.go:393-473 | The invariant behind it, kept by every step: every stored copy is among the copies made, and none is past the last version of the node it names. |
| `ClusterProtocol.OwnersDominateInEveryRun` | pkg/registry/registry/registry.go:344-391 | In every run in which no node drops a member it issued, each copy anywhere is dominated by the copy that its owner holds. |
| `ClusterProtocol.NextKeepsDominance` | pkg/registry/registry/registry.go:344-391 | Kept by every step that drops no such member. |
| `ClusterProtocol.DominanceEndsExactlyWhenDropped` | pkg/registry/registry/failuredetector.go:79-107 | A step ends dominance if and only if it is a visit to a LEFT member past its expiry at a node in whose name a copy of that member was made. |
| `ReachableFailures.DominanceCanEnd` | pkg/registry/registry/failuredetector.go:79-92 | A run that registers, unregisters and sweeps away a member ends it. |
| `ClusterProtocol.GuardDiscardsNothingNewer` | pkg/registry/registry/registry.go:354-362 | So discarding updates in the local name never discards one newer than what is held. |
| `ClusterProtocol.RepairConvergesAfterEveryRun` | pkg/registry/registry/replicarepair.go:14-91 | After every such run, three undisturbed pulls make any two nodes agree on an id if and only if they did not hold it in a tie. |
| `ReachableFailures.RepairCanFail` | pkg/registry/registry/replicarepair.go:71-77 | Two nodes at which the same member is registered in the same millisecond: a run without drops, after which three undisturbed pulls do not make them agree. |
| `PendingQueue.PendingUpdates.constructor` | pkg/registry/client/replicaclient.go:221-229 | An empty open queue of the given limit, negative ones included. |
| `PendingQueue.PendingUpdates.Push` | pkg/registry/client/replicaclient.go:231-247 | Reaches the specified queue: drops the oldest when over the limit, even if closed, and appends only if open. |
| `PendingQueue.PendingUpdates.Take` | pkg/registry/client/replicaclient.go:251-267 | Returns and removes the oldest update, or nothing if closed. |
| `PendingQueue.PendingUpdates.Close` | pkg/registry/client/replicaclient.go:269-276 | Closes, and keeps what is pending. |
| `PendingQueue.EveryUpdateIsAccountedFor` | pkg/registry/client/replicaclient.go:231-276 | Over any operations: pushes split, in push order, into those that left with one fate each and a contiguous pending suffix of at most limit+1; takes and drops are those of either fate, in order. |
| `PendingQueue.CountsAddUp` | pkg/registry/client/replicaclient.go:231-276 | Taken, dropped and pending add up to the pushes let in. |
| `PendingQueue.WithoutDropsFirstInFirstOut` | pkg/registry/client/replicaclient.go:231-267 | Without drops, what was taken followed by what is pending is what was pushed. |
| `PendingQueue.NothingAfterClose` | pkg/registry/client/replicaclient.go:251-276 | Once closed, nothing is taken or let in again. |
| `PendingQueue.PushesKeepNewest` | pkg/registry/client/replicaclient.go:231-247 | Any number of pushes to an open queue leave what was pending and pushed, in order, or its newest limit+1: nothing is dropped while no more than that are pending. |
| `PendingQueue.PushesShedWhenClosed` | pkg/registry/client/replicaclient.go:231-247 | Pushes to a closed queue let nothing in, and shed what is over the limit. |
| `JoinBootstrap.BootstrapLosesNothing` | pkg/cluster/cluster.go:55-118 | For every interleaving of OnJoin with local updates, losses of ownership, queue, network and everything that happens at the target: if no update was dropped on the way or lost and the queue has drained, the target holds every member that the sender still owns, at a version the sender's does not replace, except for members of which it held such a copy as a tombstone and has removed that since the sender's copy was pushed. |
| `JoinBootstrap.NothingIsMissedInAnyRun` | pkg/cluster/cluster.go:55-118 | At every point after the snapshot, each member still owned is held by the target, or was such a tombstone there, or is in the snapshot's rest, the queue or in flight. |
| `JoinBootstrap.NextKeeps` | pkg/cluster/cluster.go:55-118 | That invariant is kept by every step. |
| `JoinBootstrap.SenderEventKeeps` | pkg/cluster/cluster.go:111-118 | Kept by every event of the sender, because what it notifies is pushed to clients already inserted. |
| `JoinBootstrap.DeliveredKeeps` | pkg/registry/client/replicaclient.go:172-207 | Kept when the target takes in the update in flight. |
| `JoinBootstrap.TargetEventKeeps` | pkg/registry/registry/failuredetector.go:16-149 | Kept by every event of the target, removals included. |
| `JoinBootstrap.SweptTombstoneIsAnException` | pkg/registry/registry/failuredetector.go:94-107 | A sweep of the target that removes an expired tombstone makes it such an exception. |
| `JoinBootstrap.UninterruptedJoin` | pkg/cluster/cluster.go:55-90 | OnJoin without interruption is one of these runs, and leaves in a new queue the snapshot, in order, or its newest limit+1. |
| `JoinBootstrap.ForwardsWhatOwnersHear` | pkg/cluster/cluster.go:111-118 | What the sender's notifications put in a client's queue is what an owner-only subscription hears, pushed in order. |
| `Cluster.Cluster.OnJoin` | pkg/cluster/cluster.go:55-90 | Run on its own: if connected, a fresh queue replaces any older one and holds the owned members, each once, or the last limit+1 of them; the departure of the node is forgotten, the gauge counts the nodes and all other queues stay; otherwise nothing changes. |
| `Cluster.Cluster.constructor` | pkg/cluster/cluster.go:29-53 | No other nodes are known, and the gauge counts this one. |
| `Cluster.NodesCellHasNoName` | pkg/cluster/cluster.go:81-82 | The gauge's one cell is that of no labels. |
| `Cluster.Cluster.SendOwned` | pkg/cluster/cluster.go:84-89 | The departure of the node is forgotten, and the queue holds what it held followed by the owned members, each once, or the last limit+1 of these. |
| `Cluster.Cluster.OnLeave` | pkg/cluster/cluster.go:92-109 | The node's queue is closed and forgotten, its departure reported, and the gauge counts the nodes left. |
| `Cluster.Cluster.OnUpdate` | pkg/cluster/cluster.go:111-118 | Every other node's queue receives the update once, whatever order they are ranged over. |

## Left out

- Cluster.Cluster.OnJoin: runs without interruption; the interleavings are those of JoinBootstrap.
- JoinBootstrap.DeliveredKeeps: one update is in flight at a time, as in the send loop; a retried call that arrives twice is a `Delivered` step and an event of the target.
- PendingQueue.PendingUpdates.Take: callable when there is an update or the queue is closed; waiting on the condition variable is not modelled.
- PendingQueue.PendingUpdates.Push: callable with a limit that is not negative; otherwise the source slices an empty queue and panics.
- ReplicaClient.Sync: the counters of inbound updates, the error text and the context are not modelled.
- Metrics.LabelsToLowercase: lowers ASCII letters only, and returns the lowered map; the caller's map, changed in place in the source, is always a fresh literal there.
- Metrics.LabelsToString: the library's sort stands as insertion by label name; labels of a map are distinct, so any sort gives the same result.
- Metrics.Gauge.Inc: cells are integers where the source has float64, and the Prometheus vector behind it is not modelled; likewise Metrics.Gauge.Dec, Metrics.Gauge.Set and Metrics.Gauge.Value.
- Registry.Registry.SubscribeLocal: returns the subscription, where the source returns the function that ends it; that is Registry.Registry.Unsubscribe, and likewise for Registry.Registry.Subscribe.
- Registry.Registry.NextVersionLocked: the counter is a natural number; the wrap-around of uint64 is not modelled.
- Registry.Registry.UpdateMemberLocked: member states are values, so a caller that changes a state it handed in (the "TODO copy state" at registry.go:394) is not modelled.
- Registry.Registry.NotifySubscribersLocked: callbacks record what they are called with and do not call back into the registry.
- Restarts: node ids are used once in a run; a node that comes back under its old id with an empty registry is not modelled.
- Locking: each method is one atomic step, as the registry's mutex makes it; data races and deadlock are not modelled.
- LEFT updates made up for known members that are gone go only to subscribers, never between nodes, as in the source.
- gRPC, dialling, retries, streams and servers: calls are direct, with drops, repeats and reordering as steps.
- Gossip and memberlist: joins and leaves are arbitrary events. Choosing a random client for repair is an arbitrary choice.
- pkg/registryv2 and pkg/clusterv2: an unfinished rewrite of the same order and repair code.
- Member, Members, MemberState, MemberStates, UpMembers, LocalID, Updates: plain reads of the map or of the catch-up list.
- Counter: no other part depends on it.
- Logging, configuration, command line, the FCM server, proxy, demos and generated code.
