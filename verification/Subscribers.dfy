/** What subscribers are told: the catch-up list, and the notifications that follow it. */
module Subscribers {
  import opened Rpc
  import opened Versions
  import opened RegistryState

  type View = map<string, Member>

  // ----- Catch-up -----

  /** The smallest version that replaces known. */
  function Successor(known: Version): (v: Version)
    ensures Newer(v, known)
    ensures forall w :: Newer(w, known) ==> AtLeast(w, v)
  {
    Version(known.owner, Timestamp(known.ts.ms, known.ts.counter + 1))
  }

  /** Told to a subscriber that knows a member the registry no longer has. */
  function Gone(id: string, known: Version): Member {
    Member(BareState(id), LEFT, Successor(known), 0)
  }

  /** The subscriber is behind on a member of the registry that it subscribed to. */
  predicate Missing(s: State, known: map<string, Version>, ownerOnly: bool, id: string)
    requires id in s.members
  {
    var v := s.members[id].version;
    if id in known then
      && (ownerOnly ==> v.owner == s.cfg.localId || known[id].owner == s.cfg.localId)
      && CompareVersions(known[id], v) > 0
    else
      ownerOnly ==> v.owner == s.cfg.localId
  }

  /** The subscriber knows a member that the registry does not have. */
  predicate Vanished(s: State, known: map<string, Version>, ownerOnly: bool, id: string) {
    id in known && id !in s.members && (ownerOnly ==> known[id].owner == s.cfg.localId)
  }

  /** The subscriber must be told u. */
  predicate Owed(s: State, known: map<string, Version>, ownerOnly: bool, u: Member) {
    var id := u.state.id;
    || (id in s.members && Missing(s, known, ownerOnly, id) && u == s.members[id])
    || (Vanished(s, known, ownerOnly, id) && u == Gone(id, known[id]))
  }

  ghost predicate OnePerId(us: seq<Member>) {
    forall i, j :: 0 <= i < j < |us| ==> us[i].state.id != us[j].state.id
  }

  /** us lists what the subscriber must be told, in any order. */
  ghost predicate IsCatchUp(s: State, known: map<string, Version>, ownerOnly: bool, us: seq<Member>) {
    && OnePerId(us)
    && (forall u :: u in us ==> Owed(s, known, ownerOnly, u))
    && (forall id :: id in s.members && Missing(s, known, ownerOnly, id) ==> s.members[id] in us)
    && (forall id :: Vanished(s, known, ownerOnly, id) ==> Gone(id, known[id]) in us)
  }

  /** us lists what the subscriber must be told, but for the members in left and the known ids in rest. */
  ghost predicate ListsSoFar(s: State, known: map<string, Version>, ownerOnly: bool, left: set<string>,
                             rest: set<string>, us: seq<Member>) {
    && OnePerId(us)
    && (forall u :: u in us ==>
          Owed(s, known, ownerOnly, u) && u.state.id !in (if u.state.id in s.members then left else rest))
    && (forall id :: id in s.members && id !in left && Missing(s, known, ownerOnly, id) ==> s.members[id] in us)
    && (forall id :: Vanished(s, known, ownerOnly, id) && id !in rest ==> Gone(id, known[id]) in us)
  }

  lemma ListMember(s: State, known: map<string, Version>, ownerOnly: bool, left: set<string>, rest: set<string>,
                   us: seq<Member>, id: string)
    requires WellFormed(s) && ListsSoFar(s, known, ownerOnly, left, rest, us) && id in left && id in s.members
    ensures ListsSoFar(s, known, ownerOnly, left - {id}, rest,
                       if Missing(s, known, ownerOnly, id) then us + [s.members[id]] else us)
  {
  }

  lemma ListKnown(s: State, known: map<string, Version>, ownerOnly: bool, left: set<string>, rest: set<string>,
                  us: seq<Member>, id: string)
    requires ListsSoFar(s, known, ownerOnly, left, rest, us) && id in rest && id in known
    ensures ListsSoFar(s, known, ownerOnly, left, rest - {id},
                       if Vanished(s, known, ownerOnly, id) then us + [Gone(id, known[id])] else us)
  {
  }

  lemma ListsAll(s: State, known: map<string, Version>, ownerOnly: bool, us: seq<Member>)
    requires ListsSoFar(s, known, ownerOnly, {}, {}, us)
    ensures IsCatchUp(s, known, ownerOnly, us)
  {
  }

  /** A subscriber that accepts what is newer than what it has. */
  function Accept(view: View, us: seq<Member>): View {
    if us == [] then view
    else
      var v, u := Accept(view, us[..|us| - 1]), us[|us| - 1];
      if u.state.id in v && !Newer(u.version, v[u.state.id].version) then v else v[u.state.id := u]
  }

  function Known(view: View): map<string, Version> {
    map id | id in view :: view[id].version
  }

  /** What accepting a list with one update per id leaves at each id. */
  lemma {:induction false} AcceptOutcome(view: View, us: seq<Member>, id: string)
    requires OnePerId(us)
    ensures var v := Accept(view, us);
      && (forall u :: u in us && u.state.id == id && (id in view ==> Newer(u.version, view[id].version)) ==>
            id in v && v[id] == u)
      && ((forall u :: u in us ==> u.state.id != id) ==>
            (id in v <==> id in view) && (id in view ==> v[id] == view[id]))
      && (id in view ==> id in v && AtLeast(v[id].version, view[id].version))
  {
    if us != [] {
      AcceptOutcome(view, us[..|us| - 1], id);
    }
  }

  /** Ids the subscription covers: all, or those owned here or believed to be. */
  predicate Covers(s: State, known: map<string, Version>, ownerOnly: bool, id: string) {
    ownerOnly ==> s.Owns(id) || (id in known && known[id].owner == s.cfg.localId)
  }

  /** Caught up at one id: no older than the registry, nothing lost, and LEFT if the registry has let go of it. */
  predicate CaughtUpAt(s: State, view: View, after: View, id: string) {
    if id in s.members then
      && id in after
      && !Newer(s.members[id].version, after[id].version)
      && (after[id] == s.members[id] || (id in view && after[id] == view[id]))
    else
      id in view ==>
        && id in after && after[id].version == Successor(view[id].version)
        && after[id].liveness == LEFT && after[id].expiry == 0
        && after[id].state == MemberState(id, "", "", None, 0, "", map[])
  }

  lemma CatchUpAt(s: State, view: View, ownerOnly: bool, us: seq<Member>, id: string)
    requires WellFormed(s) && IsCatchUp(s, Known(view), ownerOnly, us)
    ensures Covers(s, Known(view), ownerOnly, id) ==> CaughtUpAt(s, view, Accept(view, us), id)
  {
    var known := Known(view);
    AcceptOutcome(view, us, id);
    if Covers(s, known, ownerOnly, id) {
      if id in s.members {
        if Missing(s, known, ownerOnly, id) {
          assert s.members[id] in us;
        } else {
          forall u | u in us ensures u.state.id != id {
            assert Owed(s, known, ownerOnly, u);
          }
        }
      } else if id in view {
        assert Vanished(s, known, ownerOnly, id) && Gone(id, known[id]) in us;
      }
    }
  }

  /**
   * Catching up is minimal: only updates newer than what is known are sent, and only for
   * covered ids. It is complete: afterwards no covered id is older than the registry's copy,
   * and a covered id the registry does not have is LEFT.
   */
  lemma CatchUpBringsUpToDate(s: State, view: View, ownerOnly: bool, us: seq<Member>)
    requires WellFormed(s) && IsCatchUp(s, Known(view), ownerOnly, us)
    ensures forall u :: u in us ==>
      && Covers(s, Known(view), ownerOnly, u.state.id)
      && (u.state.id in view ==> Newer(u.version, view[u.state.id].version))
    ensures forall id :: Covers(s, Known(view), ownerOnly, id) ==> CaughtUpAt(s, view, Accept(view, us), id)
  {
    var known := Known(view);
    forall u | u in us
      ensures Covers(s, known, ownerOnly, u.state.id)
      ensures u.state.id in view ==> Newer(u.version, view[u.state.id].version)
    {
      assert Owed(s, known, ownerOnly, u);
    }
    forall id | Covers(s, known, ownerOnly, id) ensures CaughtUpAt(s, view, Accept(view, us), id) {
      CatchUpAt(s, view, ownerOnly, us, id);
    }
  }

  // ----- Notifications -----

  /** A subscriber that overwrites what it has with what it is told. */
  function Replay(view: View, us: seq<Member>): View {
    if us == [] then view
    else Replay(view, us[..|us| - 1])[us[|us| - 1].state.id := us[|us| - 1]]
  }

  /**
   * The view of all members is exact, but for tombstones the registry has dropped since. The
   * view of owned members is exact on those, and all else in it that claims to be owned is LEFT.
   */
  predicate TracksAt(s: State, view: View, ownerOnly: bool, id: string) {
    if ownerOnly then
      && (s.Owns(id) ==> id in view && view[id] == s.members[id])
      && (id in view && view[id].version.owner == s.cfg.localId ==>
            (s.Owns(id) && s.members[id] == view[id]) || (!s.Owns(id) && view[id].liveness == LEFT))
    else
      && (id in s.members ==> id in view && view[id] == s.members[id])
      && (id in view && id !in s.members ==> view[id].liveness == LEFT)
  }

  ghost predicate Tracks(s: State, view: View, ownerOnly: bool) {
    forall id :: TracksAt(s, view, ownerOnly, id)
  }

  lemma {:induction false} ReplayOutcome(us: seq<Member>, id: string)
    requires OnePerId(us)
    ensures var v := Replay(map[], us);
      && (id in v ==> v[id] in us && v[id].state.id == id)
      && (forall u :: u in us && u.state.id == id ==> id in v && v[id] == u)
  {
    if us != [] {
      ReplayOutcome(us[..|us| - 1], id);
    }
  }

  lemma SubscribingTracks(s: State, ownerOnly: bool, us: seq<Member>)
    requires WellFormed(s) && IsCatchUp(s, map[], ownerOnly, us)
    ensures Tracks(s, Replay(map[], us), ownerOnly)
  {
    var view := Replay(map[], us);
    forall id ensures TracksAt(s, view, ownerOnly, id) {
      ReplayOutcome(us, id);
      assert id in view ==> Owed(s, map[], ownerOnly, view[id]);
      assert id in s.members && Missing(s, map[], ownerOnly, id) ==> s.members[id] in us;
    }
  }

  function NewNotes(s: State, t: State): seq<Note>
    requires |s.log| <= |t.log|
  {
    t.log[|s.log|..]
  }

  lemma ReplayOne(view: View, m: Member)
    ensures Replay(view, [m]) == view[m.state.id := m]
  {
    assert Replay(view, []) == view;
  }

  /** The view after hearing of one event. */
  function ViewAfter(s: State, effect: Effect, view: View, ownerOnly: bool): View {
    match effect
    case Issued(m) => view[m.state.id := m]
    case Accepted(u) => if ownerOnly && !s.Owns(u.state.id) then view else view[u.state.id := u]
    case _ => view
  }

  lemma NotesOfEffect(s: State, t: State, effect: Effect, view: View, ownerOnly: bool)
    requires Did(s, t, effect)
    ensures |s.log| <= |t.log| && t.log == s.log + NewNotes(s, t)
    ensures Replay(view, Heard(NewNotes(s, t), ownerOnly)) == ViewAfter(s, effect, view, ownerOnly)
  {
    if effect.Issued? {
      var n := Note(effect.m, true);
      assert NewNotes(s, t) == [n];
      HeardOne(n, ownerOnly);
      ReplayOne(view, effect.m);
    } else if effect.Accepted? {
      var n := Note(effect.u, s.Owns(effect.u.state.id));
      assert NewNotes(s, t) == [n];
      HeardOne(n, ownerOnly);
      ReplayOne(view, effect.u);
    } else {
      assert NewNotes(s, t) == [];
    }
  }

  lemma EffectKeepsTracking(s: State, t: State, effect: Effect, view: View, ownerOnly: bool)
    requires WellFormed(s) && Did(s, t, effect) && Tracks(s, view, ownerOnly)
    ensures Tracks(t, ViewAfter(s, effect, view, ownerOnly), ownerOnly)
  {
    var view' := ViewAfter(s, effect, view, ownerOnly);
    forall id ensures TracksAt(t, view', ownerOnly, id) {
      assert TracksAt(s, view, ownerOnly, id);
    }
  }

  /** One more event, and the view still tracks the registry. */
  lemma DidKeepsTracking(s: State, t: State, effect: Effect, view: View, ownerOnly: bool)
    requires WellFormed(s) && Did(s, t, effect) && Tracks(s, view, ownerOnly)
    ensures |s.log| <= |t.log| && t.log == s.log + NewNotes(s, t)
    ensures Tracks(t, Replay(view, Heard(NewNotes(s, t), ownerOnly)), ownerOnly)
  {
    NotesOfEffect(s, t, effect, view, ownerOnly);
    EffectKeepsTracking(s, t, effect, view, ownerOnly);
  }

  lemma {:induction false} ReplayConcat(view: View, us: seq<Member>, vs: seq<Member>)
    ensures Replay(view, us + vs) == Replay(Replay(view, us), vs)
  {
    if vs == [] {
      assert us + vs == us;
    } else {
      ReplayConcat(view, us, vs[..|vs| - 1]);
      assert (us + vs)[..|us + vs| - 1] == us + vs[..|vs| - 1];
    }
  }

  /** What a subscriber has by t, if it subscribed at s with the list us. */
  function ViewAt(us: seq<Member>, s: State, t: State, ownerOnly: bool): View
    requires |s.log| <= |t.log|
  {
    Replay(map[], us + Heard(NewNotes(s, t), ownerOnly))
  }

  lemma ViewGrows(us: seq<Member>, s: State, t: State, r: State, ownerOnly: bool)
    requires |s.log| <= |t.log| <= |r.log| && r.log == t.log + NewNotes(t, r)
    ensures ViewAt(us, s, r, ownerOnly) == Replay(ViewAt(us, s, t, ownerOnly), Heard(NewNotes(t, r), ownerOnly))
  {
    var xs, ys := NewNotes(s, t), NewNotes(t, r);
    assert NewNotes(s, r) == xs + ys;
    HeardConcat(xs, ys, ownerOnly);
    assert us + Heard(xs + ys, ownerOnly) == (us + Heard(xs, ownerOnly)) + Heard(ys, ownerOnly);
    ReplayConcat(map[], us + Heard(xs, ownerOnly), Heard(ys, ownerOnly));
  }

  /**
   * Over any run, a subscriber that started with no known members and overwrites what it
   * has with what it is told tracks the registry.
   */
  lemma {:induction false} ViewsTrackEveryRun(s: State, es: seq<Event>, ownerOnly: bool, us: seq<Member>)
    requires WellFormed(s) && IsCatchUp(s, map[], ownerOnly, us)
    ensures WellFormed(Run(s, es)) && |s.log| <= |Run(s, es).log| && Run(s, es).cfg == s.cfg
    ensures Tracks(Run(s, es), ViewAt(us, s, Run(s, es), ownerOnly), ownerOnly)
  {
    if es == [] {
      SubscribingTracks(s, ownerOnly, us);
      assert us + Heard([], ownerOnly) == us;
    } else {
      var e, t := es[|es| - 1], Run(s, es[..|es| - 1]);
      ViewsTrackEveryRun(s, es[..|es| - 1], ownerOnly, us);
      var effect := EventEffect(t, e);
      DidKeepsTracking(t, Apply(t, e), effect, ViewAt(us, s, t, ownerOnly), ownerOnly);
      DidKeepsWellFormed(t, Apply(t, e), effect);
      ViewGrows(us, s, t, Apply(t, e), ownerOnly);
    }
  }

  function UpIds(members: map<string, Member>): set<string> {
    set id | id in members && members[id].liveness == UP
  }

  function LiveOwned(members: map<string, Member>, owner: string): map<string, Member> {
    map id | id in members && members[id].liveness != LEFT && members[id].version.owner == owner :: members[id]
  }

  /** So subscribers to everything see exactly the members that are up, although removals are silent. */
  lemma UpMembersAreSeen(s: State, es: seq<Event>, us: seq<Member>)
    requires WellFormed(s) && IsCatchUp(s, map[], false, us)
    ensures |s.log| <= |Run(s, es).log|
    ensures UpIds(ViewAt(us, s, Run(s, es), false)) == UpIds(Run(s, es).members)
  {
    ViewsTrackEveryRun(s, es, false, us);
    var t, view := Run(s, es), ViewAt(us, s, Run(s, es), false);
    forall id ensures id in UpIds(view) <==> id in UpIds(t.members) {
      assert TracksAt(t, view, false, id);
    }
  }

  /** And subscribers to owned members see exactly those that have not left. */
  lemma OwnedMembersAreSeen(s: State, es: seq<Event>, us: seq<Member>)
    requires WellFormed(s) && IsCatchUp(s, map[], true, us)
    ensures |s.log| <= |Run(s, es).log|
    ensures LiveOwned(ViewAt(us, s, Run(s, es), true), s.cfg.localId) == LiveOwned(Run(s, es).members, s.cfg.localId)
  {
    ViewsTrackEveryRun(s, es, true, us);
    var t, view := Run(s, es), ViewAt(us, s, Run(s, es), true);
    forall id
      ensures id in LiveOwned(view, s.cfg.localId) <==> id in LiveOwned(t.members, s.cfg.localId)
      ensures id in LiveOwned(view, s.cfg.localId) ==> view[id] == t.members[id]
    {
      assert TracksAt(t, view, true, id);
    }
  }
}
