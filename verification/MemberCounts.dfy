/** The gauges of a registry: which cells they have, and what each must hold. */
module MemberCounts {
  import opened Rpc
  import opened Metrics

  function Name(l: Liveness): string {
    match l case UP => "UP" case DOWN => "DOWN" case LEFT => "LEFT"
  }

  /** The liveness as a label value. */
  function Status(l: Liveness): string {
    Lower(Name(l))
  }

  lemma StatusesDiffer(l: Liveness, l': Liveness)
    ensures Lower(Status(l)) == Status(l) && '=' !in Status(l)
    ensures Status(l) == Status(l') ==> l == l'
  {
    LowerIsIdempotent(Name(l));
    assert Status(l)[0] == LowerChar(Name(l)[0]) && Status(l')[0] == LowerChar(Name(l')[0]);
  }

  function CountLabels(l: Liveness, owner: string): map<string, string> {
    map["status" := Status(l), "owner" := owner]
  }

  function OwnedLabels(l: Liveness): map<string, string> {
    map["status" := Status(l)]
  }

  lemma LabelsAreLowered(l: Liveness, owner: string)
    ensures LowerValues(CountLabels(l, owner)) == CountLabels(l, Lower(owner))
    ensures LowerValues(OwnedLabels(l)) == OwnedLabels(l)
  {
    StatusesDiffer(l, l);
    assert LowerValues(CountLabels(l, owner)).Keys == {"status", "owner"};
  }

  // ----- Cells -----

  /** What one cell counts: members of a liveness and, up to case, an owner; or owned ones of a liveness. */
  datatype Cell = ByOwner(l: Liveness, owner: string) | Owned(l: Liveness)

  predicate Counts(local: string, cell: Cell, m: Member) {
    && m.liveness == cell.l
    && match cell
       case ByOwner(_, owner) => Lower(m.version.owner) == owner
       case Owned(_) => m.version.owner == local
  }

  function Counted(members: map<string, Member>, local: string, cell: Cell): set<string> {
    set id | id in members && Counts(local, cell, members[id])
  }

  ghost function CellKey(cell: Cell): string {
    match cell
    case ByOwner(l, owner) => Key(CountLabels(l, owner))
    case Owned(l) => Key(OwnedLabels(l))
  }

  lemma CellKeysAreInjective(c: Cell, d: Cell)
    requires c.ByOwner? <==> d.ByOwner?
    ensures CellKey(c) == CellKey(d) <==> c == d
  {
    StatusesDiffer(c.l, d.l);
    StatusesDiffer(d.l, c.l);
    if CellKey(c) == CellKey(d) {
      if c.ByOwner? {
        KeysAreInjective(Status(c.l), c.owner, Status(d.l), d.owner);
      } else {
        StatusKeysAreInjective(Status(c.l), Status(d.l));
      }
    }
  }

  /** Every cell of the gauge of the given kind holds the number of members it counts. */
  ghost predicate GaugeAgrees(members: map<string, Member>, local: string, byOwner: bool, values: map<string, int>) {
    forall cell: Cell {:trigger CellKey(cell)} :: cell.ByOwner? == byOwner ==>
      At(values, CellKey(cell)) == |Counted(members, local, cell)|
  }

  /** The cell that counts m in the gauge of the given kind, if any does. */
  function CellOf(local: string, byOwner: bool, m: Member): Option<Cell> {
    if byOwner then Some(ByOwner(m.liveness, Lower(m.version.owner)))
    else if m.version.owner == local then Some(Owned(m.liveness)) else None
  }

  ghost function Bump(values: map<string, int>, cell: Option<Cell>, d: int): map<string, int> {
    if cell.None? then values
    else values[CellKey(cell.value) := At(values, CellKey(cell.value)) + d]
  }

  /** The name of a liveness as operators see it. */
  function StatusText(l: Liveness): string {
    match l case UP => "up" case DOWN => "down" case LEFT => "left"
  }

  lemma StatusByName(l: Liveness)
    ensures Status(l) == StatusText(l)
  {
    LowerIsExact(Name(l));
  }

  lemma CellKeysByName(l: Liveness, owner: string)
    ensures CellKey(ByOwner(l, owner)) == "owner=" + owner + ",status=" + StatusText(l)
    ensures CellKey(Owned(l)) == "status=" + StatusText(l)
  {
    StatusByName(l);
    KeyOfStatusAndOwner(Status(l), owner);
    KeyOfStatus(Status(l));
  }

  /** Gauges that agree with the members have, under each status and owner in lower case, their number. */
  lemma CellsByName(members: map<string, Member>, local: string, byOwner: map<string, int>, owned: map<string, int>)
    requires GaugeAgrees(members, local, true, byOwner) && GaugeAgrees(members, local, false, owned)
    ensures forall owner, l: Liveness :: (
      At(byOwner, "owner=" + Lower(owner) + ",status=" + StatusText(l)) ==
        |set id | id in members && members[id].liveness == l && Lower(members[id].version.owner) == Lower(owner)|)
    ensures forall l: Liveness :: (
      At(owned, "status=" + StatusText(l)) ==
        |set id | id in members && members[id].liveness == l && members[id].version.owner == local|)
  {
    forall owner, l: Liveness
      ensures At(byOwner, "owner=" + Lower(owner) + ",status=" + StatusText(l)) ==
        |set id | id in members && members[id].liveness == l && Lower(members[id].version.owner) == Lower(owner)|
    {
      CellKeysByName(l, Lower(owner));
      assert Counted(members, local, ByOwner(l, Lower(owner))) ==
        set id | id in members && members[id].liveness == l && Lower(members[id].version.owner) == Lower(owner);
    }
    forall l: Liveness
      ensures At(owned, "status=" + StatusText(l)) ==
        |set id | id in members && members[id].liveness == l && members[id].version.owner == local|
    {
      CellKeysByName(l, "");
      assert Counted(members, local, Owned(l)) ==
        set id | id in members && members[id].liveness == l && members[id].version.owner == local;
    }
  }

  lemma CountedWithout(members: map<string, Member>, id: string, local: string, cell: Cell)
    requires id in members
    ensures |Counted(members, local, cell)| ==
      |Counted(members - {id}, local, cell)| + if Counts(local, cell, members[id]) then 1 else 0
  {
    SizeWithout(Counted(members, local, cell), Counted(members - {id}, local, cell), id);
  }

  lemma SizeWithout(all: set<string>, rest: set<string>, id: string)
    requires forall x :: x in rest <==> x in all && x != id
    ensures |all| == |rest| + if id in all then 1 else 0
  {
    if id in all {
      assert all == rest + {id};
    } else {
      assert all == rest;
    }
  }

  lemma CellOfCounts(local: string, m: Member, cell: Cell)
    ensures Counts(local, cell, m) <==> CellOf(local, cell.ByOwner?, m) == Some(cell)
  {
  }

  lemma BumpedAt(values: map<string, int>, cell: Option<Cell>, d: int, at: Cell)
    requires cell.Some? ==> (cell.value.ByOwner? <==> at.ByOwner?)
    ensures At(Bump(values, cell, d), CellKey(at)) == At(values, CellKey(at)) + if cell == Some(at) then d else 0
  {
    if cell.Some? {
      CellKeysAreInjective(cell.value, at);
    }
  }

  lemma CountOut(members: map<string, Member>, id: string, local: string, byOwner: bool, values: map<string, int>)
    requires id in members && GaugeAgrees(members, local, byOwner, values)
    ensures GaugeAgrees(members - {id}, local, byOwner, Bump(values, CellOf(local, byOwner, members[id]), -1))
  {
    forall cell: Cell | cell.ByOwner? == byOwner
      ensures At(Bump(values, CellOf(local, byOwner, members[id]), -1), CellKey(cell)) ==
        |Counted(members - {id}, local, cell)|
    {
      CountedWithout(members, id, local, cell);
      CellOfCounts(local, members[id], cell);
      BumpedAt(values, CellOf(local, byOwner, members[id]), -1, cell);
    }
  }

  lemma CountIn(members: map<string, Member>, m: Member, local: string, byOwner: bool, values: map<string, int>)
    requires m.state.id !in members && GaugeAgrees(members, local, byOwner, values)
    ensures GaugeAgrees(members[m.state.id := m], local, byOwner, Bump(values, CellOf(local, byOwner, m), 1))
  {
    var id := m.state.id;
    assert members[id := m] - {id} == members;
    forall cell: Cell | cell.ByOwner? == byOwner
      ensures At(Bump(values, CellOf(local, byOwner, m), 1), CellKey(cell)) == |Counted(members[id := m], local, cell)|
    {
      CountedWithout(members[id := m], id, local, cell);
      CellOfCounts(local, m, cell);
      BumpedAt(values, CellOf(local, byOwner, m), 1, cell);
    }
  }

  lemma NothingIsCounted(local: string, byOwner: bool)
    ensures GaugeAgrees(map[], local, byOwner, map[])
  {
    forall cell: Cell ensures Counted(map[], local, cell) == {} {
    }
  }
}
