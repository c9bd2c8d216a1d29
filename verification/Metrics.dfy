/** Gauges keyed by a string made from their labels. */
module Metrics {

  // ----- Label strings -----

  datatype LabelledValue = LabelledValue(name: string, value: string)
  {
    function ToString(): string {
      name + "=" + value
    }
  }

  predicate Less(a: string, b: string) {
    b != [] && (a == [] || a[0] < b[0] || (a[0] == b[0] && Less(a[1..], b[1..])))
  }

  lemma {:induction false} LessIsTotalOrder(a: string, b: string, c: string)
    ensures !Less(a, a)
    ensures Less(a, b) || a == b || Less(b, a)
    ensures Less(a, b) && Less(b, c) ==> Less(a, c)
    decreases |a| + |b| + |c|
  {
    if a != [] && b != [] && c != [] {
      LessIsTotalOrder(a[1..], b[1..], c[1..]);
      assert a == [a[0]] + a[1..] && b == [b[0]] + b[1..];
    } else if a != [] && b != [] {
      LessIsTotalOrder(a[1..], b[1..], c);
      assert a == [a[0]] + a[1..] && b == [b[0]] + b[1..];
    } else if a != [] {
      LessIsTotalOrder(a[1..], b, c);
    }
  }

  function Insert(lv: LabelledValue, sorted: seq<LabelledValue>): seq<LabelledValue> {
    if sorted == [] || Less(lv.name, sorted[0].name) then [lv] + sorted
    else [sorted[0]] + Insert(lv, sorted[1..])
  }

  /** Stands for the library's sort. */
  function SortByLabel(lvs: seq<LabelledValue>): seq<LabelledValue> {
    if lvs == [] then [] else Insert(lvs[|lvs| - 1], SortByLabel(lvs[..|lvs| - 1]))
  }

  function JoinWithCommas(lvs: seq<LabelledValue>): string {
    if lvs == [] then ""
    else if |lvs| == 1 then lvs[0].ToString()
    else lvs[0].ToString() + "," + JoinWithCommas(lvs[1..])
  }

  /** lvs lists the labels, each once, in some order. */
  ghost predicate Enumerates(lvs: seq<LabelledValue>, labels: map<string, string>) {
    && (forall i, j :: 0 <= i < j < |lvs| ==> lvs[i].name != lvs[j].name)
    && (forall lv :: lv in lvs <==> lv.name in labels && labels[lv.name] == lv.value)
  }

  ghost predicate Ascending(lvs: seq<LabelledValue>) {
    forall i, j :: 0 <= i < j < |lvs| ==> Less(lvs[i].name, lvs[j].name)
  }

  lemma {:induction false} InsertAscends(lv: LabelledValue, sorted: seq<LabelledValue>)
    requires Ascending(sorted) && (forall x :: x in sorted ==> x.name != lv.name)
    ensures Ascending(Insert(lv, sorted))
    ensures forall x :: x in Insert(lv, sorted) <==> x == lv || x in sorted
  {
    if sorted == [] {
    } else if Less(lv.name, sorted[0].name) {
      forall x | x in sorted ensures Less(lv.name, x.name) {
        LessIsTotalOrder(lv.name, sorted[0].name, x.name);
      }
    } else {
      InsertAscends(lv, sorted[1..]);
      LessIsTotalOrder(lv.name, sorted[0].name, sorted[0].name);
      var rest := Insert(lv, sorted[1..]);
      assert sorted[0] in sorted && forall x :: x in sorted <==> x == sorted[0] || x in sorted[1..];
      forall x | x in rest ensures Less(sorted[0].name, x.name) {
      }
    }
  }

  lemma {:induction false} SortAscends(lvs: seq<LabelledValue>)
    requires forall i, j :: 0 <= i < j < |lvs| ==> lvs[i].name != lvs[j].name
    ensures Ascending(SortByLabel(lvs))
    ensures forall x :: x in SortByLabel(lvs) <==> x in lvs
  {
    if lvs != [] {
      var init, last := lvs[..|lvs| - 1], lvs[|lvs| - 1];
      SortAscends(init);
      assert forall x :: x in lvs <==> x == last || x in init;
      InsertAscends(last, SortByLabel(init));
    }
  }

  lemma {:induction false} AscendingIsUnique(xs: seq<LabelledValue>, ys: seq<LabelledValue>)
    requires Ascending(xs) && Ascending(ys) && (forall x :: x in xs <==> x in ys)
    ensures xs == ys
  {
    assert ys != [] ==> ys[0] in xs;
    if xs != [] {
      assert xs[0] in ys && ys != [] && ys[0] in xs;
      LessIsTotalOrder(xs[0].name, ys[0].name, xs[0].name);
      assert xs[0] == ys[0];
      forall x ensures x in xs[1..] <==> x in ys[1..] {
        assert x in xs <==> x == xs[0] || x in xs[1..];
        assert x in ys <==> x == ys[0] || x in ys[1..];
        LessIsTotalOrder(xs[0].name, xs[0].name, xs[0].name);
      }
      AscendingIsUnique(xs[1..], ys[1..]);
      assert xs == [xs[0]] + xs[1..] && ys == [ys[0]] + ys[1..];
    }
  }

  /** Ranging over the labels in another order makes the same string. */
  lemma LabelOrderIsIrrelevant(xs: seq<LabelledValue>, ys: seq<LabelledValue>, labels: map<string, string>)
    requires Enumerates(xs, labels) && Enumerates(ys, labels)
    ensures JoinWithCommas(SortByLabel(xs)) == JoinWithCommas(SortByLabel(ys))
  {
    SortAscends(xs);
    SortAscends(ys);
    AscendingIsUnique(SortByLabel(xs), SortByLabel(ys));
  }

  lemma {:induction false} EnumerationExists(labels: map<string, string>) returns (lvs: seq<LabelledValue>)
    ensures Enumerates(lvs, labels)
    decreases |labels|
  {
    lvs := [];
    if l :| l in labels {
      var rest := EnumerationExists(labels - {l});
      lvs := rest + [LabelledValue(l, labels[l])];
    }
  }

  lemma EnumerationIsPossible(labels: map<string, string>)
    ensures exists lvs :: Enumerates(lvs, labels)
  {
    var lvs := EnumerationExists(labels);
  }

  /** The key that a set of labels stands for. */
  ghost function Key(labels: map<string, string>): string {
    EnumerationIsPossible(labels);
    var lvs :| Enumerates(lvs, labels);
    JoinWithCommas(SortByLabel(lvs))
  }

  function LowerChar(c: char): char {
    if 'A' <= c <= 'Z' then (c as int + 32) as char else c
  }

  function Lower(s: string): string {
    seq(|s|, i requires 0 <= i < |s| => LowerChar(s[i]))
  }

  function LowerValues(labels: map<string, string>): map<string, string> {
    map l | l in labels :: Lower(labels[l])
  }

  /** Capitals become the small letters in the same place of the alphabet, and all else stays. */
  lemma LowerIsExact(s: string)
    ensures |Lower(s)| == |s|
    ensures forall i :: 0 <= i < |s| ==>
      if 'A' <= s[i] <= 'Z' then 'a' <= Lower(s)[i] <= 'z' && Lower(s)[i] - 'a' == s[i] - 'A' else Lower(s)[i] == s[i]
    ensures Lower("UP") == "up" && Lower("DOWN") == "down" && Lower("LEFT") == "left"
  {
  }

  lemma LowerIsIdempotent(s: string)
    ensures Lower(Lower(s)) == Lower(s)
  {
  }

  /** Ranges over the labels in any order, and sorts what it found. */
  method LabelsToString(labels: map<string, string>) returns (s: string)
    ensures s == Key(labels)
  {
    var lvs := [];
    var left := labels.Keys;
    while left != {}
      invariant left <= labels.Keys
      invariant Enumerates(lvs, labels - left)
      decreases left
    {
      var l :| l in left;
      lvs := lvs + [LabelledValue(l, labels[l])];
      left := left - {l};
    }
    assert labels - {} == labels;
    s := JoinWithCommas(SortByLabel(lvs));
    EnumerationIsPossible(labels);
    ghost var ys :| Enumerates(ys, labels) && Key(labels) == JoinWithCommas(SortByLabel(ys));
    LabelOrderIsIrrelevant(lvs, ys, labels);
  }

  method LabelsToLowercase(labels: map<string, string>) returns (lowered: map<string, string>)
    ensures lowered == LowerValues(labels)
  {
    lowered := labels;
    var left := labels.Keys;
    while left != {}
      invariant left <= labels.Keys == lowered.Keys
      invariant forall l :: l in labels ==> lowered[l] == if l in left then labels[l] else Lower(labels[l])
      decreases left
    {
      var l :| l in left;
      lowered := lowered[l := Lower(lowered[l])];
      left := left - {l};
    }
  }

  function At(values: map<string, int>, key: string): int {
    if key in values then values[key] else 0
  }

  class Gauge {
    var values: map<string, int>

    constructor ()
      ensures values == map[]
    {
      values := map[];
    }

    method Inc(labels: map<string, string>)
      modifies this
      ensures var k := Key(LowerValues(labels)); values == old(values)[k := At(old(values), k) + 1]
    {
      var lowered := LabelsToLowercase(labels);
      var k := LabelsToString(lowered);
      values := values[k := At(values, k) + 1];
    }

    method Dec(labels: map<string, string>)
      modifies this
      ensures var k := Key(LowerValues(labels)); values == old(values)[k := At(old(values), k) - 1]
    {
      var lowered := LabelsToLowercase(labels);
      var k := LabelsToString(lowered);
      values := values[k := At(values, k) - 1];
    }

    method Set(v: int, labels: map<string, string>)
      modifies this
      ensures values == old(values)[Key(LowerValues(labels)) := v]
    {
      var lowered := LabelsToLowercase(labels);
      var k := LabelsToString(lowered);
      values := values[k := v];
    }

    /** Unlike Inc, Dec and Set, Value does not lower its labels. */
    method Value(labels: map<string, string>) returns (v: int)
      ensures v == At(values, Key(labels))
    {
      var k := LabelsToString(labels);
      v := At(values, k);
    }
  }

  // ----- Keys of status and owner -----

  lemma KeyOfStatus(status: string)
    ensures Key(map["status" := status]) == "status=" + status
  {
    var labels, lvs := map["status" := status], [LabelledValue("status", status)];
    assert SortByLabel([]) == [] && lvs[..0] == [];
    assert SortByLabel(lvs) == lvs;
    KeyFrom(lvs, labels);
  }

  lemma KeyFrom(lvs: seq<LabelledValue>, labels: map<string, string>)
    requires Enumerates(lvs, labels)
    ensures Key(labels) == JoinWithCommas(SortByLabel(lvs))
  {
    EnumerationIsPossible(labels);
    ghost var ys :| Enumerates(ys, labels) && Key(labels) == JoinWithCommas(SortByLabel(ys));
    LabelOrderIsIrrelevant(lvs, ys, labels);
  }

  lemma KeyOfStatusAndOwner(status: string, owner: string)
    ensures Key(map["status" := status, "owner" := owner]) == "owner=" + owner + ",status=" + status
  {
    var labels := map["status" := status, "owner" := owner];
    var a, b := LabelledValue("owner", owner), LabelledValue("status", status);
    var lvs := [a, b];
    assert Less("owner", "status") && "owner" != "status";
    assert Enumerates(lvs, labels);
    SortAscends(lvs);
    AscendingIsUnique(SortByLabel(lvs), lvs);
    KeyFrom(lvs, labels);
    assert lvs[1..] == [b];
    assert "owner=" + owner + ",status=" + status == ("owner" + "=" + owner) + "," + ("status" + "=" + status);
  }

  lemma TextAfterLastEquals(p: string, x: string, q: string, y: string)
    requires p + "=" + x == q + "=" + y && '=' !in x && '=' !in y
    ensures p == q && x == y
  {
    var s, t := p + "=" + x, q + "=" + y;
    assert s[|p|] == '=' && t[|q|] == '=';
    forall i | |p| < i < |s| ensures s[i] != '=' {
      assert s[i] == x[i - |p| - 1];
    }
    forall i | |q| < i < |t| ensures t[i] != '=' {
      assert t[i] == y[i - |q| - 1];
    }
    assert s[..|p|] == p && t[..|q|] == q && s[|p| + 1..] == x && t[|q| + 1..] == y;
  }

  /** No two pairs of owner and status share a key, whatever characters the owner has. */
  lemma KeysAreInjective(status: string, owner: string, status': string, owner': string)
    requires '=' !in status && '=' !in status'
    requires Key(map["status" := status, "owner" := owner]) == Key(map["status" := status', "owner" := owner'])
    ensures status == status' && owner == owner'
  {
    KeyOfStatusAndOwner(status, owner);
    KeyOfStatusAndOwner(status', owner');
    var p, q := "owner=" + owner + ",status", "owner=" + owner' + ",status";
    assert p + "=" + status == "owner=" + owner + ",status=" + status;
    assert q + "=" + status' == "owner=" + owner' + ",status=" + status';
    TextAfterLastEquals(p, status, q, status');
    Between("owner=", owner, ",status");
    Between("owner=", owner', ",status");
  }

  lemma Between(a: string, b: string, c: string)
    ensures (a + b + c)[|a|..|a + b + c| - |c|] == b
  {
  }

  lemma StatusKeysAreInjective(status: string, status': string)
    requires Key(map["status" := status]) == Key(map["status" := status'])
    ensures status == status'
  {
    KeyOfStatus(status);
    KeyOfStatus(status');
    assert ("status=" + status)[7..] == status && ("status=" + status')[7..] == status';
  }
}
