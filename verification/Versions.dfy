/** The conflict order on versions. */
module Versions {
  import opened Rpc

  /** Lexicographic order on timestamps. */
  predicate Before(a: Timestamp, b: Timestamp) {
    a.ms < b.ms || (a.ms == b.ms && a.counter < b.counter)
  }

  predicate NotAfter(a: Timestamp, b: Timestamp) {
    a == b || Before(a, b)
  }

  /** Positive when rhs is the later timestamp. */
  function CompareTimestamps(lhs: Timestamp, rhs: Timestamp): (r: int)
    ensures r > 0 <==> Before(lhs, rhs)
    ensures r < 0 <==> Before(rhs, lhs)
    ensures r == 0 <==> lhs == rhs
  {
    if lhs.ms < rhs.ms then 1
    else if lhs.ms > rhs.ms then -1
    else if lhs.counter < rhs.counter then 1
    else if lhs.counter > rhs.counter then -1
    else 0
  }

  /**
   * Positive when rhs must replace lhs. Counters only mean something to the owner that
   * issued them, so between owners an equal millisecond keeps lhs.
   */
  function CompareVersions(lhs: Version, rhs: Version): (r: int)
    ensures r == 0 <==> lhs == rhs
    ensures lhs.owner == rhs.owner ==> r == CompareTimestamps(lhs.ts, rhs.ts)
    ensures lhs.owner != rhs.owner ==> (r > 0 <==> lhs.ts.ms < rhs.ts.ms)
  {
    if lhs.owner != rhs.owner then
      if lhs.ts.ms < rhs.ts.ms then 1
      else if lhs.ts.ms > rhs.ts.ms then -1
      else -1
    else if lhs.ts.ms < rhs.ts.ms then 1
    else if lhs.ts.ms > rhs.ts.ms then -1
    else if lhs.ts.counter < rhs.ts.counter then 1
    else if lhs.ts.counter > rhs.ts.counter then -1
    else 0
  }

  /** v may replace than. */
  predicate Newer(v: Version, than: Version) {
    CompareVersions(than, v) > 0
  }

  predicate AtLeast(v: Version, w: Version) {
    v == w || Newer(v, w)
  }

  /** Two owners claim the same millisecond: neither version replaces the other. */
  predicate Tied(a: Version, b: Version) {
    a.owner != b.owner && a.ts.ms == b.ts.ms
  }

  /** Acceptance is a strict partial order, and only ties escape it. */
  lemma NewerIsStrictOrder(a: Version, b: Version, c: Version)
    ensures !Newer(a, a)
    ensures Newer(a, b) ==> !Newer(b, a)
    ensures Newer(a, b) && Newer(b, c) ==> Newer(a, c)
    ensures AtLeast(a, b) || AtLeast(b, a) || Tied(a, b)
    ensures Newer(a, b) ==> Before(b.ts, a.ts)
  {
  }

  /**
   * The order is not weak: being incomparable is not transitive, so the copy that wins
   * can depend on the order of arrival.
   */
  lemma IncomparabilityIsNotTransitive()
    ensures exists a, b, c :: !AtLeast(a, b) && !AtLeast(b, a) && !AtLeast(b, c) && !AtLeast(c, b) && Newer(c, a)
  {
    var a := Version("A", Timestamp(1, 0));
    var b := Version("B", Timestamp(1, 0));
    var c := Version("A", Timestamp(1, 1));
    assert !AtLeast(a, b) && !AtLeast(b, a) && !AtLeast(b, c) && !AtLeast(c, b) && Newer(c, a);
  }
}
