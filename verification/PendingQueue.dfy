/** The bounded queue of updates waiting to be sent to one node. */
module PendingQueue {
  import opened Rpc

  datatype Queue<T> = Queue(limit: nat, pending: seq<T>, closed: bool)

  function Pushed<T>(q: Queue<T>, u: T): Queue<T> {
    var kept := if |q.pending| > q.limit then q.pending[1..] else q.pending;
    if q.closed then q.(pending := kept) else q.(pending := kept + [u])
  }

  /** Take waits until there is something to return: an update, or the news that the queue is closed. */
  predicate Ready<T>(q: Queue<T>) {
    q.pending != [] || q.closed
  }

  function Taken<T>(q: Queue<T>): (r: (Option<T>, Queue<T>))
    requires Ready(q)
  {
    if q.closed then (None, q) else (Some(q.pending[0]), q.(pending := q.pending[1..]))
  }

  function Closed<T>(q: Queue<T>): Queue<T> {
    q.(closed := true)
  }

  class PendingUpdates {
    const limit: int
    var pending: seq<Member>
    var closed: bool

    function Contents(): Queue<Member>
      requires limit >= 0
      reads this
    {
      Queue(limit, pending, closed)
    }

    constructor (limit: int)
      ensures this.limit == limit && pending == [] && !closed
    {
      this.limit := limit;
      pending := [];
      closed := false;
    }

    /** With a negative limit the source slices an empty queue and panics. */
    method Push(u: Member)
      requires limit >= 0
      modifies this
      ensures Contents() == Pushed(old(Contents()), u)
    {
      if |pending| > limit {
        pending := pending[1..];
      }
      if closed {
        return;
      }
      pending := pending + [u];
    }

    method Take() returns (u: Option<Member>)
      requires limit >= 0 && Ready(Contents())
      modifies this
      ensures (u, Contents()) == Taken(old(Contents()))
    {
      if closed {
        return None;
      }
      u := Some(pending[0]);
      pending := pending[1..];
    }

    method Close()
      modifies this
      ensures closed && pending == old(pending)
    {
      closed := true;
    }
  }

  // ----- Many pushes -----

  /** The queue after pushing every update in turn. */
  function PushedAll<T>(q: Queue<T>, us: seq<T>): Queue<T> {
    if us == [] then q else Pushed(PushedAll(q, us[..|us| - 1]), us[|us| - 1])
  }

  function Newest<T>(us: seq<T>, n: nat): seq<T> {
    if |us| <= n then us else us[|us| - n..]
  }

  /** An open queue keeps all updates as long as at most one more than the limit are pending, and else the newest. */
  lemma {:induction false} PushesKeepNewest<T>(q: Queue<T>, us: seq<T>)
    requires !q.closed && |q.pending| <= q.limit + 1
    ensures PushedAll(q, us) == Queue(q.limit, Newest(q.pending + us, q.limit + 1), false)
  {
    if us == [] {
      assert q.pending + us == q.pending;
    } else {
      var (init, u) := (us[..|us| - 1], us[|us| - 1]);
      PushesKeepNewest(q, init);
      assert q.pending + us == (q.pending + init) + [u];
    }
  }

  /** Pushes to a closed queue let nothing in, and the first of them sheds what is over the limit. */
  lemma {:induction false} PushesShedWhenClosed<T>(q: Queue<T>, us: seq<T>)
    requires q.closed && |q.pending| <= q.limit + 1 && us != []
    ensures PushedAll(q, us) == q.(pending := Newest(q.pending, q.limit))
  {
    if |us| > 1 {
      PushesShedWhenClosed(q, us[..|us| - 1]);
    } else {
      assert PushedAll(q, us[..0]) == q;
    }
  }

  lemma {:induction false} PushedFirst<T>(q: Queue<T>, u: T, us: seq<T>)
    ensures PushedAll(q, [u] + us) == PushedAll(Pushed(q, u), us)
  {
    var all := [u] + us;
    if us == [] {
      assert all[..0] == [];
    } else {
      PushedFirst(q, u, us[..|us| - 1]);
      assert all[..|all| - 1] == [u] + us[..|us| - 1];
    }
  }

  // ----- Where every update goes -----

  datatype Op<T> = Push(u: T) | Take | Close

  datatype Fate = WasTaken | WasDropped

  /**
   * A queue with what went in, what was taken out and what was dropped, each in order, and
   * the fate of each update that left the queue, in the order they were pushed.
   */
  datatype Ledger<T> = Ledger(q: Queue<T>, pushed: seq<T>, taken: seq<T>, dropped: seq<T>, fates: seq<Fate>)

  function RecordPush<T>(l: Ledger<T>, u: T): Ledger<T> {
    var full := |l.q.pending| > l.q.limit;
    Ledger(Pushed(l.q, u),
           if l.q.closed then l.pushed else l.pushed + [u],
           l.taken,
           if full then l.dropped + [l.q.pending[0]] else l.dropped,
           if full then l.fates + [WasDropped] else l.fates)
  }

  /** A Take that would wait is not a step, and one on a closed queue takes nothing. */
  function RecordTake<T>(l: Ledger<T>): Ledger<T> {
    if !Ready(l.q) then l
    else
      var (u, q) := Taken(l.q);
      if u.None? then l.(q := q)
      else l.(q := q, taken := l.taken + [u.value], fates := l.fates + [WasTaken])
  }

  function Record<T>(l: Ledger<T>, op: Op<T>): Ledger<T> {
    match op
    case Push(u) => RecordPush(l, u)
    case Take => RecordTake(l)
    case Close => l.(q := Closed(l.q))
  }

  function RunOps<T>(limit: nat, ops: seq<Op<T>>): Ledger<T> {
    if ops == [] then Ledger(Queue(limit, [], false), [], [], [], [])
    else Record(RunOps(limit, ops[..|ops| - 1]), ops[|ops| - 1])
  }

  /** The updates that met the given fate, in order. */
  function Select<T>(xs: seq<T>, fates: seq<Fate>, fate: Fate): seq<T>
    requires |xs| == |fates|
  {
    if xs == [] then []
    else Select(xs[..|xs| - 1], fates[..|xs| - 1], fate) + if fates[|xs| - 1] == fate then [xs[|xs| - 1]] else []
  }

  /** Pushes split into those that left the queue, each with one fate, and those still pending. */
  predicate Balanced<T(==)>(l: Ledger<T>) {
    var gone := |l.fates|;
    && gone <= |l.pushed|
    && l.q.pending == l.pushed[gone..]
    && l.taken == Select(l.pushed[..gone], l.fates, WasTaken)
    && l.dropped == Select(l.pushed[..gone], l.fates, WasDropped)
    && |l.q.pending| <= l.q.limit + 1
  }

  lemma SelectNext<T>(pushed: seq<T>, fates: seq<Fate>, fate: Fate)
    requires |fates| < |pushed|
    ensures forall f :: (
      Select(pushed[..|fates| + 1], fates + [fate], f) ==
      Select(pushed[..|fates|], fates, f) + if f == fate then [pushed[|fates|]] else [])
  {
    var xs, all := pushed[..|fates| + 1], fates + [fate];
    assert xs[..|xs| - 1] == pushed[..|fates|] && all[..|xs| - 1] == fates;
  }

  lemma PushKeepsBalance<T>(l: Ledger<T>, u: T)
    requires Balanced(l)
    ensures Balanced(RecordPush(l, u))
  {
    var gone, l' := |l.fates|, RecordPush(l, u);
    assert l'.pushed[..gone] == l.pushed[..gone];
    if |l.q.pending| > l.q.limit {
      SelectNext(l'.pushed, l.fates, WasDropped);
    }
  }

  lemma TakeKeepsBalance<T>(l: Ledger<T>)
    requires Balanced(l)
    ensures Balanced(RecordTake(l))
  {
    if l.q.pending != [] {
      SelectNext(l.pushed, l.fates, WasTaken);
    }
  }

  /**
   * Over any sequence of operations, every push left the queue with one fate, in push order,
   * or is still pending; takes and drops are those of either fate, in order; and at most one
   * more than the limit are pending.
   */
  lemma {:induction false} EveryUpdateIsAccountedFor<T>(limit: nat, ops: seq<Op<T>>)
    ensures Balanced(RunOps(limit, ops)) && RunOps(limit, ops).q.limit == limit
  {
    if ops != [] {
      var l := RunOps(limit, ops[..|ops| - 1]);
      EveryUpdateIsAccountedFor(limit, ops[..|ops| - 1]);
      match ops[|ops| - 1]
      case Push(u) => PushKeepsBalance(l, u);
      case Take => TakeKeepsBalance(l);
      case Close =>
    }
  }

  lemma {:induction false} SelectSizes<T>(xs: seq<T>, fates: seq<Fate>)
    requires |xs| == |fates|
    ensures |Select(xs, fates, WasTaken)| + |Select(xs, fates, WasDropped)| == |xs|
  {
    if xs != [] {
      SelectSizes(xs[..|xs| - 1], fates[..|xs| - 1]);
    }
  }

  /** Nothing is lost or repeated: the three counts add up to the pushes. */
  lemma {:induction false} CountsAddUp<T>(limit: nat, ops: seq<Op<T>>)
    ensures var l := RunOps(limit, ops); |l.taken| + |l.dropped| + |l.q.pending| == |l.pushed|
  {
    EveryUpdateIsAccountedFor(limit, ops);
    var l := RunOps(limit, ops);
    SelectSizes(l.pushed[..|l.fates|], l.fates);
  }

  lemma {:induction false} SelectAll<T>(xs: seq<T>, fates: seq<Fate>)
    requires |xs| == |fates| && Select(xs, fates, WasDropped) == []
    ensures Select(xs, fates, WasTaken) == xs
  {
    if xs != [] {
      SelectAll(xs[..|xs| - 1], fates[..|xs| - 1]);
    }
  }

  /** Without drops the queue is first in, first out. */
  lemma {:induction false} WithoutDropsFirstInFirstOut<T>(limit: nat, ops: seq<Op<T>>)
    requires RunOps(limit, ops).dropped == []
    ensures var l := RunOps(limit, ops); l.taken + l.q.pending == l.pushed
  {
    EveryUpdateIsAccountedFor(limit, ops);
    var l := RunOps(limit, ops);
    SelectAll(l.pushed[..|l.fates|], l.fates);
  }

  /** Nothing is taken or let in once the queue is closed. */
  lemma {:induction false} NothingAfterClose<T>(limit: nat, ops: seq<Op<T>>, more: seq<Op<T>>)
    requires RunOps(limit, ops).q.closed
    ensures var l := RunOps(limit, ops + more);
      l.q.closed && l.taken == RunOps(limit, ops).taken && l.pushed == RunOps(limit, ops).pushed
  {
    if more == [] {
      assert ops + more == ops;
    } else {
      NothingAfterClose(limit, ops, more[..|more| - 1]);
      assert (ops + more)[..|ops + more| - 1] == ops + more[..|more| - 1];
    }
  }
}
