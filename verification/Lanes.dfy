/**
 * A linked list that threads append to under a spinlock, one shared access at a time: the events of an
 * event object, and its handlers.
 */
module Lanes {
  import opened Options

  type Ptr = Option<nat>

  /**
   * The list in memory: first, last and the lock word; next and previous are fields of the nodes, which are
   * numbered in the order of their allocation. `order` records the nodes in the order they were linked and
   * `seen`, for each node, how many of them `last` had covered when the node's previous was sampled.
   */
  datatype Lane = Lane(
    first: Ptr, last: Ptr, lock: Ptr, next: seq<Ptr>, previous: seq<Ptr>, order: seq<nat>, seen: seq<nat>)

  function Empty(): Lane {
    Lane(None, None, None, [], [], [], [])
  }

  /**
   * Where a thread stands: outside; holding the lock without a node; waiting for the lock with its node; holding
   * it with the node not yet linked; linked but `last` not yet moved; done, about to release.
   */
  datatype Phase = Out | Entered | Waiting(node: nat) | Holding(node: nat) | Linked(node: nat) | Settled(node: nat)

  /** The accesses. Allocate samples `last` without the lock, AllocateInside with it. */
  datatype Access = Allocate | Take | Enter | AllocateInside | Link | SetLast | Drop

  predicate HoldsLock(p: Phase) {
    p.Entered? || p.Holding? || p.Linked? || p.Settled?
  }

  predicate Enabled(l: Lane, p: Phase, a: Access) {
    match a
    case Allocate => p.Out?
    case Take => p.Waiting? && l.lock == None
    case Enter => p.Out? && l.lock == None
    case AllocateInside => p.Entered?
    case Link => p.Holding?
    case SetLast => p.Linked?
    case Drop => p.Settled?
  }

  /** Whether some thread has linked its node but not yet moved `last`. */
  ghost predicate Lagging(ph: seq<Phase>) {
    exists t :: 0 <= t < |ph| && ph[t].Linked?
  }

  /** How many linked nodes `last` covers. */
  ghost function Covered(l: Lane, ph: seq<Phase>): nat {
    if Lagging(ph) && l.order != [] then |l.order| - 1 else |l.order|
  }

  function LastOf(s: seq<nat>): Ptr {
    if s == [] then None else Some(s[|s| - 1])
  }

  function WithNode(l: Lane, covered: nat): Lane {
    l.(next := l.next + [None], previous := l.previous + [l.last], seen := l.seen + [covered])
  }

  /** Thread t, standing at p, performs the access. */
  ghost function Perform(l: Lane, ph: seq<Phase>, t: nat, a: Access): (Lane, Phase)
    requires t < |ph| && Enabled(l, ph[t], a)
    requires a.Link? && l.first.Some? ==> l.last.Some? && l.last.value < |l.next|
  {
    match a
    case Allocate => (WithNode(l, Covered(l, ph)), Waiting(|l.next|))
    case Take => (l.(lock := Some(t)), Holding(ph[t].node))
    case Enter => (l.(lock := Some(t)), Entered)
    case AllocateInside => (WithNode(l, Covered(l, ph)), Holding(|l.next|))
    case Link =>
      var n := ph[t].node;
      (if l.first == None then l.(first := Some(n), order := l.order + [n])
       else l.(next := l.next[l.last.value := Some(n)], order := l.order + [n]),
       Linked(n))
    case SetLast => (l.(last := Some(ph[t].node)), Settled(ph[t].node))
    case Drop => (l.(lock := None), Out)
  }

  // ---- The invariant -------------------------------------------------------------------------

  predicate HasNode(p: Phase) {
    p.Waiting? || p.Holding? || p.Linked? || p.Settled?
  }

  /** The lock word names the one thread inside. */
  ghost predicate LockOk(l: Lane, ph: seq<Phase>) {
    forall t :: 0 <= t < |ph| ==> (HoldsLock(ph[t]) <==> l.lock == Some(t))
  }

  /** Entry i of the order points to the next entry, the last one nowhere. */
  ghost predicate LinkOk(l: Lane, i: int)
    requires 0 <= i < |l.order| && l.order[i] < |l.next|
  {
    l.next[l.order[i]] == if i + 1 < |l.order| then Some(l.order[i + 1]) else None
  }

  /** The chain from `first` through the next fields is `order`; nodes not in it point nowhere. */
  ghost predicate ChainOk(l: Lane) {
    && |l.next| == |l.previous| == |l.seen|
    && (forall i :: 0 <= i < |l.order| ==> l.order[i] < |l.next|)
    && (forall i, j :: 0 <= i < j < |l.order| ==> l.order[i] != l.order[j])
    && l.first == (if l.order == [] then None else Some(l.order[0]))
    && (forall i {:trigger LinkOk(l, i)} :: 0 <= i < |l.order| ==> LinkOk(l, i))
    && (forall n :: 0 <= n < |l.next| && n !in l.order ==> l.next[n] == None)
  }

  /** A thread's node is its own, and is in the chain once linked. */
  ghost predicate NodesOk(l: Lane, ph: seq<Phase>) {
    && (forall t :: 0 <= t < |ph| && HasNode(ph[t]) ==> ph[t].node < |l.next|)
    && (forall t :: 0 <= t < |ph| && (ph[t].Waiting? || ph[t].Holding?) ==> ph[t].node !in l.order)
    && (forall t, u :: 0 <= t < u < |ph| && HasNode(ph[t]) && HasNode(ph[u]) ==> ph[t].node != ph[u].node)
  }

  /** `last` is the last linked node, or the one before while its thread has still to move it. */
  ghost predicate LastOk(l: Lane, ph: seq<Phase>) {
    && (forall t :: 0 <= t < |ph| && (ph[t].Linked? || ph[t].Settled?) ==> LastOf(l.order) == Some(ph[t].node))
    && l.last == LastOf(l.order[..Covered(l, ph)])
  }

  /** A node's previous is what `last` was when it was sampled. */
  ghost predicate PreviousOk(l: Lane, ph: seq<Phase>) {
    && |l.next| == |l.previous| == |l.seen|
    && (forall n :: 0 <= n < |l.seen| ==> l.seen[n] <= |l.order| && l.previous[n] == LastOf(l.order[..l.seen[n]]))
    && (forall i :: 0 <= i < |l.order| ==> l.order[i] < |l.seen| && l.seen[l.order[i]] <= i)
  }

  ghost predicate LaneInv(l: Lane, ph: seq<Phase>) {
    LockOk(l, ph) && ChainOk(l) && NodesOk(l, ph) && LastOk(l, ph) && PreviousOk(l, ph)
  }

  lemma CanPerform(l: Lane, ph: seq<Phase>, t: nat, a: Access)
    requires LaneInv(l, ph) && t < |ph| && Enabled(l, ph[t], a)
    ensures a.Link? && l.first.Some? ==> l.last.Some? && l.last.value < |l.next|
    ensures a.Link? ==> Covered(l, ph) == |l.order|
  {
  }

  /** Only Link changes the chain. */
  lemma ChainKept(l: Lane, l': Lane)
    requires ChainOk(l) && l'.first == l.first && l'.order == l.order && |l'.next| == |l'.previous| == |l'.seen|
    requires l'.next == l.next || l'.next == l.next + [None]
    ensures ChainOk(l')
  {
    forall i | 0 <= i < |l.order|
      ensures LinkOk(l', i)
    {
      assert LinkOk(l, i);
    }
  }

  lemma LinkKeepsChain(l: Lane, ph: seq<Phase>, t: nat)
    requires LaneInv(l, ph) && t < |ph| && ph[t].Holding? && Covered(l, ph) == |l.order|
    requires l.first.Some? ==> l.last.Some? && l.last.value < |l.next|
    ensures ChainOk(Perform(l, ph, t, Link).0)
  {
    var n, k := ph[t].node, |l.order|;
    var l' := Perform(l, ph, t, Link).0;
    assert l.order[..k] == l.order;
    forall i | 0 <= i < |l'.order|
      ensures LinkOk(l', i)
    {
      if i < k {
        assert LinkOk(l, i) && l'.order[i] == l.order[i];
      }
    }
  }

  lemma LockKept(l: Lane, ph: seq<Phase>, t: nat, a: Access)
    requires LockOk(l, ph) && t < |ph| && Enabled(l, ph[t], a)
    requires a.Link? && l.first.Some? ==> l.last.Some? && l.last.value < |l.next|
    ensures var (l', p) := Perform(l, ph, t, a); LockOk(l', ph[t := p])
  {
  }

  lemma NodesKept(l: Lane, ph: seq<Phase>, t: nat, a: Access)
    requires ChainOk(l) && LockOk(l, ph) && NodesOk(l, ph) && t < |ph| && Enabled(l, ph[t], a)
    requires a.Link? && l.first.Some? ==> l.last.Some? && l.last.value < |l.next|
    ensures var (l', p) := Perform(l, ph, t, a); NodesOk(l', ph[t := p])
  {
  }

  lemma LaggingAfter(l: Lane, ph: seq<Phase>, t: nat, a: Access)
    requires LockOk(l, ph) && t < |ph| && Enabled(l, ph[t], a)
    requires a.Link? && l.first.Some? ==> l.last.Some? && l.last.value < |l.next|
    ensures var p := Perform(l, ph, t, a).1;
            Lagging(ph[t := p]) == if a.Link? then true else if a.SetLast? then false else Lagging(ph)
    ensures a.Link? ==> !Lagging(ph)
    ensures a.SetLast? ==> Lagging(ph)
  {
    var p := Perform(l, ph, t, a).1;
    var ph' := ph[t := p];
    if a.Link? {
      assert ph'[t].Linked?;
    } else if a.SetLast? {
      assert ph[t].Linked?;
    } else {
      if Lagging(ph) {
        var u :| 0 <= u < |ph| && ph[u].Linked?;
        assert ph'[u].Linked?;
      }
      if Lagging(ph') {
        var u :| 0 <= u < |ph| && ph'[u].Linked?;
        assert ph[u].Linked?;
      }
    }
  }

  lemma LastKept(l: Lane, ph: seq<Phase>, t: nat, a: Access)
    requires LockOk(l, ph) && LastOk(l, ph) && t < |ph| && Enabled(l, ph[t], a)
    requires a.Link? && l.first.Some? ==> l.last.Some? && l.last.value < |l.next|
    ensures var (l', p) := Perform(l, ph, t, a); LastOk(l', ph[t := p])
  {
    hide Lagging;
    var (l', p) := Perform(l, ph, t, a);
    var ph' := ph[t := p];
    LaggingAfter(l, ph, t, a);
    forall u | 0 <= u < |ph| && (ph'[u].Linked? || ph'[u].Settled?)
      ensures LastOf(l'.order) == Some(ph'[u].node)
    {
      if u != t {
        assert HoldsLock(ph[u]);
      }
    }
    if a.Link? {
      assert l'.order[..|l.order|] == l.order[..|l.order|];
    } else if a.SetLast? {
      assert l.order[..|l.order|] == l.order;
    }
  }

  lemma PreviousKept(l: Lane, ph: seq<Phase>, t: nat, a: Access)
    requires LaneInv(l, ph) && t < |ph| && Enabled(l, ph[t], a)
    requires a.Link? && l.first.Some? ==> l.last.Some? && l.last.value < |l.next|
    ensures var (l', p) := Perform(l, ph, t, a); PreviousOk(l', ph[t := p])
  {
    var (l', p) := Perform(l, ph, t, a);
    if a.Link? {
      forall n | 0 <= n < |l.seen|
        ensures l'.previous[n] == LastOf(l'.order[..l.seen[n]])
      {
        assert l'.order[..l.seen[n]] == l.order[..l.seen[n]];
      }
    }
  }

  /** Any access of any thread keeps the list well formed. */
  lemma AccessKeepsLane(l: Lane, ph: seq<Phase>, t: nat, a: Access)
    requires LaneInv(l, ph) && t < |ph| && Enabled(l, ph[t], a)
    ensures a.Link? && l.first.Some? ==> l.last.Some? && l.last.value < |l.next|
    ensures var (l', p) := Perform(l, ph, t, a); LaneInv(l', ph[t := p])
  {
    CanPerform(l, ph, t, a);
    LockKept(l, ph, t, a);
    NodesKept(l, ph, t, a);
    LastKept(l, ph, t, a);
    PreviousKept(l, ph, t, a);
    hide LockOk, NodesOk, LastOk, PreviousOk, ChainOk, Covered;
    var l' := Perform(l, ph, t, a).0;
    if a.Link? {
      LinkKeepsChain(l, ph, t);
    } else {
      ChainLengths(l);
      ChainKept(l, l');
    }
  }

  lemma ChainLengths(l: Lane)
    requires ChainOk(l)
    ensures |l.next| == |l.previous| == |l.seen|
  {
  }

  // ---- What the list shows -------------------------------------------------------------------

  /** The nodes met by following next from p, at most fuel of them. */
  ghost function Follow(next: seq<Ptr>, p: Ptr, fuel: nat): seq<nat>
    decreases fuel
  {
    if fuel == 0 || p == None || p.value >= |next| then [] else [p.value] + Follow(next, next[p.value], fuel - 1)
  }

  lemma {:induction false} FollowFrom(l: Lane, i: nat, fuel: nat)
    requires ChainOk(l) && i <= |l.order| && fuel >= |l.order| - i
    ensures Follow(l.next, if i < |l.order| then Some(l.order[i]) else None, fuel) == l.order[i..]
    decreases |l.order| - i
  {
    if i < |l.order| {
      assert LinkOk(l, i);
      FollowFrom(l, i + 1, fuel - 1);
    }
  }

  /** The forward chain is the order of the locked appends, however far one follows it; it ends where `last` is. */
  lemma ChainIsAppendOrder(l: Lane, ph: seq<Phase>, fuel: nat)
    requires LaneInv(l, ph) && fuel >= |l.order|
    ensures Follow(l.next, l.first, fuel) == l.order
    ensures !Lagging(ph) ==> l.last == LastOf(l.order)
  {
    FollowFrom(l, 0, fuel);
    assert l.order[..|l.order|] == l.order;
  }

  /**
   * A node about to be linked has the right previous exactly when `last` stands where it stood when the previous
   * was sampled.
   */
  lemma PreviousIsRightIffLastStood(l: Lane, ph: seq<Phase>, t: nat)
    requires LaneInv(l, ph) && t < |ph| && ph[t].Holding?
    ensures ph[t].node < |l.previous|
    ensures l.previous[ph[t].node] == LastOf(l.order) <==> l.previous[ph[t].node] == l.last
  {
  }

  /**
   * The previous of the i-th linked node names its predecessor exactly when `last` covered all before it at the
   * sample.
   */
  lemma PreviousIsRightIff(l: Lane, ph: seq<Phase>, i: nat)
    requires LaneInv(l, ph) && i < |l.order|
    ensures l.order[i] < |l.previous| && l.seen[l.order[i]] <= i
    ensures l.previous[l.order[i]] == LastOf(l.order[..i]) <==> l.seen[l.order[i]] == i
  {
  }
}
