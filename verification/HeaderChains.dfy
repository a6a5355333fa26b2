/** The block headers as a sequence of units, and what linking and unlinking a block does to the chains. */
module HeaderChains {
  import opened FreeLists

  /** The 16-byte unit read as a block header. */
  datatype Header = Header(next: nat, length: nat, prevOrLast: nat, used: bool)

  function HeadOf(s: seq<nat>): nat {
    if s == [] then 0 else s[0]
  }

  /** The next field of entry i of a chain. */
  function NextOf(s: seq<nat>, i: nat): nat
    requires i < |s|
  {
    if i + 1 < |s| then s[i + 1] else 0
  }

  /** The prevOrLast field of entry i: the head holds the last block, the others their predecessor. */
  function PrevOf(s: seq<nat>, i: nat): nat
    requires i < |s|
  {
    if i == 0 then s[|s| - 1] else s[i - 1]
  }

  ghost predicate InMemory(q: Buckets, units: nat) {
    forall b, i :: At(q, b, i) ==> 0 < q[b][i] < units && q[b][i] + b <= units
  }

  ghost predicate NextOk(q: Buckets, m: seq<Header>, b: int, i: int)
    requires At(q, b, i) && InMemory(q, |m|)
  {
    m[q[b][i]].next == NextOf(q[b], i)
  }

  ghost predicate PrevOk(q: Buckets, m: seq<Header>, b: int, i: int)
    requires At(q, b, i) && InMemory(q, |m|)
  {
    m[q[b][i]].prevOrLast == PrevOf(q[b], i)
  }

  /** Every bucket is a well-formed chain. */
  ghost predicate Linked(q: Buckets, m: seq<Header>) {
    && Distinct(q)
    && InMemory(q, |m|)
    && (forall b, i {:trigger NextOk(q, m, b, i)} :: At(q, b, i) ==> NextOk(q, m, b, i))
    && (forall b, i {:trigger PrevOk(q, m, b, i)} :: At(q, b, i) ==> PrevOk(q, m, b, i))
  }

  function WithNext(m: seq<Header>, a: nat, next: nat): seq<Header>
    requires a < |m|
  {
    m[a := m[a].(next := next)]
  }

  function WithPrev(m: seq<Header>, a: nat, prev: nat): seq<Header>
    requires a < |m|
  {
    m[a := m[a].(prevOrLast := prev)]
  }

  /** The headers after block is linked behind the last block of a bucket. */
  function Appended(q: Buckets, m: seq<Header>, b: nat, block: nat): seq<Header>
    requires b < BUCKETS && InMemory(q, |m|) && block < |m|
  {
    if q[b] == [] then WithPrev(WithNext(m, block, 0), block, block)
    else
      var last := q[b][|q[b]| - 1];
      WithPrev(WithPrev(WithNext(WithNext(m, block, 0), last, block), block, last), q[b][0], block)
  }

  lemma AppendKeepsShape(q: Buckets, b: nat, block: nat, units: nat)
    requires Distinct(q) && InMemory(q, units) && b < BUCKETS
    requires 0 < block < units && block + b <= units && !Filed(q, block)
    ensures Distinct(Append(q, b, block)) && InMemory(Append(q, b, block), units)
  {
  }

  /** Entries that were there keep well-formed links. */
  lemma AppendKeepsEntry(q: Buckets, m: seq<Header>, b: nat, block: nat, c: int, j: int)
    requires Linked(q, m) && b < BUCKETS && At(q, c, j)
    requires 0 < block < |m| && block + b <= |m| && !Filed(q, block)
    requires InMemory(Append(q, b, block), |m|)
    ensures NextOk(Append(q, b, block), Appended(q, m, b, block), c, j)
    ensures PrevOk(Append(q, b, block), Appended(q, m, b, block), c, j)
  {
    assert NextOk(q, m, c, j) && PrevOk(q, m, c, j);
    var a := q[c][j];
    assert a != block;
    if q[b] != [] {
      assert At(q, b, 0) && At(q, b, |q[b]| - 1);
      assert a == q[b][0] <==> c == b && j == 0;
      assert a == q[b][|q[b]| - 1] <==> c == b && j == |q[b]| - 1;
    }
  }

  lemma AppendKeepsLinked(q: Buckets, m: seq<Header>, b: nat, block: nat)
    requires Linked(q, m) && b < BUCKETS
    requires 0 < block < |m| && block + b <= |m| && !Filed(q, block)
    ensures Linked(Append(q, b, block), Appended(q, m, b, block))
  {
    var p := Append(q, b, block);
    var m' := Appended(q, m, b, block);
    AppendKeepsShape(q, b, block, |m|);
    forall c, j | At(p, c, j)
      ensures NextOk(p, m', c, j) && PrevOk(p, m', c, j)
    {
      if At(q, c, j) {
        AppendKeepsEntry(q, m, b, block, c, j);
      } else if q[b] != [] {
        assert At(q, b, 0) && At(q, b, j - 1);
        assert q[b][0] != block && q[b][j - 1] != block;
      }
    }
  }

  /** A block filed twice is in two places of the queues, and no headers link those. */
  lemma NoSecondFiling(q: Buckets, b: nat, block: nat)
    requires Distinct(q) && b < BUCKETS && Filed(q, block)
    ensures forall m: seq<Header> :: !Linked(Append(q, b, block), m)
  {
    AppendIsDistinctIff(q, b, block);
  }

  /** The headers after entry i of bucket b is unlinked. */
  function Removed(q: Buckets, m: seq<Header>, b: nat, i: nat): seq<Header>
    requires At(q, b, i) && InMemory(q, |m|)
  {
    var s := q[b];
    if |s| == 1 then m
    else if i == 0 then WithPrev(m, s[1], m[s[0]].prevOrLast)
    else
      var m' := WithNext(m, s[i - 1], m[s[i]].next);
      if i == |s| - 1 then WithPrev(m', s[0], s[i - 1]) else m'
  }

  /** Entry i has both a predecessor and a successor. */
  predicate Middle(q: Buckets, b: nat, i: nat)
    requires At(q, b, i)
  {
    0 < i < |q[b]| - 1
  }

  lemma RemoveKeepsShape(q: Buckets, b: nat, i: nat, units: nat)
    requires Distinct(q) && InMemory(q, units) && At(q, b, i)
    ensures Distinct(DropAt(q, b, i)) && InMemory(DropAt(q, b, i), units)
  {
  }

  lemma HeadRemovalKeepsEntry(q: Buckets, m: seq<Header>, b: nat, c: int, j: int)
    requires Linked(q, m) && At(q, b, 0) && At(DropAt(q, b, 0), c, j)
    requires InMemory(DropAt(q, b, 0), |m|)
    ensures NextOk(DropAt(q, b, 0), Removed(q, m, b, 0), c, j)
    ensures PrevOk(DropAt(q, b, 0), Removed(q, m, b, 0), c, j)
  {
    var k := Before(b, 0, c, j);
    var s := q[b];
    assert At(q, c, k) && DropAt(q, b, 0)[c][j] == q[c][k];
    assert NextOk(q, m, c, k) && PrevOk(q, m, c, k) && PrevOk(q, m, b, 0);
    if |s| > 1 {
      assert At(q, b, 1);
      assert q[c][k] == s[1] <==> c == b && k == 1;
    }
  }

  /** Which entries a removal behind the head rewrites. */
  lemma InnerNeighbours(q: Buckets, b: nat, i: nat, c: int, k: int)
    requires Distinct(q) && At(q, b, i) && i > 0 && At(q, c, k)
    ensures q[c][k] == q[b][i - 1] <==> c == b && k == i - 1
    ensures q[c][k] == q[b][0] <==> c == b && k == 0
    ensures q[b][i] != q[b][i - 1]
  {
    assert At(q, b, i - 1) && At(q, b, 0);
  }

  lemma InnerRemovalKeepsNext(q: Buckets, m: seq<Header>, b: nat, i: nat, c: int, j: int)
    requires Linked(q, m) && At(q, b, i) && i > 0 && At(DropAt(q, b, i), c, j)
    requires InMemory(DropAt(q, b, i), |m|)
    ensures NextOk(DropAt(q, b, i), Removed(q, m, b, i), c, j)
  {
    var k := Before(b, i, c, j);
    assert At(q, c, k) && DropAt(q, b, i)[c][j] == q[c][k] && At(q, b, i - 1) && At(q, b, 0);
    assert NextOk(q, m, c, k) && NextOk(q, m, b, i);
    InnerNeighbours(q, b, i, c, k);
    hide Distinct, Linked;
  }

  lemma InnerRemovalKeepsPrev(q: Buckets, m: seq<Header>, b: nat, i: nat, c: int, j: int)
    requires Linked(q, m) && At(q, b, i) && i > 0 && At(DropAt(q, b, i), c, j)
    requires InMemory(DropAt(q, b, i), |m|)
    ensures PrevOk(DropAt(q, b, i), Removed(q, m, b, i), c, j) <==> !(Middle(q, b, i) && c == b && j == i)
  {
    var k := Before(b, i, c, j);
    assert At(q, c, k) && DropAt(q, b, i)[c][j] == q[c][k] && At(q, b, i - 1) && At(q, b, 0);
    assert PrevOk(q, m, c, k) && NextOk(q, m, b, i);
    InnerNeighbours(q, b, i, c, k);
    hide Distinct, Linked;
  }

  /** Every link of every remaining block is right, except the successor's back link after a middle removal. */
  lemma RemoveKeepsEntry(q: Buckets, m: seq<Header>, b: nat, i: nat, c: int, j: int)
    requires Linked(q, m) && At(q, b, i) && At(DropAt(q, b, i), c, j)
    requires InMemory(DropAt(q, b, i), |m|)
    ensures NextOk(DropAt(q, b, i), Removed(q, m, b, i), c, j)
    ensures PrevOk(DropAt(q, b, i), Removed(q, m, b, i), c, j) <==> !(Middle(q, b, i) && c == b && j == i)
  {
    hide Linked, InMemory, NextOk, PrevOk, DropAt, Removed;
    if i == 0 {
      HeadRemovalKeepsEntry(q, m, b, c, j);
    } else {
      InnerRemovalKeepsNext(q, m, b, i, c, j);
      InnerRemovalKeepsPrev(q, m, b, i, c, j);
    }
  }

  /** Removal keeps every chain well formed exactly when the block was not in the middle of its chain. */
  lemma RemoveKeepsLinked(q: Buckets, m: seq<Header>, b: nat, i: nat)
    requires Linked(q, m) && At(q, b, i)
    ensures Linked(DropAt(q, b, i), Removed(q, m, b, i)) <==> !Middle(q, b, i)
  {
    var p := DropAt(q, b, i);
    RemoveKeepsShape(q, b, i, |m|);
    forall c, j | At(p, c, j)
      ensures NextOk(p, Removed(q, m, b, i), c, j)
      ensures PrevOk(p, Removed(q, m, b, i), c, j) <==> !(Middle(q, b, i) && c == b && j == i)
    {
      RemoveKeepsEntry(q, m, b, i, c, j);
    }
    if Middle(q, b, i) {
      assert At(p, b, i);
    }
  }

  /** Linking a block writes no unit that is not then filed. */
  lemma AppendedFrame(q: Buckets, m: seq<Header>, b: nat, block: nat)
    requires b < BUCKETS && InMemory(q, |m|) && block < |m|
    ensures forall a: nat :: a < |m| && !Filed(q, a) && a != block ==> Appended(q, m, b, block)[a] == m[a]
  {
  }

  /** Stamping a header as allocated leaves the chains as they are. */
  lemma StampKeepsLinked(q: Buckets, m: seq<Header>, a: nat, length: nat)
    requires Linked(q, m) && a < |m|
    ensures Linked(q, m[a := m[a].(used := true, length := length)])
  {
    var m' := m[a := m[a].(used := true, length := length)];
    forall b, i | At(q, b, i)
      ensures NextOk(q, m', b, i) && PrevOk(q, m', b, i)
    {
      assert NextOk(q, m, b, i) && PrevOk(q, m, b, i);
    }
  }

  /** The lists survive whatever is written outside the headers of free blocks. */
  lemma WriteKeepsLinked(q: Buckets, m: seq<Header>, a: nat, unit: Header)
    requires Linked(q, m) && a < |m| && !Filed(q, a)
    ensures Linked(q, m[a := unit])
  {
    forall b, i | At(q, b, i)
      ensures NextOk(q, m[a := unit], b, i) && PrevOk(q, m[a := unit], b, i)
    {
      assert NextOk(q, m, b, i) && PrevOk(q, m, b, i);
    }
  }

  ghost predicate LinkedWith(q: Buckets, m: seq<Header>, a: nat, unit: Header)
    requires a < |m|
  {
    Linked(q, m[a := unit])
  }

  /** The lists survive every write to a unit exactly when it is not the header of a free block. */
  lemma WritesKeepLinkedIff(q: Buckets, m: seq<Header>, a: nat)
    requires Linked(q, m) && a < |m|
    ensures (forall unit: Header :: LinkedWith(q, m, a, unit)) <==> !Filed(q, a)
  {
    if Filed(q, a) {
      var b, i :| At(q, b, i) && q[b][i] == a;
      var unit := m[a].(next := m[a].next + 1);
      assert NextOk(q, m, b, i) && !NextOk(q, m[a := unit], b, i);
      assert !LinkedWith(q, m, a, unit);
    } else {
      forall unit: Header
        ensures LinkedWith(q, m, a, unit)
      {
        WriteKeepsLinked(q, m, a, unit);
      }
    }
  }

  /** m and n agree on every unit that is neither a block filed in q nor in xs. */
  ghost predicate SameBut(q: Buckets, xs: set<nat>, m: seq<Header>, n: seq<Header>) {
    |m| == |n| && forall a: nat :: a < |m| && !Filed(q, a) && a !in xs ==> m[a] == n[a]
  }

  /** One more header written. */
  lemma SameButOne(q: Buckets, xs: set<nat>, m: seq<Header>, m': seq<Header>, a: nat, h: Header)
    requires SameBut(q, xs, m', m) && a < |m|
    ensures SameBut(q, xs + {a}, m'[a := h], m)
  {
  }

  lemma SameButTwice(
      q: Buckets, p: Buckets, xs: set<nat>, ys: set<nat>, m: seq<Header>, m': seq<Header>, m'': seq<Header>)
    requires SameBut(q, xs, m', m) && SameBut(p, ys, m'', m')
    requires forall a: nat :: Filed(p, a) ==> Filed(q, a) || a in xs
    ensures SameBut(q, xs + ys, m'', m)
  {
  }

  /** What unlinking one block and linking another touches. */
  lemma MoveFrame(q: Buckets, m: seq<Header>, b: nat, i: nat, c: nat, block: nat)
    requires At(q, b, i) && InMemory(q, |m|) && InMemory(DropAt(q, b, i), |m|) && c < BUCKETS && block < |m|
    ensures SameBut(q, {block}, Appended(DropAt(q, b, i), Removed(q, m, b, i), c, block), m)
  {
  }

  lemma AppendThenDrop(q: Buckets, b: nat, block: nat)
    requires b < BUCKETS
    ensures At(Append(q, b, block), b, |q[b]|) && DropAt(Append(q, b, block), b, |q[b]|) == q
  {
    assert DropAt(Append(q, b, block), b, |q[b]|)[b] == q[b];
  }

  /** The writes of linking block behind last and unlinking it again, head being the head of the chain. */
  lemma UnlinkRestores(m: seq<Header>, head: nat, last: nat, block: nat)
    requires head < |m| && last < |m| && block < |m| && block != head && block != last
    requires m[last].next == 0 && m[head].prevOrLast == last
    ensures var linked := WithPrev(WithPrev(WithNext(WithNext(m, block, 0), last, block), block, last), head, block);
            WithPrev(WithNext(linked, last, linked[block].next), head, last)[block := m[block]] == m
  {
  }

  /** The ends of a chain name each other. */
  lemma EndsOfChain(q: Buckets, m: seq<Header>, b: nat, block: nat)
    requires Linked(q, m) && b < BUCKETS && q[b] != [] && !Filed(q, block)
    ensures var s := q[b]; var last := s[|s| - 1];
            && s[0] < |m| && last < |m| && s[0] != block && last != block
            && m[last].next == 0 && m[s[0]].prevOrLast == last
  {
    assert At(q, b, 0) && At(q, b, |q[b]| - 1);
    assert PrevOk(q, m, b, 0) && NextOk(q, m, b, |q[b]| - 1);
  }

  /** Linking a fresh block and unlinking it restores every header but the block's own. */
  lemma AppendThenRemove(q: Buckets, m: seq<Header>, b: nat, block: nat)
    requires Linked(q, m) && b < BUCKETS && 0 < block < |m| && block + b <= |m| && !Filed(q, block)
    ensures var p := Append(q, b, block);
            && DropAt(p, b, |q[b]|) == q && At(p, b, |q[b]|) && InMemory(p, |m|)
            && Removed(p, Appended(q, m, b, block), b, |q[b]|)[block := m[block]] == m
  {
    var s := q[b];
    AppendKeepsShape(q, b, block, |m|);
    AppendThenDrop(q, b, block);
    assert Append(q, b, block)[b] == s + [block];
    if s != [] {
      EndsOfChain(q, m, b, block);
      UnlinkRestores(m, s[0], s[|s| - 1], block);
    }
    hide Linked, InMemory, Distinct, DropAt, Filed, Append, At;
  }
}
