/** The block manager on values: 256 queues of free blocks and the lazy cursor. */
module FreeLists {
  import opened Words

  const BUCKETS: nat := 256
  const UNITS_PER_PAGE: nat := 256

  /** Bucket b holds the addresses of the free blocks filed under length b, oldest first. */
  type Buckets = q: seq<seq<nat>> | |q| == BUCKETS witness seq(BUCKETS, i => [])

  function NoBlocks(): Buckets {
    seq(BUCKETS, i => [])
  }

  /**
   * The cursor fields beside the buckets. The block `initial` stays filed under `initialLength`
   * while pieces are carved off its front; `current` and `currentLength` are what is left of it.
   */
  datatype State = State(q: Buckets, initial: nat, initialLength: nat, current: nat, currentLength: nat)

  /** What oHmbInitImage leaves: no blocks, and every cursor field zero. */
  function Zeroed(): State {
    State(NoBlocks(), 0, 0, 0, 0)
  }

  predicate At(q: Buckets, b: int, i: int) {
    0 <= b < BUCKETS && 0 <= i < |q[b]|
  }

  ghost predicate Filed(q: Buckets, a: nat) {
    exists b, i :: At(q, b, i) && q[b][i] == a
  }

  ghost predicate Distinct(q: Buckets) {
    forall b, i, c, j {:trigger q[b][i], q[c][j]} ::
      At(q, b, i) && At(q, c, j) && q[b][i] == q[c][j] ==> b == c && i == j
  }

  /** The m units at a and the n units at b are disjoint. A block of no units lies inside no other. */
  predicate Apart(a: nat, m: nat, b: nat, n: nat) {
    a + m <= b || b + n <= a
  }

  ghost predicate Separate(q: Buckets) {
    forall b, i, c, j {:trigger q[b][i], q[c][j]} ::
      At(q, b, i) && At(q, c, j) && (b != c || i != j) ==> Apart(q[b][i], b, q[c][j], c)
  }

  ghost predicate CursorOk(s: State) {
    if s.initial == 0 then
      s.initialLength == s.current == s.currentLength == 0
    else
      && At(s.q, s.initialLength, 0)
      && s.q[s.initialLength][0] == s.initial
      && s.initial <= s.current
      && s.current + s.currentLength == s.initial + s.initialLength
  }

  /** The heap invariant, as far as it can be said without the block headers. */
  ghost predicate Inv(s: State) {
    && Separate(s.q)
    && Distinct(s.q)
    && CursorOk(s)
    && forall b, i :: At(s.q, b, i) ==> s.q[b][i] != 0
  }

  // ---- The operations ------------------------------------------------------------------------

  function Append(q: Buckets, b: nat, a: nat): Buckets
    requires b < BUCKETS
  {
    q[b := q[b] + [a]]
  }

  function DropAt(q: Buckets, b: nat, i: nat): Buckets
    requires At(q, b, i)
  {
    q[b := q[b][..i] + q[b][i + 1..]]
  }

  /** The buckets after a lookup has refiled what is left under the cursor. */
  function Refiled(s: State): Buckets
    requires CursorOk(s)
  {
    if s.initial == s.current then s.q
    else Append(DropAt(s.q, s.initialLength, 0), s.currentLength, s.current)
  }

  /** What is left under the cursor does not begin where another free block does. */
  ghost predicate Refileable(s: State) {
    s.initial != s.current ==> !Filed(s.q, s.current)
  }

  /** Linear search for the greatest non-empty bucket below n, or -1. */
  function Greatest(q: Buckets, n: nat): (b: int)
    requires n <= BUCKETS
    ensures -1 <= b < n
    ensures b >= 0 ==> q[b] != []
    ensures forall c :: b < c < n ==> q[c] == []
  {
    if n == 0 then -1 else if q[n - 1] != [] then n - 1 else Greatest(q, n - 1)
  }

  /** The cursor at the head of bucket b. */
  function PointedAt(q: Buckets, b: nat): State
    requires At(q, b, 0)
  {
    State(q, q[b][0], b, q[b][0], b)
  }

  /** oHmbLookup: refile, then point the cursor at the head of the greatest bucket. */
  function Lookup(s: State): (State, bool)
    requires CursorOk(s)
  {
    var q := Refiled(s);
    var b := Greatest(q, BUCKETS);
    if b < 0 then (s.(q := q), false) else (PointedAt(q, b), true)
  }

  function Carve(s: State, target: nat): State
    requires target <= s.currentLength
  {
    s.(current := s.current + target, currentLength := s.currentLength - target)
  }

  function AlignForward(value: nat, align: nat): nat
    requires align > 0
  {
    if value % align != 0 then (value + align - value % align) % TWO64 else value
  }

  function Excess(value: nat, align: nat): nat
    requires align > 0
  {
    if value % align != 0 then align - value % align else 0
  }

  /** What an allocation asks of the page source. */
  function PagesFor(target: nat): nat {
    AlignForward(target, UNITS_PER_PAGE) / UNITS_PER_PAGE
  }

  /** The state after an allocation, the pointer it returns (0 for NULL) and the pages it asked the source for. */
  datatype Outcome = Outcome(s: State, ptr: nat, asked: nat)

  /** The condition of oHmbAllocate: whether the cursor can serve target units, looking one up if it must. */
  function Prepared(s: State, target: nat): (State, bool)
    requires CursorOk(s)
  {
    if target >= 0x100 then (s, false)
    else if s.currentLength >= target then (s, true)
    else
      var (s', found) := Lookup(s);
      (s', found && s'.initialLength >= target)
  }

  /** Whether an allocation of target units looks up. */
  predicate LooksUp(s: State, target: nat) {
    target < 0x100 && s.currentLength < target
  }

  /** An allocation that looks up can refile. */
  ghost predicate CanPrepare(s: State, target: nat) {
    LooksUp(s, target) ==> Refileable(s)
  }

  /** Refiling writes a header at the cursor, and there is a unit for it. */
  predicate HeaderFits(s: State, units: nat) {
    s.initial != s.current ==> s.current < units
  }

  /** The state after pages for target units arrive: their excess is filed at the unit after the first. */
  function ExcessFiled(s: State, target: nat, page: nat): State {
    if target % 256 == 0 then s else s.(q := Append(s.q, Excess(target, UNITS_PER_PAGE), page + 1))
  }

  /** The body of oHmbAllocate for a target length. */
  function Serve(s: State, target: nat, page: nat): Outcome
    requires CursorOk(s)
  {
    var (s', fromCursor) := Prepared(s, target);
    if fromCursor then
      PreparedFits(s, target);
      Outcome(Carve(s', target), s'.current + 1, 0)
    else if page == 0 then
      Outcome(s', 0, PagesFor(target))
    else
      Outcome(ExcessFiled(s', target, page), page + 1, PagesFor(target))
  }

  /** The unfiled units whose links an allocation may write. */
  function Touched(s: State, target: nat, page: nat): set<nat>
    requires CursorOk(s)
  {
    {s.current} + if page != 0 && target % 256 != 0 && !Prepared(s, target).1 then {page + 1} else {}
  }

  /** The unfiled units whose headers an allocation may write. */
  function Written(s: State, target: nat, page: nat): set<nat>
    requires CursorOk(s)
  {
    var ptr := Serve(s, target, page).ptr;
    Touched(s, target, page) + if ptr == 0 then {} else {ptr - 1}
  }

  /** oHmbAllocate, where `page` is what the page source answers if it is asked (0 for NULL). */
  function Allocate(s: State, length: nat, page: nat): Outcome
    requires CursorOk(s)
  {
    Serve(s, (length + 1) % TWO64, page)
  }

  lemma AllocateServes(s: State, length: nat, page: nat)
    requires CursorOk(s)
    ensures Allocate(s, length, page) == Serve(s, (length + 1) % TWO64, page)
  {
  }

  lemma WrittenIs(s: State, target: nat, page: nat)
    requires CursorOk(s)
    ensures var ptr := Serve(s, target, page).ptr;
            && (ptr == 0 ==> Written(s, target, page) == Touched(s, target, page))
            && (ptr != 0 ==> Written(s, target, page) == Touched(s, target, page) + {ptr - 1})
  {
  }

  lemma PreparedFits(s: State, target: nat)
    requires CursorOk(s)
    ensures Prepared(s, target).1 ==> target <= Prepared(s, target).0.currentLength
  {
  }

  lemma ServeCases(s: State, target: nat, page: nat)
    requires CursorOk(s)
    ensures var (s', fromCursor) := Prepared(s, target);
            if fromCursor then
              target <= s'.currentLength && Serve(s, target, page) == Outcome(Carve(s', target), s'.current + 1, 0)
            else if page == 0 then Serve(s, target, page) == Outcome(s', 0, PagesFor(target))
            else Serve(s, target, page) == Outcome(ExcessFiled(s', target, page), page + 1, PagesFor(target))
  {
  }

  lemma TouchedCases(s: State, target: nat, page: nat)
    requires CursorOk(s)
    ensures Touched(s, target, page) ==
              if page == 0 || target % 256 == 0 || Prepared(s, target).1 then {s.current} else {s.current} + {page + 1}
    ensures {s.current} + {} == {s.current}
  {
  }

  // ---- Lemmas about the buckets --------------------------------------------------------------

  /** A block can be filed if it overlaps no filed one. */
  lemma AppendKeepsSeparate(q: Buckets, b: nat, a: nat)
    requires b < BUCKETS && Separate(q)
    requires forall c, j :: At(q, c, j) ==> Apart(a, b, q[c][j], c)
    ensures Separate(Append(q, b, a))
  {
  }

  /** Filing a block keeps addresses distinct exactly when its own was not filed. */
  lemma AppendIsDistinctIff(q: Buckets, b: nat, a: nat)
    requires b < BUCKETS && Distinct(q)
    ensures Distinct(Append(q, b, a)) <==> !Filed(q, a)
  {
    var p := Append(q, b, a);
    assert At(p, b, |q[b]|) && p[b][|q[b]|] == a;
    if Filed(q, a) {
      var c, j :| At(q, c, j) && q[c][j] == a;
      assert At(p, c, j) && p[c][j] == a;
    }
  }

  lemma DropKeepsSeparate(q: Buckets, b: nat, i: nat)
    requires At(q, b, i) && Separate(q)
    ensures Separate(DropAt(q, b, i))
    ensures forall c, j :: At(DropAt(q, b, i), c, j) ==> Apart(q[b][i], b, DropAt(q, b, i)[c][j], c)
  {
  }

  /** Where entry j of bucket c stood before entry i of bucket b was dropped. */
  function Before(b: nat, i: nat, c: int, j: int): int {
    if c == b && j >= i then j + 1 else j
  }

  // ---- The invariant -------------------------------------------------------------------------

  /** What is left under the cursor may replace the block it was carved from, as far as overlap goes. */
  lemma RefiledKeepsSeparate(s: State)
    requires Inv(s) && s.initial != s.current
    ensures At(s.q, s.initialLength, 0) && s.q[s.initialLength][0] == s.initial
    ensures Separate(Refiled(s))
  {
    var p := DropAt(s.q, s.initialLength, 0);
    DropKeepsSeparate(s.q, s.initialLength, 0);
    forall c, j | At(p, c, j)
      ensures Apart(s.current, s.currentLength, p[c][j], c)
    {
      assert Apart(s.initial, s.initialLength, p[c][j], c);
    }
    AppendKeepsSeparate(p, s.currentLength, s.current);
  }

  lemma DropKeepsDistinct(q: Buckets, b: nat, i: nat)
    requires At(q, b, i) && Distinct(q)
    ensures Distinct(DropAt(q, b, i))
    ensures forall a: nat :: Filed(q, a) <==> Filed(DropAt(q, b, i), a) || a == q[b][i]
  {
    var p := DropAt(q, b, i);
    forall c, j | At(p, c, j)
      ensures At(q, c, Before(b, i, c, j)) && p[c][j] == q[c][Before(b, i, c, j)]
    {
    }
    forall a: nat | Filed(q, a) && a != q[b][i]
      ensures Filed(p, a)
    {
      var c, j :| At(q, c, j) && q[c][j] == a;
      var k := if c == b && j > i then j - 1 else j;
      assert At(p, c, k) && p[c][k] == a;
    }
  }

  /**
   * A refiling keeps addresses distinct exactly when no other block begins where the remainder does. One that
   * does begins where the block carved from ends, all of which is used up.
   */
  lemma RefilingIsDistinctIff(s: State)
    requires Inv(s) && s.initial != s.current
    ensures Distinct(Refiled(s)) <==> !Filed(s.q, s.current)
    ensures Filed(s.q, s.current) ==> s.currentLength == 0 && s.current == s.initial + s.initialLength
  {
    DropKeepsDistinct(s.q, s.initialLength, 0);
    AppendIsDistinctIff(DropAt(s.q, s.initialLength, 0), s.currentLength, s.current);
    if Filed(s.q, s.current) {
      var b, i :| At(s.q, b, i) && s.q[b][i] == s.current;
      assert Apart(s.q[b][i], b, s.q[s.initialLength][0], s.initialLength);
    }
  }

  /** A block filed after the refiling is what was under the cursor, or was filed before and is not `initial`. */
  lemma RefiledEntry(s: State, b: int, i: int)
    requires Inv(s) && At(Refiled(s), b, i)
    ensures var k := if s.initial == s.current then i else Before(s.initialLength, 0, b, i);
            (b == s.currentLength && Refiled(s)[b][i] == s.current)
            || (At(s.q, b, k) && s.q[b][k] == Refiled(s)[b][i] && s.q[b][k] != s.initial)
  {
  }

  /** A refiling leaves some block filed, so it is never followed by a failing scan. */
  lemma RefiledIsNotEmpty(s: State)
    requires Inv(s) && s.initial != s.current
    ensures Greatest(Refiled(s), BUCKETS) >= 0
  {
    assert Refiled(s)[s.currentLength] != [];
  }

  /** A lookup keeps the invariant exactly when it can refile. One that fails changes nothing. */
  lemma LookupKeepsInv(s: State)
    requires Inv(s)
    ensures Inv(Lookup(s).0) <==> Refileable(s)
    ensures !Lookup(s).1 ==> Lookup(s).0 == s
  {
    if s.initial != s.current {
      RefiledKeepsSeparate(s);
      RefilingIsDistinctIff(s);
      RefiledIsNotEmpty(s);
    }
    forall b, i | At(Refiled(s), b, i)
      ensures Refiled(s)[b][i] != 0
    {
      RefiledEntry(s, b, i);
    }
    var b := Greatest(Refiled(s), BUCKETS);
    assert b >= 0 ==> At(Refiled(s), b, 0);
  }

  /** The cursor is at the oldest block of the greatest bucket in use; not found exactly when no bucket is in use. */
  ghost predicate TakesOldestOfGreatest(q: Buckets, s: State, found: bool) {
    && s.q == q
    && (found <==> exists b :: 0 <= b < BUCKETS && q[b] != [])
    && (found ==>
          && s.currentLength == s.initialLength < BUCKETS && q[s.initialLength] != []
          && s.initial == s.current == q[s.initialLength][0]
          && forall b :: s.initialLength < b < BUCKETS ==> q[b] == [])
  }

  lemma LookupTakesOldestOfGreatest(s: State)
    requires CursorOk(s)
    ensures TakesOldestOfGreatest(Refiled(s), Lookup(s).0, Lookup(s).1)
  {
  }

  /** What an allocation relies on, should it ask the page source and be given pages: room for the remainder. */
  ghost predicate PageOk(s: State, target: nat, page: nat, units: nat)
    requires CursorOk(s)
  {
    page != 0 && !Prepared(s, target).1 ==>
      page < units
      && (target % 256 != 0 ==>
            page + 1 + Excess(target, UNITS_PER_PAGE) <= units && !Filed(Prepared(s, target).0.q, page + 1))
  }

  lemma PreparedKeeps(s: State, target: nat)
    requires Inv(s) && CanPrepare(s, target)
    ensures Inv(Prepared(s, target).0)
  {
    if LooksUp(s, target) {
      LookupKeepsInv(s);
    }
  }

  /** Preparing files no address but the one under the cursor. */
  lemma PreparedFiled(s: State, target: nat)
    requires Inv(s)
    ensures forall a: nat :: Filed(Prepared(s, target).0.q, a) ==> Filed(s.q, a) || a == s.current
  {
  }

  /** The page remainder is at most one bucket's worth and lies inside the pages. */
  lemma PageSplit(target: nat)
    requires 0 < target <= TWO64 - UNITS_PER_PAGE
    ensures UNITS_PER_PAGE * PagesFor(target) == target + Excess(target, UNITS_PER_PAGE)
    ensures Excess(target, UNITS_PER_PAGE) < BUCKETS && PagesFor(target) > 0
  {
  }
}
