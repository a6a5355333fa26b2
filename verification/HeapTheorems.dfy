/** What the block manager guarantees, and where its page path and its exact fits fall short. */
module HeapTheorems {
  import opened FreeLists
  import opened HeapRuns
  import opened Words

  // ---- Over every run ------------------------------------------------------------------------

  /**
   * Whatever lookups and refilings lie between them, blocks carved from the cursor are disjoint, and in received
   * memory.
   */
  lemma CarvedBlocksNeverOverlap(units: nat, ws: seq<World>, ops: seq<Op>, n: nat)
    requires Run(units, ws, ops) && n <= |ops|
    ensures forall j, k :: 0 <= j < k < |ws[n].carved| ==> Disjoint(ws[n].carved[j], ws[n].carved[k])
    ensures forall j, k :: 0 <= j < k < |ws[n].paged| ==> Disjoint(ws[n].paged[j], ws[n].paged[k])
    ensures forall k :: 0 <= k < |ws[n].carved| ==> Covered(ws[n].regions, ws[n].carved[k].at, ws[n].carved[k].size)
    ensures forall k :: 0 <= k < |ws[n].paged| ==> CutFrom(ws[n].regions, ws[n].paged[k])
  {
    RunsKeepWorldInv(units, ws, ops, n);
  }

  /** A region was received in the run: its pages were asked for and given, or it was inserted. */
  ghost predicate Received(ws: seq<World>, ops: seq<Op>, n: nat, r: Region)
    requires |ws| == |ops| + 1 && n <= |ops|
  {
    exists i :: 0 <= i < n && Brings(ws[i], ops[i], r)
  }

  ghost predicate Brings(w: World, op: Op, r: Region) {
    && CursorOk(w.s)
    && match op
       case Find => false
       case Insert(block, length) => r == BlockRegion(block, length)
       case Alloc(length, page) =>
         page != 0 && Allocate(w.s, length, page).asked != 0 && r == PageRegion(page, (length + 1) % TWO64)
  }

  lemma StepReceives(w: World, op: Op, r: Region)
    requires WorldInv(w) && Legal(w, op)
    ensures r in Step(w, op).regions <==> r in w.regions || Brings(w, op, r)
  {
  }

  /** The regions of a world are exactly the pages the source handed out and the blocks callers inserted. */
  lemma {:induction false} RegionsWereReceived(units: nat, ws: seq<World>, ops: seq<Op>, n: nat, r: Region)
    requires Run(units, ws, ops) && n <= |ops|
    ensures r in ws[n].regions <==> Received(ws, ops, n, r)
  {
    if n > 0 {
      RegionsWereReceived(units, ws, ops, n - 1, r);
      RunsKeepWorldInv(units, ws, ops, n - 1);
      assert Follows(ws[n - 1], ops[n - 1], ws[n]);
      StepReceives(ws[n - 1], ops[n - 1], r);
      if Brings(ws[n - 1], ops[n - 1], r) {
        assert Received(ws, ops, n, r);
      }
      if Received(ws, ops, n - 1, r) {
        var i :| 0 <= i < n - 1 && Brings(ws[i], ops[i], r);
        assert Received(ws, ops, n, r);
      }
    }
  }

  /** Allocation op returned the block e, carved from the cursor or cut from pages. */
  ghost predicate Returns(w: World, op: Op, fromPages: bool, e: Extent) {
    && CursorOk(w.s) && op.Alloc?
    && var o := Allocate(w.s, op.length, op.page);
       o.ptr != 0 && (o.asked != 0 <==> fromPages) && e == Extent(o.ptr - 1, op.length + 1)
  }

  ghost predicate Returned(ws: seq<World>, ops: seq<Op>, n: nat, fromPages: bool, e: Extent)
    requires |ws| == |ops| + 1 && n <= |ops|
  {
    exists i :: 0 <= i < n && Returns(ws[i], ops[i], fromPages, e)
  }

  lemma ServeReturns(w: World, target: nat, page: nat)
    requires CursorOk(w.s) && 0 < target <= TWO64 - UNITS_PER_PAGE
    ensures var o := Serve(w.s, target, page); var w' := AllocStep(w, target, page);
            && (w'.carved == if o.ptr != 0 && o.asked == 0 then w.carved + [Extent(o.ptr - 1, target)] else w.carved)
            && (w'.paged == if o.ptr != 0 && o.asked != 0 then w.paged + [Extent(o.ptr - 1, target)] else w.paged)
  {
    ServeCases(w.s, target, page);
    PageSplit(target);
    hide Prepared, Serve, PagesFor, Excess, ExcessFiled, PageRegion, Carve;
  }

  lemma AllocReturns(w: World, length: nat, page: nat, e: Extent)
    requires CursorOk(w.s) && length + UNITS_PER_PAGE < TWO64
    ensures var w' := Step(w, Alloc(length, page));
            && (e in w'.carved <==> e in w.carved || Returns(w, Alloc(length, page), false, e))
            && (e in w'.paged <==> e in w.paged || Returns(w, Alloc(length, page), true, e))
  {
    ServeReturns(w, length + 1, page);
    AllocateServes(w.s, length, page);
    assert (length + 1) % TWO64 == length + 1;
    hide Serve, AllocStep, Allocate, CursorOk;
  }

  lemma StepReturns(w: World, op: Op, e: Extent)
    requires WorldInv(w) && Legal(w, op)
    ensures e in Step(w, op).carved <==> e in w.carved || Returns(w, op, false, e)
    ensures e in Step(w, op).paged <==> e in w.paged || Returns(w, op, true, e)
  {
    assert CursorOk(w.s);
    hide Serve, AllocStep, WorldInv, Allocate, CursorOk, Lookup, LegalPage, CanPrepare, LooksUp;
    match op
    case Alloc(length, page) => AllocReturns(w, length, page, e);
    case _ =>
  }

  /** The blocks of a world are exactly those that allocations of the run returned, at their sizes. */
  lemma {:induction false} BlocksWereReturned(units: nat, ws: seq<World>, ops: seq<Op>, n: nat, e: Extent)
    requires Run(units, ws, ops) && n <= |ops|
    ensures e in ws[n].carved <==> Returned(ws, ops, n, false, e)
    ensures e in ws[n].paged <==> Returned(ws, ops, n, true, e)
  {
    if n > 0 {
      BlocksWereReturned(units, ws, ops, n - 1, e);
      RunsKeepWorldInv(units, ws, ops, n - 1);
      assert Follows(ws[n - 1], ops[n - 1], ws[n]);
      StepReturns(ws[n - 1], ops[n - 1], e);
      hide Returns, WorldInv, Step, Legal;
      ReturnedGrows(ws, ops, n - 1, false, e);
      ReturnedGrows(ws, ops, n - 1, true, e);
    }
  }

  lemma ReturnedGrows(ws: seq<World>, ops: seq<Op>, n: nat, fromPages: bool, e: Extent)
    requires |ws| == |ops| + 1 && n < |ops|
    ensures Returned(ws, ops, n + 1, fromPages, e) <==>
              Returned(ws, ops, n, fromPages, e) || Returns(ws[n], ops[n], fromPages, e)
  {
    hide Returns;
    if Returned(ws, ops, n, fromPages, e) {
      var i :| 0 <= i < n && Returns(ws[i], ops[i], fromPages, e);
    }
    if Returned(ws, ops, n + 1, fromPages, e) {
      var i :| 0 <= i < n + 1 && Returns(ws[i], ops[i], fromPages, e);
    }
  }

  function Sizes(es: seq<Extent>): nat {
    if es == [] then 0 else Sizes(es[..|es| - 1]) + es[|es| - 1].size
  }

  function RegionSizes(rs: seq<Region>): nat {
    if rs == [] then 0 else RegionSizes(rs[..|rs| - 1]) + rs[|rs| - 1].size
  }

  lemma SumsGrow(es: seq<Extent>, e: Extent, rs: seq<Region>, r: Region)
    ensures Sizes(es + [e]) == Sizes(es) + e.size
    ensures RegionSizes(rs + [r]) == RegionSizes(rs) + r.size
  {
    assert (es + [e])[..|es|] == es && (rs + [r])[..|rs|] == rs;
  }

  ghost predicate Sums(w: World) {
    && w.charged == Sizes(w.carved) + Sizes(w.paged)
    && UNITS_PER_PAGE * w.pages + w.inserted == RegionSizes(w.regions)
  }

  /** What an allocation adds to the history of a run. */
  lemma ServeAdds(w: World, target: nat, page: nat)
    requires CursorOk(w.s) && 0 < target <= TWO64 - UNITS_PER_PAGE
    ensures var o := Serve(w.s, target, page); var w' := AllocStep(w, target, page);
            && w'.charged == w.charged + (if o.ptr == 0 then 0 else target)
            && w'.pages == w.pages + (if o.ptr == 0 then 0 else o.asked) && w'.inserted == w.inserted
            && w'.regions == w.regions + (if o.ptr == 0 || o.asked == 0 then [] else [PageRegion(page, target)])
            && (o.ptr != 0 && o.asked != 0 ==> PageRegion(page, target).size == UNITS_PER_PAGE * o.asked)
  {
    ServeCases(w.s, target, page);
    hide Prepared, Serve, PagesFor, ExcessFiled, Carve;
  }

  lemma AllocKeepsSums(w: World, target: nat, page: nat)
    requires CursorOk(w.s) && Sums(w) && 0 < target <= TWO64 - UNITS_PER_PAGE
    ensures Sums(AllocStep(w, target, page))
  {
    hide Serve, AllocStep, PageRegion, Sizes, RegionSizes, CursorOk;
    var o := Serve(w.s, target, page);
    ServeReturns(w, target, page);
    ServeAdds(w, target, page);
    if o.ptr != 0 {
      SumsGrow(w.carved, Extent(o.ptr - 1, target), w.regions, PageRegion(page, target));
      SumsGrow(w.paged, Extent(o.ptr - 1, target), w.regions, PageRegion(page, target));
    }
    assert w.regions + [] == w.regions;
  }

  lemma AllocOpKeepsSums(w: World, length: nat, page: nat)
    requires CursorOk(w.s) && Sums(w) && length + UNITS_PER_PAGE < TWO64
    ensures Sums(Step(w, Alloc(length, page)))
  {
    hide Sums, AllocStep, CursorOk;
    AllocKeepsSums(w, (length + 1) % TWO64, page);
  }

  lemma OtherKeepsSums(w: World, op: Op)
    requires CursorOk(w.s) && Sums(w) && !op.Alloc? && (op.Insert? ==> op.length < BUCKETS)
    ensures Sums(Step(w, op))
  {
    if op.Insert? {
      SumsGrow([], Extent(0, 0), w.regions, BlockRegion(op.block, op.length));
    }
    hide CursorOk, Lookup, Append, Sizes, RegionSizes;
  }

  lemma StepKeepsSums(w: World, op: Op)
    requires WorldInv(w) && Legal(w, op) && Sums(w)
    ensures Sums(Step(w, op))
  {
    assert CursorOk(w.s);
    hide WorldInv, Sums, Step, CursorOk, LegalPage, CanPrepare, LooksUp, Fresh, Filed, Refileable;
    match op
    case Alloc(length, page) => AllocOpKeepsSums(w, length, page);
    case _ => OtherKeepsSums(w, op);
  }

  /** The totals of a world are the sizes of the blocks returned and of the memory received. */
  lemma {:induction false} TotalsAreSums(units: nat, ws: seq<World>, ops: seq<Op>, n: nat)
    requires Run(units, ws, ops) && n <= |ops|
    ensures ws[n].charged == Sizes(ws[n].carved) + Sizes(ws[n].paged)
    ensures UNITS_PER_PAGE * ws[n].pages + ws[n].inserted == RegionSizes(ws[n].regions)
  {
    if n > 0 {
      TotalsAreSums(units, ws, ops, n - 1);
      RunsKeepWorldInv(units, ws, ops, n - 1);
      assert Follows(ws[n - 1], ops[n - 1], ws[n]);
      assert Sums(ws[n - 1]);
      hide Sizes, RegionSizes, WorldInv, Legal, Step;
      StepKeepsSums(ws[n - 1], ops[n - 1]);
    }
  }

  /** No unit appears or disappears: memory received is charged to an allocation or free. */
  lemma UnitsAreConserved(units: nat, ws: seq<World>, ops: seq<Op>, n: nat)
    requires Run(units, ws, ops) && n <= |ops|
    ensures UNITS_PER_PAGE * ws[n].pages + ws[n].inserted ==
              ws[n].charged + FiledUnits(ws[n].s.q, BUCKETS) - (ws[n].s.initialLength - ws[n].s.currentLength)
    ensures 0 <= ws[n].s.currentLength <= ws[n].s.initialLength < BUCKETS
  {
    RunsKeepWorldInv(units, ws, ops, n);
  }

  /** In a run, a lookup fails exactly when no block was ever filed. */
  lemma LookupFailsOnlyIfNothingWasFiled(units: nat, ws: seq<World>, ops: seq<Op>, n: nat)
    requires Run(units, ws, ops) && n <= |ops|
    ensures CursorOk(ws[n].s) && (Lookup(ws[n].s).1 <==> ws[n].filings != 0)
  {
    RunsKeepWorldInv(units, ws, ops, n);
    PreparedKeepsTotals(ws[n].s, 0);
    CountIsZero(Refiled(ws[n].s), BUCKETS);
  }

  // ---- One operation -------------------------------------------------------------------------

  lemma NoLongerThanGreatest(q: Buckets, target: nat)
    ensures Greatest(q, BUCKETS) < target <==> forall b, i :: At(q, b, i) ==> b < target
  {
    var g := Greatest(q, BUCKETS);
    if g >= 0 {
      assert At(q, g, 0);
    }
    forall b, i | At(q, b, i)
      ensures b <= g
    {
      assert q[b] != [];
    }
  }

  /** Under 256 units, the page source is asked exactly when neither the cursor nor any free block is long enough. */
  lemma PagesAreTheLastResort(s: State, length: nat, page: nat)
    requires CursorOk(s) && length + 1 < 0x100
    ensures Allocate(s, length, page).asked != 0 <==>
              s.currentLength < length + 1 && forall b, i :: At(Refiled(s), b, i) ==> b < length + 1
    ensures Allocate(s, length, page).asked <= 1
  {
    PageSplit(length + 1);
    NoLongerThanGreatest(Refiled(s), length + 1);
    hide Refiled, At, Greatest;
  }

  /** Unit u is free: it lies in what is left under the cursor, or in a filed block other than the cursor's. */
  ghost predicate FreeUnit(s: State, u: nat) {
    || s.current <= u < s.current + s.currentLength
    || exists b, i :: At(s.q, b, i) && s.q[b][i] != s.initial && s.q[b][i] <= u < s.q[b][i] + b
  }

  ghost predicate InFiledBlock(q: Buckets, u: nat) {
    exists b, i :: At(q, b, i) && q[b][i] <= u < q[b][i] + b
  }

  /** The free units are those of the blocks that a lookup would find filed. */
  lemma FreeUnitsAreRefiled(s: State, u: nat)
    requires Inv(s)
    ensures FreeUnit(s, u) <==> InFiledBlock(Refiled(s), u)
  {
    var q := Refiled(s);
    if s.current <= u < s.current + s.currentLength {
      if s.initial == s.current {
        assert At(q, s.initialLength, 0);
      } else {
        var n := |q[s.currentLength]| - 1;
        assert At(q, s.currentLength, n) && q[s.currentLength][n] == s.current;
      }
    } else if FreeUnit(s, u) {
      var b, i :| At(s.q, b, i) && s.q[b][i] != s.initial && s.q[b][i] <= u < s.q[b][i] + b;
      var j := if s.initial != s.current && b == s.initialLength then i - 1 else i;
      assert At(q, b, j) && q[b][j] == s.q[b][i];
    }
    if InFiledBlock(q, u) {
      var b, i :| At(q, b, i) && q[b][i] <= u < q[b][i] + b;
      RefiledEntry(s, b, i);
    }
  }

  lemma FreeAfterLookup(s: State, u: nat)
    requires Inv(s)
    ensures FreeUnit(Lookup(s).0, u) <==> InFiledBlock(Refiled(s), u)
  {
    if s.initial != s.current {
      RefiledIsNotEmpty(s);
    }
    var q := Refiled(s);
    var g := Greatest(q, BUCKETS);
    assert g >= 0 ==> At(q, g, 0);
    if InFiledBlock(q, u) {
      var b, i :| At(q, b, i) && q[b][i] <= u < q[b][i] + b;
      assert q[b] != [];
    }
  }

  /**
   * An allocation the page source fails changes no unit's freedom and no total: it only refiles. It keeps the
   * invariant exactly when it could refile or did not look up.
   */
  lemma FailedAllocationKeepsFreeUnits(s: State, length: nat)
    requires Inv(s) && Allocate(s, length, 0).ptr == 0
    ensures var s' := Allocate(s, length, 0).s;
            && (Inv(s') <==> CanPrepare(s, (length + 1) % TWO64))
            && FreeTotal(s') == FreeTotal(s)
            && FiledCount(s'.q, BUCKETS) == FiledCount(s.q, BUCKETS)
            && forall u: nat :: FreeUnit(s', u) <==> FreeUnit(s, u)
  {
    var target := (length + 1) % TWO64;
    var s' := Prepared(s, target).0;
    PreparedKeepsTotals(s, target);
    forall u: nat
      ensures FreeUnit(s', u) <==> FreeUnit(s, u)
    {
      FreeUnitsAreRefiled(s, u);
      FreeAfterLookup(s, u);
    }
    if CanPrepare(s, target) {
      PreparedKeeps(s, target);
    } else {
      RefilingIsDistinctIff(s);
    }
  }

  /**
   * The round-up to whole pages wraps exactly for the last 255 values. Then no page is asked for, and there is
   * excess all the same.
   */
  lemma RoundUpWraps(target: nat)
    requires target < TWO64
    ensures AlignForward(target, UNITS_PER_PAGE) >= target <==> target <= TWO64 - UNITS_PER_PAGE
    ensures target <= TWO64 - UNITS_PER_PAGE ==>
              AlignForward(target, UNITS_PER_PAGE) == target + Excess(target, UNITS_PER_PAGE)
              && AlignForward(target, UNITS_PER_PAGE) == UNITS_PER_PAGE * PagesFor(target)
    ensures target > TWO64 - UNITS_PER_PAGE ==>
              PagesFor(target) == 0 && Excess(target, UNITS_PER_PAGE) == TWO64 - target
  {
  }

  // ---- Where the code falls short ------------------------------------------------------------

  /**
   * The remainder of fresh pages is filed one unit after their start. Only at offset target would it both
   * stay inside the pages and clear of the block returned.
   */
  lemma OnlyOneRemainderOffset(page: nat, target: nat, offset: nat)
    requires 0 < target <= TWO64 - UNITS_PER_PAGE && target % 256 != 0
    ensures var remainder := Extent(page + offset, Excess(target, UNITS_PER_PAGE));
            Disjoint(Extent(page, target), remainder)
            && remainder.at + remainder.size <= page + UNITS_PER_PAGE * PagesFor(target)
            <==> offset == target
    ensures !Disjoint(Extent(page, target), Extent(page + 1, Excess(target, UNITS_PER_PAGE))) <==> target > 1
  {
  }

  lemma FirstAllocation(target: nat, page: nat)
    requires page > 0 && 0 < target < 256
    ensures var o := Serve(Zeroed(), target, page);
            && o.ptr == page + 1 && o.asked == 1
            && o.s == Zeroed().(q := Append(NoBlocks(), 256 - target, page + 1))
  {
    assert Greatest(NoBlocks(), BUCKETS) == -1;
    assert Refiled(Zeroed()) == NoBlocks();
    assert Prepared(Zeroed(), target) == (Zeroed(), false);
    ServeCases(Zeroed(), target, page);
    PageSplit(target);
    assert PagesFor(target) == 1;
    hide NoBlocks, Serve, Prepared, PagesFor, Greatest, Refiled;
  }

  lemma AllocationFromOnlyBlock(target: nat, a: nat, b: nat, page: nat)
    requires a > 0 && 0 < target <= b < BUCKETS
    ensures var s := Zeroed().(q := Append(NoBlocks(), b, a));
            Serve(s, target, page) == Outcome(State(s.q, a, b, a + target, b - target), a + 1, 0)
  {
    var q := Append(NoBlocks(), b, a);
    assert q[b] == [a];
    assert forall c :: 0 <= c < BUCKETS && c != b ==> q[c] == [];
    assert Greatest(q, BUCKETS) == b;
  }

  /** After initialisation, a second small allocation overlaps the first exactly when the first took a unit of data. */
  lemma SecondAllocationOverlapsFirst(first: nat, second: nat, page: nat, page': nat)
    requires page > 0 && first + 1 + second + 1 <= 256
    ensures var o := Allocate(Zeroed(), first, page);
            && o.ptr == page + 1 && CursorOk(o.s)
            && var o' := Allocate(o.s, second, page');
               && o'.ptr == page + 2
               && (!Disjoint(Extent(o.ptr - 1, first + 1), Extent(o'.ptr - 1, second + 1)) <==> first > 0)
  {
    assert (first + 1) % TWO64 == first + 1 && (second + 1) % TWO64 == second + 1;
    FirstAllocation(first + 1, page);
    AllocationFromOnlyBlock(second + 1, page + 1, 256 - (first + 1), page');
  }

  lemma TwoBlocksFiled(a: nat, m: nat, b: nat, n: nat)
    requires 0 < n < m < BUCKETS
    ensures var q := Append(Append(NoBlocks(), m, a), n, b);
            && q[m] == [a] && q[n] == [b] && Greatest(q, BUCKETS) == m
            && forall c :: 0 <= c < BUCKETS && c != m && c != n ==> q[c] == []
  {
  }

  lemma ExactFitRefiles(q: Buckets, a: nat, m: nat, b: nat, n: nat)
    requires 0 < a && 0 < n < m < BUCKETS && q[m] == [a] && q[n] == [b]
    requires forall c :: 0 <= c < BUCKETS && c != m && c != n ==> q[c] == []
    ensures Distinct(Refiled(State(q, a, m, a + m, 0))) <==> a + m != b
  {
    var p := Refiled(State(q, a, m, a + m, 0));
    assert p[m] == [] && p[n] == [b] && p[0] == [a + m];
    assert forall c, i :: At(p, c, i) ==> i == 0 && (c == 0 || c == n);
    assert At(p, 0, 0) && At(p, n, 0) && p[0][0] == a + m && p[n][0] == b;
  }

  /**
   * Two free blocks that overlap nowhere are inserted, the first is used up exactly, and a lookup follows.
   * The lists survive exactly when the second block does not begin where the first one ends.
   */
  lemma ExactFitBeforeNeighbour(a: nat, m: nat, b: nat, n: nat)
    requires 0 < a && a + m <= b && 0 < n < m < BUCKETS
    ensures var s := Zeroed().(q := Append(Append(NoBlocks(), m, a), n, b));
            var o := Allocate(s, m - 1, 0);
            && CursorOk(s) && CursorOk(o.s)
            && o.ptr == a + 1
            && (Distinct(Lookup(o.s).0.q) <==> a + m < b)
  {
    var s := Zeroed().(q := Append(Append(NoBlocks(), m, a), n, b));
    TwoBlocksFiled(a, m, b, n);
    var o := Allocate(s, m - 1, 0);
    assert o.s == State(s.q, a, m, a + m, 0);
    ExactFitRefiles(s.q, a, m, b, n);
    assert Distinct(Refiled(o.s)) <==> a + m != b;
    assert Distinct(Lookup(o.s).0.q) <==> a + m != b;
    assert o.ptr == a + 1;
  }
}
