/** Whole runs of the block manager: where blocks lie, and how many units there are. */
module HeapRuns {
  import opened FreeLists
  import opened Words

  /** The units at, ..., at + size - 1 of a block handed to a caller, header included. */
  datatype Extent = Extent(at: nat, size: nat)

  /** The units at, ..., at + size - 1 of memory received; a free block may begin at unit `first` at the earliest. */
  datatype Region = Region(at: nat, size: nat, first: nat)

  /**
   * The manager's state and the history of a run: memory received, blocks carved from the cursor,
   * blocks cut from fresh pages, and the totals.
   */
  datatype World = World(
    s: State, units: nat, regions: seq<Region>, carved: seq<Extent>, paged: seq<Extent>,
    pages: nat, inserted: nat, charged: nat, filings: nat)

  function Boot(units: nat): World {
    World(Zeroed(), units, [], [], [], 0, 0, 0, 0)
  }

  /** Allocate with the page source's answer, look up, or insert a free block with oHmbSet. */
  datatype Op =
    | Alloc(length: nat, page: nat)
    | Find
    | Insert(block: nat, length: nat)

  /** A block of n units at a lies in the region where free blocks may. */
  predicate Holds(r: Region, a: nat, n: nat) {
    r.at <= r.first <= a && a + n <= r.at + r.size
  }

  ghost predicate Covered(rs: seq<Region>, a: nat, n: nat) {
    exists k :: 0 <= k < |rs| && Holds(rs[k], a, n)
  }

  predicate RegionsApart(r: Region, t: Region) {
    Apart(r.at, r.size, t.at, t.size)
  }

  predicate Fresh(units: nat, rs: seq<Region>, r: Region) {
    r.at + r.size <= units && forall k :: 0 <= k < |rs| ==> RegionsApart(rs[k], r)
  }

  /** The pages received for target units. Their excess begins after the first, or there is none. */
  function PageRegion(page: nat, target: nat): Region {
    var size := UNITS_PER_PAGE * PagesFor(target);
    Region(page, size, if target % 256 == 0 then page + size else page + 1)
  }

  /** An inserted block. */
  function BlockRegion(block: nat, length: nat): Region {
    Region(block, length, block)
  }

  /**
   * The page source hands out pages not received before, an inserted block is neither filed nor received
   * before, a request and its round-up to whole pages fit in 64 bits, and a lookup can refile and has a unit of
   * memory for the header it writes.
   */
  ghost predicate Legal(w: World, op: Op)
    requires CursorOk(w.s)
  {
    match op
    case Find => Refileable(w.s) && HeaderFits(w.s, w.units)
    case Insert(block, length) =>
      && 0 < block < w.units && length < BUCKETS
      && Fresh(w.units, w.regions, BlockRegion(block, length)) && !Filed(w.s.q, block)
    case Alloc(length, page) =>
      && length + UNITS_PER_PAGE < TWO64 && LegalPage(w, length + 1, page)
      && CanPrepare(w.s, length + 1) && (LooksUp(w.s, length + 1) ==> HeaderFits(w.s, w.units))
  }

  ghost predicate LegalPage(w: World, target: nat, page: nat)
    requires CursorOk(w.s)
  {
    page != 0 && !Prepared(w.s, target).1 ==> Fresh(w.units, w.regions, PageRegion(page, target))
  }

  function Step(w: World, op: Op): World
    requires CursorOk(w.s)
    requires op.Insert? ==> op.length < BUCKETS
  {
    match op
    case Find => w.(s := Lookup(w.s).0)
    case Insert(block, length) =>
      w.(s := w.s.(q := Append(w.s.q, length, block)),
         regions := w.regions + [BlockRegion(block, length)],
         inserted := w.inserted + length,
         filings := w.filings + 1)
    case Alloc(length, page) => AllocStep(w, (length + 1) % TWO64, page)
  }

  /** Record how an allocation was served: not at all, from the cursor, or from fresh pages. */
  function AllocStep(w: World, target: nat, page: nat): World
    requires CursorOk(w.s)
  {
    var o := Serve(w.s, target, page);
    if o.ptr == 0 then w.(s := o.s)
    else if o.asked == 0 then
      w.(s := o.s, carved := w.carved + [Extent(o.ptr - 1, target)], charged := w.charged + target)
    else
      w.(s := o.s,
         regions := w.regions + [PageRegion(page, target)],
         paged := w.paged + [Extent(page, target)],
         pages := w.pages + o.asked,
         charged := w.charged + target,
         filings := w.filings + if target % 256 == 0 then 0 else 1)
  }

  // ---- The invariant of runs -----------------------------------------------------------------

  predicate Disjoint(e: Extent, f: Extent) {
    Apart(e.at, e.size, f.at, f.size)
  }

  /** A carved block is clear of every free block and of what is left under the cursor. */
  ghost predicate ClearOfFree(s: State, e: Extent) {
    && (forall b, i :: At(s.q, b, i) && s.q[b][i] != s.initial ==> Apart(s.q[b][i], b, e.at, e.size))
    && Apart(s.current, s.currentLength, e.at, e.size)
    && Apart(s.initial, 0, e.at, e.size)
  }

  /** Received memory does not overlap, free blocks lie inside it, and carved blocks do too, clear of all else. */
  ghost predicate Places(s: State, units: nat, rs: seq<Region>, carved: seq<Extent>) {
    && Inv(s)
    && (forall k :: 0 <= k < |rs| ==> rs[k].at + rs[k].size <= units)
    && (forall j, k :: 0 <= j < k < |rs| ==> RegionsApart(rs[j], rs[k]))
    && (forall b, i :: At(s.q, b, i) ==> Covered(rs, s.q[b][i], b))
    && (forall k :: 0 <= k < |carved| ==> Covered(rs, carved[k].at, carved[k].size) && ClearOfFree(s, carved[k]))
    && (forall j, k :: 0 <= j < k < |carved| ==> Disjoint(carved[j], carved[k]))
  }

  /** The sum of b times the number of blocks in bucket b, for b below n. */
  function FiledUnits(q: Buckets, n: nat): nat
    requires n <= BUCKETS
  {
    if n == 0 then 0 else FiledUnits(q, n - 1) + (n - 1) * |q[n - 1]|
  }

  function FiledCount(q: Buckets, n: nat): nat
    requires n <= BUCKETS
  {
    if n == 0 then 0 else FiledCount(q, n - 1) + |q[n - 1]|
  }

  /** Units neither charged to an allocation nor lost: filed lengths, less what the cursor already carved off. */
  function FreeTotal(s: State): int {
    FiledUnits(s.q, BUCKETS) - (s.initialLength - s.currentLength)
  }

  ghost predicate Accounts(w: World) {
    && UNITS_PER_PAGE * w.pages + w.inserted == w.charged + FreeTotal(w.s)
    && w.filings == FiledCount(w.s.q, BUCKETS)
  }

  // ---- Counting ------------------------------------------------------------------------------

  lemma {:induction false} CountAfterUpdate(q: Buckets, b: nat, s: seq<nat>, n: nat)
    requires b < BUCKETS && n <= BUCKETS
    ensures FiledUnits(q[b := s], n) == FiledUnits(q, n) + if b < n then b * |s| - b * |q[b]| else 0
    ensures FiledCount(q[b := s], n) == FiledCount(q, n) + if b < n then |s| - |q[b]| else 0
  {
    if n > 0 {
      CountAfterUpdate(q, b, s, n - 1);
    }
  }

  lemma CountAfterAppend(q: Buckets, b: nat, a: nat)
    requires b < BUCKETS
    ensures FiledUnits(Append(q, b, a), BUCKETS) == FiledUnits(q, BUCKETS) + b
    ensures FiledCount(Append(q, b, a), BUCKETS) == FiledCount(q, BUCKETS) + 1
  {
    CountAfterUpdate(q, b, q[b] + [a], BUCKETS);
    assert b * (|q[b]| + 1) == b * |q[b]| + b;
  }

  lemma CountAfterDrop(q: Buckets, b: nat, i: nat)
    requires At(q, b, i)
    ensures FiledUnits(DropAt(q, b, i), BUCKETS) == FiledUnits(q, BUCKETS) - b
    ensures FiledCount(DropAt(q, b, i), BUCKETS) == FiledCount(q, BUCKETS) - 1
  {
    CountAfterUpdate(q, b, q[b][..i] + q[b][i + 1..], BUCKETS);
    assert b * (|q[b]| - 1) == b * |q[b]| - b;
  }

  /** Refiling neither makes nor loses units or blocks. */
  lemma PreparedKeepsTotals(s: State, target: nat)
    requires Inv(s)
    ensures FreeTotal(Prepared(s, target).0) == FreeTotal(s) == FreeTotal(Lookup(s).0)
    ensures FiledCount(Prepared(s, target).0.q, BUCKETS) == FiledCount(s.q, BUCKETS)
    ensures FiledCount(Lookup(s).0.q, BUCKETS) == FiledCount(s.q, BUCKETS)
  {
    if s.initial != s.current {
      RefiledIsNotEmpty(s);
      CountAfterDrop(s.q, s.initialLength, 0);
      CountAfterAppend(DropAt(s.q, s.initialLength, 0), s.currentLength, s.current);
    }
  }

  lemma {:induction false} CountIsZero(q: Buckets, n: nat)
    requires n <= BUCKETS
    ensures FiledCount(q, n) == 0 <==> Greatest(q, n) == -1
  {
    if n > 0 {
      CountIsZero(q, n - 1);
    }
  }

  lemma CarveKeepsTotals(s: State, target: nat)
    requires target <= s.currentLength
    ensures FreeTotal(Carve(s, target)) == FreeTotal(s) - target
    ensures FiledCount(Carve(s, target).q, BUCKETS) == FiledCount(s.q, BUCKETS)
  {
  }

  lemma ExcessKeepsTotals(s: State, target: nat, page: nat)
    ensures FreeTotal(ExcessFiled(s, target, page)) == FreeTotal(s) + Excess(target, UNITS_PER_PAGE)
    ensures FiledCount(ExcessFiled(s, target, page).q, BUCKETS) ==
              FiledCount(s.q, BUCKETS) + if target % 256 == 0 then 0 else 1
  {
    if target % 256 != 0 {
      CountAfterAppend(s.q, Excess(target, UNITS_PER_PAGE), page + 1);
    }
  }

  lemma AllocKeepsAccounts(w: World, target: nat, page: nat)
    requires Inv(w.s) && Accounts(w) && 0 < target <= TWO64 - UNITS_PER_PAGE
    ensures Accounts(AllocStep(w, target, page))
  {
    var (s', fromCursor) := Prepared(w.s, target);
    PreparedKeepsTotals(w.s, target);
    PageSplit(target);
    if fromCursor {
      PreparedFits(w.s, target);
      CarveKeepsTotals(s', target);
    } else {
      ExcessKeepsTotals(s', target, page);
    }
  }

  // ---- Geometry ------------------------------------------------------------------------------

  lemma LookupKeepsPlaces(s: State, units: nat, rs: seq<Region>, carved: seq<Extent>)
    requires Places(s, units, rs, carved) && Refileable(s)
    ensures Places(Lookup(s).0, units, rs, carved)
  {
    var s' := Lookup(s).0;
    LookupKeepsInv(s);
    forall b, i | At(s'.q, b, i)
      ensures Covered(rs, s'.q[b][i], b)
      ensures forall k :: 0 <= k < |carved| ==> Apart(s'.q[b][i], b, carved[k].at, carved[k].size)
    {
      RefiledEntry(s, b, i);
      if s.initial != 0 {
        assert At(s.q, s.initialLength, 0);
        CoveredWithin(rs, s.initial, s.initialLength, s.current, s.currentLength);
      }
    }
  }

  lemma CoveredWithin(rs: seq<Region>, a: nat, m: nat, b: nat, n: nat)
    requires Covered(rs, a, m) && a <= b && b + n <= a + m
    ensures Covered(rs, b, n)
  {
  }

  lemma PreparedKeepsPlaces(s: State, target: nat, units: nat, rs: seq<Region>, carved: seq<Extent>)
    requires Places(s, units, rs, carved) && CanPrepare(s, target)
    ensures Places(Prepared(s, target).0, units, rs, carved)
  {
    if LooksUp(s, target) {
      LookupKeepsPlaces(s, units, rs, carved);
    }
  }

  /** A carved block is clear of everything that is left. */
  lemma CarveKeepsPlaces(s: State, target: nat, units: nat, rs: seq<Region>, carved: seq<Extent>)
    requires Places(s, units, rs, carved) && 0 < target <= s.currentLength
    ensures Places(Carve(s, target), units, rs, carved + [Extent(s.current, target)])
  {
    var s', e := Carve(s, target), Extent(s.current, target);
    assert At(s.q, s.initialLength, 0);
    CoveredWithin(rs, s.initial, s.initialLength, s.current, target);
    forall b, i | At(s.q, b, i) && s.q[b][i] != s.initial
      ensures Apart(s.q[b][i], b, e.at, e.size)
    {
      assert Apart(s.q[b][i], b, s.q[s.initialLength][0], s.initialLength);
    }
    forall k | 0 <= k < |carved|
      ensures ClearOfFree(s', carved[k]) && Disjoint(carved[k], e)
    {
    }
  }

  lemma CoveredApart(rs: seq<Region>, r: Region, a: nat, m: nat, b: nat, n: nat)
    requires Covered(rs, a, m) && Holds(r, b, n)
    requires forall k :: 0 <= k < |rs| ==> RegionsApart(rs[k], r)
    ensures Apart(a, m, b, n)
  {
  }

  lemma CoveredStays(rs: seq<Region>, r: Region, a: nat, m: nat)
    requires Covered(rs, a, m)
    ensures Covered(rs + [r], a, m)
  {
    var k :| 0 <= k < |rs| && Holds(rs[k], a, m);
    assert Holds((rs + [r])[k], a, m);
  }

  /** New memory changes no place of a block. */
  lemma ReceiveKeepsPlaces(s: State, units: nat, rs: seq<Region>, carved: seq<Extent>, r: Region)
    requires Places(s, units, rs, carved) && Fresh(units, rs, r)
    ensures Places(s, units, rs + [r], carved)
  {
    forall b, i | At(s.q, b, i)
      ensures Covered(rs + [r], s.q[b][i], b)
    {
      CoveredStays(rs, r, s.q[b][i], b);
    }
    forall k | 0 <= k < |carved|
      ensures Covered(rs + [r], carved[k].at, carved[k].size)
    {
      CoveredStays(rs, r, carved[k].at, carved[k].size);
    }
  }

  /** A block of new memory that is not filed may be. */
  lemma FileKeepsPlaces(s: State, units: nat, rs: seq<Region>, carved: seq<Extent>, r: Region, a: nat, b: nat)
    requires Places(s, units, rs, carved) && Fresh(units, rs, r) && Holds(r, a, b) && b < BUCKETS
    requires a > 0 && !Filed(s.q, a)
    ensures Places(s.(q := Append(s.q, b, a)), units, rs + [r], carved)
  {
    var q := Append(s.q, b, a);
    ReceiveKeepsPlaces(s, units, rs, carved, r);
    forall c, j | At(s.q, c, j)
      ensures Apart(a, b, s.q[c][j], c)
    {
      CoveredApart(rs, r, s.q[c][j], c, a, b);
    }
    AppendKeepsSeparate(s.q, b, a);
    AppendIsDistinctIff(s.q, b, a);
    assert Holds((rs + [r])[|rs|], a, b);
    forall k | 0 <= k < |carved|
      ensures ClearOfFree(s.(q := q), carved[k])
    {
      CoveredApart(rs, r, carved[k].at, carved[k].size, a, b);
    }
  }

  // ---- Every run -----------------------------------------------------------------------------

  /** Blocks cut from fresh pages begin at the first unit of their own pages. */
  ghost predicate Cuts(w: World) {
    && (forall k :: 0 <= k < |w.paged| ==> CutFrom(w.regions, w.paged[k]))
    && (forall j, k :: 0 <= j < k < |w.paged| ==> Disjoint(w.paged[j], w.paged[k]))
  }

  ghost predicate WorldInv(w: World) {
    && Places(w.s, w.units, w.regions, w.carved)
    && Accounts(w)
    && Cuts(w)
  }

  /** The unit after the first of new pages is not filed. */
  lemma RemainderIsNew(s: State, units: nat, rs: seq<Region>, carved: seq<Extent>, target: nat, page: nat)
    requires Places(s, units, rs, carved) && 0 < target <= TWO64 - UNITS_PER_PAGE
    requires Fresh(units, rs, PageRegion(page, target))
    ensures !Filed(s.q, page + 1)
  {
  }

  lemma PagedKeepsPlaces(w: World, s: State, target: nat, page: nat)
    requires Places(s, w.units, w.regions, w.carved) && 0 < target <= TWO64 - UNITS_PER_PAGE
    requires Fresh(w.units, w.regions, PageRegion(page, target))
    ensures Places(ExcessFiled(s, target, page), w.units, w.regions + [PageRegion(page, target)], w.carved)
  {
    PageSplit(target);
    var r := PageRegion(page, target);
    if target % 256 == 0 {
      ReceiveKeepsPlaces(s, w.units, w.regions, w.carved, r);
    } else {
      RemainderIsNew(s, w.units, w.regions, w.carved, target, page);
      assert Holds(r, page + 1, Excess(target, UNITS_PER_PAGE));
      hide Places, PagesFor, Excess, Fresh, Holds, Filed, PageRegion;
      FileKeepsPlaces(s, w.units, w.regions, w.carved, r, page + 1, Excess(target, UNITS_PER_PAGE));
    }
  }

  lemma AllocKeepsPlaces(w: World, target: nat, page: nat)
    requires Places(w.s, w.units, w.regions, w.carved) && 0 < target <= TWO64 - UNITS_PER_PAGE
    requires CanPrepare(w.s, target) && LegalPage(w, target, page)
    ensures var w' := AllocStep(w, target, page); Places(w'.s, w'.units, w'.regions, w'.carved)
  {
    assert CursorOk(w.s);
    hide Places, PagesFor, Excess, Fresh;
    var w' := AllocStep(w, target, page);
    var (s', fromCursor) := Prepared(w.s, target);
    PreparedKeepsPlaces(w.s, target, w.units, w.regions, w.carved);
    if fromCursor {
      PreparedFits(w.s, target);
      CarveKeepsPlaces(s', target, w.units, w.regions, w.carved);
      assert w'.s == Carve(s', target) && w'.regions == w.regions;
      assert w'.carved == w.carved + [Extent(s'.current, target)];
    } else if page != 0 {
      PageSplit(target);
      PagedKeepsPlaces(w, s', target, page);
      assert w'.s == ExcessFiled(s', target, page) && w'.carved == w.carved;
      assert w'.regions == w.regions + [PageRegion(page, target)];
    } else {
      assert w'.s == s' && w'.regions == w.regions && w'.carved == w.carved;
    }
  }

  /** e is cut from the front of a region, in which free blocks begin after its first unit or after all of e. */
  ghost predicate CutFrom(rs: seq<Region>, e: Extent) {
    exists i :: 0 <= i < |rs| && CutOf(rs[i], e)
  }

  predicate CutOf(r: Region, e: Extent) {
    && r.at == e.at && 0 < e.size <= r.size
    && r.first == if e.size % 256 == 0 then e.at + e.size else e.at + 1
  }

  lemma CutStays(rs: seq<Region>, r: Region, e: Extent)
    requires CutFrom(rs, e)
    ensures CutFrom(rs + [r], e)
    ensures (forall k :: 0 <= k < |rs| ==> RegionsApart(rs[k], r)) ==>
              forall n: nat :: n <= r.size ==> Disjoint(e, Extent(r.at, n))
  {
    var i :| 0 <= i < |rs| && CutOf(rs[i], e);
    assert (rs + [r])[i] == rs[i];
  }

  lemma AllocKeepsCuts(w: World, target: nat, page: nat)
    requires WorldInv(w) && 0 < target <= TWO64 - UNITS_PER_PAGE && LegalPage(w, target, page)
    ensures Cuts(AllocStep(w, target, page))
  {
    PageSplit(target);
    var r := PageRegion(page, target);
    forall k | 0 <= k < |w.paged|
      ensures CutFrom(w.regions + [r], w.paged[k])
      ensures Fresh(w.units, w.regions, r) ==> Disjoint(w.paged[k], Extent(page, target))
    {
      CutStays(w.regions, r, w.paged[k]);
    }
    assert (w.regions + [r])[|w.regions|] == r;
  }

  lemma InsertKeepsCuts(w: World, r: Region)
    requires Cuts(w)
    ensures Cuts(w.(regions := w.regions + [r]))
  {
    forall k | 0 <= k < |w.paged|
      ensures CutFrom(w.regions + [r], w.paged[k])
    {
      CutStays(w.regions, r, w.paged[k]);
    }
  }

  lemma FindKeepsWorldInv(w: World)
    requires WorldInv(w) && Refileable(w.s)
    ensures WorldInv(Step(w, Find))
  {
    PreparedKeepsTotals(w.s, 0);
    LookupKeepsPlaces(w.s, w.units, w.regions, w.carved);
  }

  lemma InsertKeepsWorldInv(w: World, block: nat, length: nat)
    requires WorldInv(w) && Legal(w, Insert(block, length))
    ensures WorldInv(Step(w, Insert(block, length)))
  {
    var r := BlockRegion(block, length);
    CountAfterAppend(w.s.q, length, block);
    FileKeepsPlaces(w.s, w.units, w.regions, w.carved, r, block, length);
    InsertKeepsCuts(w, r);
  }

  lemma AllocKeepsWorldInv(w: World, target: nat, page: nat)
    requires WorldInv(w) && 0 < target <= TWO64 - UNITS_PER_PAGE
    requires CanPrepare(w.s, target) && LegalPage(w, target, page)
    ensures WorldInv(AllocStep(w, target, page))
  {
    AllocKeepsAccounts(w, target, page);
    AllocKeepsPlaces(w, target, page);
    AllocKeepsCuts(w, target, page);
  }

  lemma StepKeepsWorldInv(w: World, op: Op)
    requires WorldInv(w) && Legal(w, op)
    ensures WorldInv(Step(w, op))
  {
    hide Places, Accounts, Cuts, LegalPage, AllocStep;
    match op
    case Find => FindKeepsWorldInv(w);
    case Insert(block, length) => InsertKeepsWorldInv(w, block, length);
    case Alloc(length, page) => AllocKeepsWorldInv(w, (length + 1) % TWO64, page);
  }

  lemma ZeroedInv()
    ensures Inv(Zeroed())
    ensures forall b, i :: !At(Zeroed().q, b, i)
  {
  }

  lemma ZeroedTotals()
    ensures FreeTotal(Zeroed()) == 0 && FiledCount(Zeroed().q, BUCKETS) == 0
  {
    ZeroCounts(NoBlocks(), BUCKETS);
  }

  lemma BootInv(units: nat)
    ensures WorldInv(Boot(units))
  {
    ZeroedInv();
    ZeroedTotals();
    hide FiledUnits, FiledCount, NoBlocks, Separate, Distinct;
  }

  lemma {:induction false} ZeroCounts(q: Buckets, n: nat)
    requires n <= BUCKETS && forall b :: 0 <= b < n ==> q[b] == []
    ensures FiledUnits(q, n) == 0 && FiledCount(q, n) == 0
  {
    if n > 0 {
      ZeroCounts(q, n - 1);
    }
  }

  /** A run from oHmbInitImage: each world follows from the one before by a legal operation. */
  ghost predicate Run(units: nat, ws: seq<World>, ops: seq<Op>) {
    && |ws| == |ops| + 1
    && ws[0] == Boot(units)
    && forall i :: 0 <= i < |ops| ==> Follows(ws[i], ops[i], ws[i + 1])
  }

  ghost predicate Follows(w: World, op: Op, w': World) {
    CursorOk(w.s) ==> Legal(w, op) && w' == Step(w, op)
  }

  lemma {:induction false} RunsKeepWorldInv(units: nat, ws: seq<World>, ops: seq<Op>, n: nat)
    requires Run(units, ws, ops) && n <= |ops|
    ensures WorldInv(ws[n])
  {
    if n == 0 {
      BootInv(units);
    } else {
      RunsKeepWorldInv(units, ws, ops, n - 1);
      assert Follows(ws[n - 1], ops[n - 1], ws[n]);
      StepKeepsWorldInv(ws[n - 1], ops[n - 1]);
    }
  }
}
