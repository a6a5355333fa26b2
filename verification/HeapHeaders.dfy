/** Where the block manager writes headers over whole runs: outside received memory, and never into callers' data. */
module HeapHeaders {
  import opened FreeLists
  import opened HeapRuns
  import opened HeapTheorems
  import opened Words

  // ---- Inside received memory ----------------------------------------------------------------

  ghost predicate Owned(rs: seq<Region>, u: nat) {
    exists k :: 0 <= k < |rs| && rs[k].at <= u < rs[k].at + rs[k].size
  }

  ghost predicate EndsAt(rs: seq<Region>, u: nat) {
    exists k :: 0 <= k < |rs| && rs[k].size > 0 && rs[k].at + rs[k].size == u
  }

  ghost predicate BeginsAt(rs: seq<Region>, u: nat) {
    exists k :: 0 <= k < |rs| && rs[k].size > 0 && rs[k].at == u
  }

  lemma BlockIsOwned(rs: seq<Region>, a: nat, n: nat, u: nat)
    requires Covered(rs, a, n) && a <= u < a + n
    ensures Owned(rs, u)
  {
    var k :| 0 <= k < |rs| && Holds(rs[k], a, n);
    assert rs[k].at <= u;
  }

  /** At a unit next to one of received memory, received memory goes on exactly unless it ends there and none begins. */
  lemma OwnedNextIff(rs: seq<Region>, u: nat)
    requires forall j, k :: 0 <= j < k < |rs| ==> RegionsApart(rs[j], rs[k])
    requires u > 0 && Owned(rs, u - 1)
    ensures Owned(rs, u) <==> !EndsAt(rs, u) || BeginsAt(rs, u)
  {
    var i :| 0 <= i < |rs| && rs[i].at <= u - 1 < rs[i].at + rs[i].size;
    if Owned(rs, u) && EndsAt(rs, u) {
      var j :| 0 <= j < |rs| && rs[j].at <= u < rs[j].at + rs[j].size;
      var k :| 0 <= k < |rs| && rs[k].size > 0 && rs[k].at + rs[k].size == u;
      assert RegionsApart(rs[if j < k then j else k], rs[if j < k then k else j]);
      assert BeginsAt(rs, u);
    }
    if BeginsAt(rs, u) {
      var k :| 0 <= k < |rs| && rs[k].size > 0 && rs[k].at == u;
      assert rs[k].at <= u < rs[k].at + rs[k].size;
    }
    if !EndsAt(rs, u) {
      assert rs[i].at <= u < rs[i].at + rs[i].size;
    }
  }

  /**
   * At any time of any run, the header that the next lookup writes at the cursor lies in received memory exactly
   * unless the block under the cursor is used up, received memory ends with it, and no other begins there.
   */
  lemma RefiledHeaderIsOwnedIff(units: nat, ws: seq<World>, ops: seq<Op>, n: nat)
    requires Run(units, ws, ops) && n <= |ops| && ws[n].s.initial != ws[n].s.current
    ensures var w := ws[n];
            Owned(w.regions, w.s.current) <==>
              w.s.currentLength > 0 || !EndsAt(w.regions, w.s.current) || BeginsAt(w.regions, w.s.current)
  {
    RunsKeepWorldInv(units, ws, ops, n);
    var s, rs := ws[n].s, ws[n].regions;
    assert At(s.q, s.initialLength, 0);
    BlockIsOwned(rs, s.initial, s.initialLength, s.current - 1);
    OwnedNextIff(rs, s.current);
    if s.currentLength > 0 {
      BlockIsOwned(rs, s.initial, s.initialLength, s.current);
    }
  }

  /** The header of a filed block that has a unit lies in received memory. */
  lemma FiledHeadersAreOwned(units: nat, ws: seq<World>, ops: seq<Op>, n: nat, b: nat, i: nat)
    requires Run(units, ws, ops) && n <= |ops| && At(ws[n].s.q, b, i) && b > 0
    ensures Owned(ws[n].regions, ws[n].s.q[b][i])
  {
    RunsKeepWorldInv(units, ws, ops, n);
    BlockIsOwned(ws[n].regions, ws[n].s.q[b][i], b, ws[n].s.q[b][i]);
  }

  lemma ZeroBlockLookup(a: nat, b: nat)
    requires 0 < a && 0 < b < BUCKETS
    ensures var s := State(Append(NoBlocks(), b, a), a, b, a + b, 0);
            && CursorOk(s) && Refileable(s)
            && Lookup(s).0 == PointedAt(Append(NoBlocks(), 0, a + b), 0)
  {
    var s := State(Append(NoBlocks(), b, a), a, b, a + b, 0);
    assert s.q[b] == [a] && forall c :: 0 <= c < BUCKETS && c != b ==> s.q[c] == [];
    var q := Refiled(s);
    assert q[0] == [a + b] && forall c :: 0 < c < BUCKETS ==> q[c] == [];
    assert q == Append(NoBlocks(), 0, a + b);
    assert Greatest(q, BUCKETS) == 0;
  }

  /** The world after a first allocation of one unit, when it is used up, and after a lookup. */
  function FirstPages(units: nat, page: nat): World {
    World(Zeroed().(q := Append(NoBlocks(), 255, page + 1)), units, [Region(page, 256, page + 1)],
          [], [Extent(page, 1)], 1, 0, 1, 1)
  }

  function UsedUp(units: nat, page: nat): World {
    var w := FirstPages(units, page);
    w.(s := State(w.s.q, page + 1, 255, page + 256, 0), carved := [Extent(page + 1, 255)], charged := 256)
  }

  function Strayed(units: nat, page: nat): World {
    UsedUp(units, page).(s := PointedAt(Append(NoBlocks(), 0, page + 256), 0))
  }

  lemma FirstPagesFollows(units: nat, page: nat)
    requires 0 < page && page + 256 < units
    ensures Follows(Boot(units), Alloc(0, page), FirstPages(units, page))
  {
    FirstAllocation(1, page);
    assert PageRegion(page, 1) == Region(page, 256, page + 1);
    hide Serve, NoBlocks, PageRegion;
  }

  lemma UsedUpFollows(units: nat, page: nat)
    requires 0 < page && page + 256 < units
    ensures Follows(FirstPages(units, page), Alloc(254, 0), UsedUp(units, page))
  {
    AllocationFromOnlyBlock(255, page + 1, 255, 0);
    hide Serve, NoBlocks;
  }

  lemma StrayedFollows(units: nat, page: nat)
    requires 0 < page && page + 256 < units
    ensures Follows(UsedUp(units, page), Find, Strayed(units, page))
  {
    ZeroBlockLookup(page + 1, 255);
    hide Lookup, Refileable, NoBlocks, PointedAt;
  }

  /** Two allocations that use up the first pages and a lookup: a header stands at the unit after the pages. */
  lemma HeaderMayStray(units: nat, page: nat) returns (ws: seq<World>, ops: seq<Op>)
    requires 0 < page && page + 256 < units
    ensures |ops| == 3 && Run(units, ws, ops)
    ensures ws[3].regions == [Region(page, 256, page + 1)]
    ensures Filed(ws[3].s.q, page + 256) && !Owned(ws[3].regions, page + 256)
  {
    ops := [Alloc(0, page), Alloc(254, 0), Find];
    ws := [Boot(units), FirstPages(units, page), UsedUp(units, page), Strayed(units, page)];
    assert At(ws[3].s.q, 0, 0) && ws[3].s.q[0][0] == page + 256;
    FirstPagesFollows(units, page);
    UsedUpFollows(units, page);
    StrayedFollows(units, page);
    hide Follows, NoBlocks;
  }

  // ---- Outside callers' data -----------------------------------------------------------------

  /** A block whose data the manager keeps clear of: carved from the cursor, or cut from pages it takes whole. */
  ghost predicate Guarded(w: World, e: Extent) {
    e in w.carved || (e in w.paged && e.size % 256 == 0)
  }

  /** Unit a lies behind the header of a guarded block. */
  ghost predicate DataUnit(w: World, a: nat) {
    exists e :: Guarded(w, e) && e.at < a < e.at + e.size
  }

  /** The unfiled units whose headers an operation may write. */
  function WrittenBy(s: State, op: Op): set<nat>
    requires CursorOk(s)
  {
    match op
    case Find => {s.current}
    case Insert(block, _) => {block}
    case Alloc(length, page) => Written(s, (length + 1) % TWO64, page)
  }

  /** e lies in one region and is clear of where free blocks may lie in it, but for those it may be carved next to. */
  ghost predicate Kept(s: State, rs: seq<Region>, e: Extent) {
    || (Covered(rs, e.at, e.size) && ClearOfFree(s, e))
    || (CutFrom(rs, e) && e.size % 256 == 0)
  }

  /** What is clear of a state's free blocks holds neither their headers nor the cursor. */
  lemma ClearOfHeaders(s: State, e: Extent, a: nat)
    requires ClearOfFree(s, e) && e.at < a < e.at + e.size
    ensures !Filed(s.q, a) && a != s.current
  {
  }

  /** What is kept holds neither headers of free blocks nor the cursor. */
  lemma KeptHoldsNoHeader(s: State, units: nat, rs: seq<Region>, carved: seq<Extent>, e: Extent, a: nat)
    requires Places(s, units, rs, carved) && Kept(s, rs, e) && e.at < a < e.at + e.size
    ensures !Filed(s.q, a) && a != s.current
  {
    if Covered(rs, e.at, e.size) && ClearOfFree(s, e) {
      ClearOfHeaders(s, e, a);
    } else {
      forall b, i | At(s.q, b, i)
        ensures s.q[b][i] != a
      {
        WholeCutAvoids(rs, e, s.q[b][i], b, a);
      }
      if s.initial != 0 {
        assert At(s.q, s.initialLength, 0);
        CoveredWithin(rs, s.initial, s.initialLength, s.current, s.currentLength);
        WholeCutAvoids(rs, e, s.current, s.currentLength, a);
      }
    }
  }

  lemma WholeCutAvoids(rs: seq<Region>, e: Extent, b: nat, n: nat, a: nat)
    requires forall j, k :: 0 <= j < k < |rs| ==> RegionsApart(rs[j], rs[k])
    requires CutFrom(rs, e) && e.size % 256 == 0 && Covered(rs, b, n) && e.at < a < e.at + e.size
    ensures a != b
  {
    var i :| 0 <= i < |rs| && CutOf(rs[i], e);
    var k :| 0 <= k < |rs| && Holds(rs[k], b, n);
    if i != k {
      assert RegionsApart(rs[if i < k then i else k], rs[if i < k then k else i]);
    }
  }

  /** What is kept lies in old memory: new memory begins elsewhere and has none of it. */
  lemma KeptIsOld(s: State, rs: seq<Region>, e: Extent, r: Region, a: nat)
    requires Kept(s, rs, e) && e.at < a < e.at + e.size
    requires forall k :: 0 <= k < |rs| ==> RegionsApart(rs[k], r)
    ensures a != r.at && (a < r.at || r.at + r.size <= a)
  {
    if Covered(rs, e.at, e.size) {
      var k :| 0 <= k < |rs| && Holds(rs[k], e.at, e.size);
      assert RegionsApart(rs[k], r);
    } else {
      var i :| 0 <= i < |rs| && CutOf(rs[i], e);
      assert RegionsApart(rs[i], r);
    }
  }

  lemma GuardedIsKept(w: World, s: State, e: Extent)
    requires Places(s, w.units, w.regions, w.carved) && Cuts(w) && Guarded(w, e)
    ensures Kept(s, w.regions, e)
  {
    if e in w.carved {
      var k :| 0 <= k < |w.carved| && w.carved[k] == e;
      assert ClearOfFree(s, w.carved[k]);
    } else {
      var k :| 0 <= k < |w.paged| && w.paged[k] == e;
    }
  }

  lemma NewPagesAvoid(w: World, target: nat, page: nat, e: Extent, a: nat)
    requires CursorOk(w.s) && 0 < target <= TWO64 - UNITS_PER_PAGE && LegalPage(w, target, page)
    requires Kept(w.s, w.regions, e) && e.at < a < e.at + e.size
    ensures page != 0 && !Prepared(w.s, target).1 ==> a != page && a != page + 1
  {
    if page != 0 && !Prepared(w.s, target).1 {
      PageSplit(target);
      hide Prepared, Kept, PagesFor;
      KeptIsOld(w.s, w.regions, e, PageRegion(page, target), a);
    }
  }

  lemma AllocAvoidsData(w: World, target: nat, page: nat, e: Extent, a: nat)
    requires WorldInv(w) && 0 < target <= TWO64 - UNITS_PER_PAGE
    requires CanPrepare(w.s, target) && LegalPage(w, target, page)
    requires Guarded(w, e) && e.at < a < e.at + e.size
    ensures !Filed(w.s.q, a) && a !in Written(w.s, target, page)
  {
    var (s', fromCursor) := Prepared(w.s, target);
    PreparedKeepsPlaces(w.s, target, w.units, w.regions, w.carved);
    GuardedIsKept(w, w.s, e);
    GuardedIsKept(w, s', e);
    KeptHoldsNoHeader(w.s, w.units, w.regions, w.carved, e, a);
    KeptHoldsNoHeader(s', w.units, w.regions, w.carved, e, a);
    NewPagesAvoid(w, target, page, e, a);
    ServeCases(w.s, target, page);
    TouchedCases(w.s, target, page);
    WrittenCases(w.s, target, page);
    hide *;
  }

  lemma WrittenCases(s: State, target: nat, page: nat)
    requires CursorOk(s)
    ensures forall a :: a in Written(s, target, page) ==>
              a in Touched(s, target, page) || a == Serve(s, target, page).ptr - 1
  {
  }

  lemma FindAvoidsData(w: World, e: Extent, a: nat)
    requires WorldInv(w) && Guarded(w, e) && e.at < a < e.at + e.size
    ensures !Filed(w.s.q, a) && a !in WrittenBy(w.s, Find)
  {
    GuardedIsKept(w, w.s, e);
    KeptHoldsNoHeader(w.s, w.units, w.regions, w.carved, e, a);
  }

  lemma InsertAvoidsData(w: World, block: nat, length: nat, e: Extent, a: nat)
    requires WorldInv(w) && Legal(w, Insert(block, length)) && Guarded(w, e) && e.at < a < e.at + e.size
    ensures a !in WrittenBy(w.s, Insert(block, length))
  {
    GuardedIsKept(w, w.s, e);
    hide Kept, Guarded, Places;
    KeptIsOld(w.s, w.regions, e, BlockRegion(block, length), a);
  }

  lemma AllocOpAvoidsData(w: World, length: nat, page: nat, e: Extent, a: nat)
    requires WorldInv(w) && Legal(w, Alloc(length, page)) && Guarded(w, e) && e.at < a < e.at + e.size
    ensures a !in WrittenBy(w.s, Alloc(length, page))
  {
    hide Guarded, WorldInv, LegalPage, CanPrepare, Written;
    AllocAvoidsData(w, (length + 1) % TWO64, page, e, a);
  }

  /**
   * The headers that an operation of a run may write are those of filed blocks, at the cursor, of the block inserted
   * or returned, and of the remainder of pages. None of them is a data unit of a guarded block.
   */
  lemma HeadersAvoidData(w: World, op: Op, a: nat)
    requires WorldInv(w) && Legal(w, op) && DataUnit(w, a)
    ensures !Filed(w.s.q, a) && a !in WrittenBy(w.s, op)
  {
    var e :| Guarded(w, e) && e.at < a < e.at + e.size;
    hide *;
    FindAvoidsData(w, e, a);
    match op
    case Find =>
    case Insert(block, length) => InsertAvoidsData(w, block, length, e, a);
    case Alloc(length, page) => AllocOpAvoidsData(w, length, page, e, a);
  }

  /** What was a data unit stays one. */
  lemma DataUnitStays(w: World, op: Op, a: nat)
    requires CursorOk(w.s) && Legal(w, op) && DataUnit(w, a)
    ensures DataUnit(Step(w, op), a)
  {
    var e :| Guarded(w, e) && e.at < a < e.at + e.size;
    assert Guarded(Step(w, op), e);
  }
}
