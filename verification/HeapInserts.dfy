/** When no lookup of a run can meet an address twice: received memory that keeps its end addresses apart. */
module HeapInserts {
  import opened FreeLists
  import opened HeapRuns
  import opened Words

  /** No free block ends where another begins. */
  ghost predicate Gaps(q: Buckets) {
    forall b, i, c, j {:trigger q[b][i], q[c][j]} ::
      At(q, b, i) && At(q, c, j) && (b != c || i != j) ==> q[b][i] + b != q[c][j]
  }

  /** Where blocks of r may begin and end is clear of where blocks of the others may. */
  predicate EndsApart(rs: seq<Region>, r: Region) {
    forall k :: 0 <= k < |rs| ==> rs[k].at + rs[k].size < r.first || r.at + r.size < rs[k].first
  }

  /** Memory goes on after r. */
  predicate Below(units: nat, r: Region) {
    r.at + r.size < units
  }

  /** What a state needs for every lookup to refile: no free block ends where another begins, or where memory does. */
  ghost predicate Roomy(w: World) {
    Gaps(w.s.q) && forall k :: 0 <= k < |w.regions| ==> Below(w.units, w.regions[k])
  }

  /** Like Legal, but about addresses of received memory only, whatever the state of the lists. */
  ghost predicate Clear(w: World, op: Op)
    requires CursorOk(w.s)
  {
    match op
    case Find => true
    case Insert(block, length) =>
      && block > 0 && length < BUCKETS
      && Fresh(w.units, w.regions, BlockRegion(block, length))
      && EndsApart(w.regions, BlockRegion(block, length)) && Below(w.units, BlockRegion(block, length))
    case Alloc(length, page) =>
      && length + UNITS_PER_PAGE < TWO64 && LegalPage(w, length + 1, page)
      && (page != 0 && !Prepared(w.s, length + 1).1 ==>
            EndsApart(w.regions, PageRegion(page, length + 1)) && Below(w.units, PageRegion(page, length + 1)))
  }

  lemma GapsRefile(s: State)
    requires Inv(s) && Gaps(s.q)
    ensures Refileable(s) && Gaps(Refiled(s))
  {
    if s.initial != s.current {
      RefilingIsDistinctIff(s);
      assert At(s.q, s.initialLength, 0);
      DropKeepsGaps(s.q, s.initialLength, 0);
      forall c, j | At(DropAt(s.q, s.initialLength, 0), c, j)
        ensures var a := DropAt(s.q, s.initialLength, 0)[c][j];
                a + c != s.current && a != s.current + s.currentLength
      {
        var k := Before(s.initialLength, 0, c, j);
        assert At(s.q, c, k) && DropAt(s.q, s.initialLength, 0)[c][j] == s.q[c][k];
        assert Apart(s.q[c][k], c, s.q[s.initialLength][0], s.initialLength);
      }
      AppendKeepsGaps(DropAt(s.q, s.initialLength, 0), s.currentLength, s.current);
    }
  }

  lemma DropKeepsGaps(q: Buckets, b: nat, i: nat)
    requires At(q, b, i) && Gaps(q)
    ensures Gaps(DropAt(q, b, i))
  {
    var p := DropAt(q, b, i);
    forall c, j | At(p, c, j)
      ensures At(q, c, Before(b, i, c, j)) && p[c][j] == q[c][Before(b, i, c, j)]
    {
    }
  }

  lemma AppendKeepsGaps(q: Buckets, b: nat, a: nat)
    requires b < BUCKETS && Gaps(q)
    requires forall c, j :: At(q, c, j) ==> q[c][j] + c != a && q[c][j] != a + b
    ensures Gaps(Append(q, b, a))
  {
  }

  lemma FindKeepsGaps(s: State)
    requires Inv(s) && Gaps(s.q)
    ensures Refileable(s) && Gaps(Lookup(s).0.q)
  {
    GapsRefile(s);
  }

  lemma PreparedKeepsGaps(s: State, target: nat)
    requires Inv(s) && Gaps(s.q)
    ensures CanPrepare(s, target) && Gaps(Prepared(s, target).0.q)
  {
    GapsRefile(s);
  }

  /** A block of memory whose ends are clear leaves gaps, and was not filed. */
  lemma FileKeepsGaps(s: State, units: nat, rs: seq<Region>, carved: seq<Extent>, r: Region, a: nat, b: nat)
    requires Places(s, units, rs, carved) && Gaps(s.q) && EndsApart(rs, r) && Holds(r, a, b) && b < BUCKETS
    ensures Gaps(Append(s.q, b, a)) && !Filed(s.q, a)
  {
    forall c, j | At(s.q, c, j)
      ensures s.q[c][j] + c != a && s.q[c][j] != a + b && s.q[c][j] != a
    {
      var k :| 0 <= k < |rs| && Holds(rs[k], s.q[c][j], c);
    }
    AppendKeepsGaps(s.q, b, a);
  }

  lemma ExcessKeepsGaps(w: World, s: State, target: nat, page: nat)
    requires Places(s, w.units, w.regions, w.carved) && Gaps(s.q) && 0 < target <= TWO64 - UNITS_PER_PAGE
    requires EndsApart(w.regions, PageRegion(page, target))
    ensures Gaps(ExcessFiled(s, target, page).q)
  {
    PageSplit(target);
    if target % 256 != 0 {
      var r := PageRegion(page, target);
      FileKeepsGaps(s, w.units, w.regions, w.carved, r, page + 1, Excess(target, UNITS_PER_PAGE));
    }
  }

  lemma AllocStepServes(w: World, target: nat, page: nat)
    requires CursorOk(w.s)
    ensures AllocStep(w, target, page).s == Serve(w.s, target, page).s
  {
  }

  lemma AllocKeepsGaps(w: World, target: nat, page: nat)
    requires WorldInv(w) && Gaps(w.s.q) && 0 < target <= TWO64 - UNITS_PER_PAGE && LegalPage(w, target, page)
    requires page != 0 && !Prepared(w.s, target).1 ==> EndsApart(w.regions, PageRegion(page, target))
    ensures CanPrepare(w.s, target) && Gaps(AllocStep(w, target, page).s.q)
  {
    var (s', fromCursor) := Prepared(w.s, target);
    assert Inv(w.s) && Places(w.s, w.units, w.regions, w.carved);
    hide *;
    PreparedKeepsGaps(w.s, target);
    PreparedKeepsPlaces(w.s, target, w.units, w.regions, w.carved);
    ServeCases(w.s, target, page);
    AllocStepServes(w, target, page);
    if fromCursor {
      assert Carve(s', target).q == s'.q by {
        CarveKeepsBuckets(s', target);
      }
    } else if page != 0 {
      ExcessKeepsGaps(w, s', target, page);
    }
  }

  lemma CarveKeepsBuckets(s: State, target: nat)
    requires target <= s.currentLength
    ensures Carve(s, target).q == s.q
  {
  }

  lemma CursorIsBelow(w: World)
    requires WorldInv(w) && Roomy(w)
    ensures HeaderFits(w.s, w.units)
  {
    if w.s.initial != w.s.current {
      assert At(w.s.q, w.s.initialLength, 0);
      var k :| 0 <= k < |w.regions| && Holds(w.regions[k], w.s.initial, w.s.initialLength);
      assert Below(w.units, w.regions[k]);
    }
  }

  lemma ClearInsertIsLegal(w: World, block: nat, length: nat)
    requires WorldInv(w) && Roomy(w) && Clear(w, Insert(block, length))
    ensures Legal(w, Insert(block, length)) && Roomy(Step(w, Insert(block, length)))
  {
    FileKeepsGaps(w.s, w.units, w.regions, w.carved, BlockRegion(block, length), block, length);
  }

  lemma AllocKeepsBelow(w: World, target: nat, page: nat)
    requires WorldInv(w) && Roomy(w) && 0 < target <= TWO64 - UNITS_PER_PAGE
    requires page != 0 && !Prepared(w.s, target).1 ==> Below(w.units, PageRegion(page, target))
    ensures var w' := AllocStep(w, target, page);
            w'.units == w.units && forall k :: 0 <= k < |w'.regions| ==> Below(w.units, w'.regions[k])
  {
    PageSplit(target);
    ServeCases(w.s, target, page);
    hide Below, PageRegion, Prepared, PagesFor, Serve, Gaps, WorldInv;
  }

  lemma ClearAllocIsLegal(w: World, length: nat, page: nat)
    requires WorldInv(w) && Roomy(w) && Clear(w, Alloc(length, page))
    ensures Legal(w, Alloc(length, page)) && Roomy(AllocStep(w, length + 1, page))
  {
    CursorIsBelow(w);
    hide WorldInv, Gaps, CanPrepare, LooksUp, LegalPage, EndsApart, PageRegion, Prepared, AllocStep, HeaderFits;
    AllocKeepsGaps(w, length + 1, page);
    AllocKeepsBelow(w, length + 1, page);
  }

  lemma ClearAllocOpIsLegal(w: World, length: nat, page: nat)
    requires WorldInv(w) && Roomy(w) && Clear(w, Alloc(length, page))
    ensures Legal(w, Alloc(length, page)) && Roomy(Step(w, Alloc(length, page)))
  {
    hide WorldInv, Roomy, AllocStep, LegalPage, CanPrepare, LooksUp, EndsApart, Prepared;
    ClearAllocIsLegal(w, length, page);
    assert (length + 1) % TWO64 == length + 1;
  }

  lemma ClearFindIsLegal(w: World)
    requires WorldInv(w) && Roomy(w)
    ensures Legal(w, Find) && Roomy(Step(w, Find))
  {
    CursorIsBelow(w);
    FindKeepsGaps(w.s);
  }

  lemma ClearIsLegal(w: World, op: Op)
    requires WorldInv(w) && Roomy(w) && Clear(w, op)
    ensures Legal(w, op) && Roomy(Step(w, op))
  {
    hide *;
    match op
    case Find => ClearFindIsLegal(w);
    case Insert(block, length) => ClearInsertIsLegal(w, block, length);
    case Alloc(length, page) => ClearAllocOpIsLegal(w, length, page);
  }

  ghost predicate ClearlyFollows(w: World, op: Op, w': World) {
    CursorOk(w.s) ==> Clear(w, op) && w' == Step(w, op)
  }

  ghost predicate ClearSequence(units: nat, ws: seq<World>, ops: seq<Op>) {
    && |ws| == |ops| + 1 && ws[0] == Boot(units)
    && forall i :: 0 <= i < |ops| ==> ClearlyFollows(ws[i], ops[i], ws[i + 1])
  }

  lemma {:induction false} ClearSequencesKeepGaps(units: nat, ws: seq<World>, ops: seq<Op>, n: nat)
    requires ClearSequence(units, ws, ops) && n <= |ops|
    ensures WorldInv(ws[n]) && Roomy(ws[n])
  {
    hide WorldInv, Roomy, Clear, Legal, Step;
    if n == 0 {
      BootInv(units);
      BootGaps(units);
    } else {
      ClearSequencesKeepGaps(units, ws, ops, n - 1);
      ClearStep(ws[n - 1], ops[n - 1], ws[n]);
      assert ClearlyFollows(ws[n - 1], ops[n - 1], ws[n]);
    }
  }

  lemma BootGaps(units: nat)
    ensures Roomy(Boot(units))
  {
  }

  lemma ClearStep(w: World, op: Op, w': World)
    requires WorldInv(w) && Roomy(w)
    ensures ClearlyFollows(w, op, w') ==> Follows(w, op, w') && WorldInv(w') && Roomy(w')
  {
    assert CursorOk(w.s);
    hide WorldInv, Roomy, Clear, Legal, Step;
    if ClearlyFollows(w, op, w') {
      ClearIsLegal(w, op);
      StepKeepsWorldInv(w, op);
    }
  }

  /** If all received memory keeps its ends apart, every operation of the sequence is legal: it is a run. */
  lemma ClearSequencesAreRuns(units: nat, ws: seq<World>, ops: seq<Op>)
    requires ClearSequence(units, ws, ops)
    ensures Run(units, ws, ops)
  {
    hide WorldInv, Roomy, ClearlyFollows, Follows;
    forall i | 0 <= i < |ops|
      ensures Follows(ws[i], ops[i], ws[i + 1])
    {
      ClearSequencesKeepGaps(units, ws, ops, i);
      ClearStep(ws[i], ops[i], ws[i + 1]);
    }
  }

  // ---- Pages only ----------------------------------------------------------------------------

  /** No free block begins at the first unit of a region, as none does at the first unit of pages. */
  ghost predicate AllPages(rs: seq<Region>) {
    forall k :: 0 <= k < |rs| ==> rs[k].at < rs[k].first
  }

  /** Pages are fresh, and memory goes on after them. */
  ghost predicate PagesLegal(w: World, length: nat, page: nat)
    requires CursorOk(w.s)
  {
    && length + UNITS_PER_PAGE < TWO64 && LegalPage(w, length + 1, page)
    && (page != 0 && !Prepared(w.s, length + 1).1 ==> Below(w.units, PageRegion(page, length + 1)))
  }

  /** No block is inserted. */
  ghost predicate PagelyFollows(w: World, op: Op, w': World) {
    CursorOk(w.s) ==>
      && (op.Find? || (op.Alloc? && PagesLegal(w, op.length, op.page)))
      && w' == Step(w, op)
  }

  lemma PageStepIsClear(w: World, op: Op, w': World)
    requires AllPages(w.regions) && CursorOk(w.s)
    ensures PagelyFollows(w, op, w') ==> ClearlyFollows(w, op, w') && AllPages(w'.regions)
  {
  }

  lemma PageStep(w: World, op: Op, w': World)
    requires WorldInv(w) && Roomy(w) && AllPages(w.regions) && PagelyFollows(w, op, w')
    ensures Follows(w, op, w') && WorldInv(w') && Roomy(w') && AllPages(w'.regions)
  {
    assert CursorOk(w.s);
    hide WorldInv, Roomy, AllPages, PagelyFollows, ClearlyFollows, Follows;
    PageStepIsClear(w, op, w');
    ClearStep(w, op, w');
  }

  lemma BootPages(units: nat)
    ensures WorldInv(Boot(units)) && Roomy(Boot(units)) && AllPages(Boot(units).regions)
  {
    BootInv(units);
    BootGaps(units);
  }

  lemma {:induction false} PageSequencesAreClear(units: nat, ws: seq<World>, ops: seq<Op>, n: nat)
    requires |ws| == |ops| + 1 && ws[0] == Boot(units) && n <= |ops|
    requires forall i :: 0 <= i < |ops| ==> PagelyFollows(ws[i], ops[i], ws[i + 1])
    ensures WorldInv(ws[n]) && Roomy(ws[n]) && AllPages(ws[n].regions)
    ensures forall i :: 0 <= i < n ==> Follows(ws[i], ops[i], ws[i + 1])
  {
    hide *;
    if n == 0 {
      BootPages(units);
    } else {
      PageSequencesAreClear(units, ws, ops, n - 1);
      PageStep(ws[n - 1], ops[n - 1], ws[n]);
    }
  }

  /** Without insertions no lookup ever meets an address twice: any sequence over fresh pages is a run. */
  lemma PageSequencesAreRuns(units: nat, ws: seq<World>, ops: seq<Op>)
    requires |ws| == |ops| + 1 && ws[0] == Boot(units)
    requires forall i :: 0 <= i < |ops| ==> PagelyFollows(ws[i], ops[i], ws[i + 1])
    ensures Run(units, ws, ops)
  {
    PageSequencesAreClear(units, ws, ops, |ops|);
  }
}
