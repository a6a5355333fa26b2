/** Blocks cut from fresh pages, over whole runs: which of them stay clear of everything else. */
module HeapPages {
  import opened FreeLists
  import opened HeapRuns
  import opened HeapTheorems
  import opened Words

  ghost predicate InCarved(carved: seq<Extent>, u: nat) {
    exists k :: 0 <= k < |carved| && carved[k].at <= u < carved[k].at + carved[k].size
  }

  /** Unit u lies in a filed block or in one carved from the cursor. */
  ghost predicate Held(s: State, carved: seq<Extent>, u: nat) {
    InFiledBlock(s.q, u) || InCarved(carved, u)
  }

  /** What was taken off the front of the cursor's block was carved. */
  ghost predicate Spent(s: State, carved: seq<Extent>) {
    forall u: nat :: s.initial <= u < s.current ==> InCarved(carved, u)
  }

  /** A block cut from pages whose remainder is filed at its second unit. */
  predicate Overlapped(size: nat) {
    size > 1 && size % 256 != 0
  }

  /** The second unit of every such block is held. */
  ghost predicate Marks(w: World) {
    forall k :: 0 <= k < |w.paged| && Overlapped(w.paged[k].size) ==> Held(w.s, w.carved, w.paged[k].at + 1)
  }

  /** A filed block may be refiled in part; the rest of it was carved. */
  lemma LookupKeepsHeld(s: State, carved: seq<Extent>, u: nat)
    requires Inv(s) && Spent(s, carved) && Held(s, carved, u)
    ensures InFiledBlock(Refiled(s), u) || InCarved(carved, u)
  {
    if !InCarved(carved, u) {
      var b, i :| At(s.q, b, i) && s.q[b][i] <= u < s.q[b][i] + b;
      FreeUnitsAreRefiled(s, u);
    }
  }

  lemma PreparedKeepsHeld(s: State, carved: seq<Extent>, target: nat)
    requires Inv(s) && Spent(s, carved)
    ensures Spent(Prepared(s, target).0, carved)
    ensures forall u: nat :: Held(s, carved, u) ==> Held(Prepared(s, target).0, carved, u)
  {
    forall u: nat | Held(s, carved, u)
      ensures Held(Prepared(s, target).0, carved, u)
    {
      LookupKeepsHeld(s, carved, u);
    }
    if s.initial != s.current {
      RefiledIsNotEmpty(s);
    }
  }

  lemma AppendKeepsHeld(q: Buckets, b: nat, a: nat, u: nat)
    requires b < BUCKETS && (InFiledBlock(q, u) || a <= u < a + b)
    ensures InFiledBlock(Append(q, b, a), u)
  {
    var p := Append(q, b, a);
    if InFiledBlock(q, u) {
      var c, i :| At(q, c, i) && q[c][i] <= u < q[c][i] + c;
      assert At(p, c, i) && p[c][i] == q[c][i];
    } else {
      assert At(p, b, |q[b]|) && p[b][|q[b]|] == a;
    }
  }

  lemma CarvedStays(carved: seq<Extent>, e: Extent, u: nat)
    requires InCarved(carved, u) || e.at <= u < e.at + e.size
    ensures InCarved(carved + [e], u)
  {
    if InCarved(carved, u) {
      var k :| 0 <= k < |carved| && carved[k].at <= u < carved[k].at + carved[k].size;
      assert (carved + [e])[k] == carved[k];
    } else {
      assert (carved + [e])[|carved|] == e;
    }
  }

  ghost predicate PagesInv(w: World) {
    Spent(w.s, w.carved) && Marks(w)
  }

  lemma CarveKeepsHeld(s: State, carved: seq<Extent>, target: nat)
    requires Spent(s, carved) && target <= s.currentLength
    ensures Spent(Carve(s, target), carved + [Extent(s.current, target)])
    ensures forall u: nat :: Held(s, carved, u) ==> Held(Carve(s, target), carved + [Extent(s.current, target)], u)
  {
    var e := Extent(s.current, target);
    forall u: nat | InCarved(carved, u) || e.at <= u < e.at + e.size
      ensures InCarved(carved + [e], u)
    {
      CarvedStays(carved, e, u);
    }
  }

  lemma ExcessKeepsHeld(s: State, carved: seq<Extent>, target: nat, page: nat)
    requires Spent(s, carved)
    ensures Spent(ExcessFiled(s, target, page), carved)
    ensures forall u: nat :: Held(s, carved, u) ==> Held(ExcessFiled(s, target, page), carved, u)
    ensures target % 256 != 0 ==> Held(ExcessFiled(s, target, page), carved, page + 1)
  {
    if target % 256 != 0 {
      forall u: nat | InFiledBlock(s.q, u) || u == page + 1
        ensures InFiledBlock(ExcessFiled(s, target, page).q, u)
      {
        AppendKeepsHeld(s.q, Excess(target, UNITS_PER_PAGE), page + 1, u);
      }
    }
  }

  /** Marks stay while units stay held. */
  lemma MarksStay(w: World, w': World)
    requires Marks(w) && forall u: nat :: Held(w.s, w.carved, u) ==> Held(w'.s, w'.carved, u)
    requires w.paged <= w'.paged && |w'.paged| <= |w.paged| + 1
    requires |w'.paged| > |w.paged| ==>
               var e := w'.paged[|w.paged|]; Overlapped(e.size) ==> Held(w'.s, w'.carved, e.at + 1)
    ensures Marks(w')
  {
  }

  lemma AllocKeepsPagesInv(w: World, target: nat, page: nat)
    requires WorldInv(w) && PagesInv(w) && 0 < target <= TWO64 - UNITS_PER_PAGE
    ensures PagesInv(AllocStep(w, target, page))
  {
    var (s', fromCursor) := Prepared(w.s, target);
    var w' := AllocStep(w, target, page);
    PreparedKeepsHeld(w.s, w.carved, target);
    PageSplit(target);
    hide Held, Spent, Marks, Excess, ExcessFiled, Prepared, WorldInv, Overlapped, PagesFor;
    if fromCursor {
      PreparedFits(w.s, target);
      CarveKeepsHeld(s', w.carved, target);
    } else {
      ExcessKeepsHeld(s', w.carved, target, page);
      assert Overlapped(target) ==> target % 256 != 0 by {
        OverlappedHasRemainder(target);
      }
    }
    MarksStay(w, w');
  }

  lemma OverlappedHasRemainder(size: nat)
    ensures Overlapped(size) ==> size % 256 != 0
  {
  }

  lemma InsertKeepsPagesInv(w: World, block: nat, length: nat)
    requires WorldInv(w) && PagesInv(w) && Legal(w, Insert(block, length))
    ensures PagesInv(Step(w, Insert(block, length)))
  {
    forall u: nat | InFiledBlock(w.s.q, u)
      ensures InFiledBlock(Append(w.s.q, length, block), u)
    {
      AppendKeepsHeld(w.s.q, length, block, u);
    }
  }

  lemma FindKeepsPagesInv(w: World)
    requires WorldInv(w) && PagesInv(w)
    ensures PagesInv(Step(w, Find))
  {
    forall u: nat | Held(w.s, w.carved, u)
      ensures Held(Lookup(w.s).0, w.carved, u)
    {
      LookupKeepsHeld(w.s, w.carved, u);
    }
    if w.s.initial != w.s.current {
      RefiledIsNotEmpty(w.s);
    }
  }

  lemma AllocOpKeepsPagesInv(w: World, length: nat, page: nat)
    requires WorldInv(w) && PagesInv(w) && Legal(w, Alloc(length, page))
    ensures PagesInv(Step(w, Alloc(length, page)))
  {
    hide WorldInv, PagesInv, LegalPage, CanPrepare, AllocStep;
    AllocKeepsPagesInv(w, (length + 1) % TWO64, page);
  }

  lemma StepKeepsPagesInv(w: World, op: Op)
    requires WorldInv(w) && PagesInv(w) && Legal(w, op)
    ensures PagesInv(Step(w, op))
  {
    hide *;
    match op
    case Find => FindKeepsPagesInv(w);
    case Insert(block, length) => InsertKeepsPagesInv(w, block, length);
    case Alloc(length, page) => AllocOpKeepsPagesInv(w, length, page);
  }

  lemma {:induction false} RunsKeepPagesInv(units: nat, ws: seq<World>, ops: seq<Op>, n: nat)
    requires Run(units, ws, ops) && n <= |ops|
    ensures PagesInv(ws[n])
  {
    if n > 0 {
      var w, op := ws[n - 1], ops[n - 1];
      RunsKeepPagesInv(units, ws, ops, n - 1);
      RunsKeepWorldInv(units, ws, ops, n - 1);
      assert Follows(w, op, ws[n]);
      StepKeepsPagesInv(w, op);
    }
  }

  /** A block that overlaps no free block and none carved from the cursor. */
  ghost predicate ClearOfAll(w: World, e: Extent) {
    && (forall b, i :: At(w.s.q, b, i) ==> Disjoint(e, Extent(w.s.q[b][i], b)))
    && (forall k :: 0 <= k < |w.carved| ==> Disjoint(e, w.carved[k]))
  }

  /** A block cut from pages that takes one unit, or whole pages, is clear of all that lies where blocks may. */
  lemma CutIsClear(rs: seq<Region>, e: Extent, a: nat, n: nat)
    requires forall j, k :: 0 <= j < k < |rs| ==> RegionsApart(rs[j], rs[k])
    requires CutFrom(rs, e) && !Overlapped(e.size) && Covered(rs, a, n)
    ensures Disjoint(e, Extent(a, n))
  {
  }

  lemma CutIsClearOfAll(w: World, e: Extent)
    requires WorldInv(w) && CutFrom(w.regions, e) && !Overlapped(e.size)
    ensures ClearOfAll(w, e)
  {
    forall b, i | At(w.s.q, b, i)
      ensures Disjoint(e, Extent(w.s.q[b][i], b))
    {
      CutIsClear(w.regions, e, w.s.q[b][i], b);
    }
    forall k | 0 <= k < |w.carved|
      ensures Disjoint(e, w.carved[k])
    {
      CutIsClear(w.regions, e, w.carved[k].at, w.carved[k].size);
    }
  }

  /**
   * At any time of any run a block cut from pages overlaps no free and no carved block exactly when it takes
   * one unit or whole pages. Any other overlaps one for good.
   */
  lemma PagedBlockIsClearIff(units: nat, ws: seq<World>, ops: seq<Op>, n: nat, k: nat)
    requires Run(units, ws, ops) && n <= |ops| && k < |ws[n].paged|
    ensures ClearOfAll(ws[n], ws[n].paged[k]) <==> ws[n].paged[k].size == 1 || ws[n].paged[k].size % 256 == 0
  {
    var w, e := ws[n], ws[n].paged[k];
    RunsKeepWorldInv(units, ws, ops, n);
    RunsKeepPagesInv(units, ws, ops, n);
    assert CutFrom(w.regions, e);
    var i :| 0 <= i < |w.regions| && CutOf(w.regions[i], e);
    if Overlapped(e.size) {
      assert Held(w.s, w.carved, e.at + 1);
    } else {
      CutIsClearOfAll(w, e);
    }
  }

  /** If every block cut from pages takes one unit or whole pages, no two blocks handed out overlap. */
  lemma BlocksHandedOutAreDisjoint(units: nat, ws: seq<World>, ops: seq<Op>, n: nat)
    requires Run(units, ws, ops) && n <= |ops|
    requires forall k :: 0 <= k < |ws[n].paged| ==> ws[n].paged[k].size == 1 || ws[n].paged[k].size % 256 == 0
    ensures var given := ws[n].carved + ws[n].paged;
            forall j, k :: 0 <= j < k < |given| ==> Disjoint(given[j], given[k])
  {
    var w, m := ws[n], |ws[n].carved|;
    CarvedBlocksNeverOverlap(units, ws, ops, n);
    forall j, k | 0 <= j < m && 0 <= k < |w.paged|
      ensures Disjoint(w.carved[j], w.paged[k])
    {
      PagedBlockIsClearIff(units, ws, ops, n, k);
    }
  }
}
