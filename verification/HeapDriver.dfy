/** Runs on real headers: the image in memory follows the world, and carved blocks keep their data. */
module HeapDriver {
  import opened FreeLists
  import opened HeaderChains
  import opened HeapHeaders
  import opened HeapImage
  import opened HeapRuns
  import opened Words

  /** Two memories hold the same data in the guarded blocks of a world. */
  ghost predicate SameData(w: World, m: seq<Header>, n: seq<Header>) {
    |m| == |n| && forall a: nat {:trigger DataUnit(w, a)} :: DataUnit(w, a) && a < |m| ==> m[a] == n[a]
  }

  /** What an operation needs of the image it is performed on. */
  ghost predicate Allowed(s: State, units: nat, op: Op) {
    && Inv(s)
    && match op
       case Find => Refileable(s) && HeaderFits(s, units)
       case Insert(block, length) =>
         length < BUCKETS && 0 < block < units && block + length <= units && !Filed(s.q, block)
       case Alloc(length, page) =>
         && length < TWO64 && (length == TWO64 - 1 ==> 0 < s.current < units)
         && CanPrepare(s, (length + 1) % TWO64) && PageOk(s, (length + 1) % TWO64, page, units)
         && (LooksUp(s, (length + 1) % TWO64) ==> HeaderFits(s, units))
  }

  /** The state an operation leaves. */
  function After(s: State, op: Op): State
    requires CursorOk(s) && (op.Insert? ==> op.length < BUCKETS)
  {
    match op
    case Find => Lookup(s).0
    case Insert(block, length) => s.(q := Append(s.q, length, block))
    case Alloc(length, page) => Allocate(s, length, page).s
  }

  /** Pages that are fresh in the run have room for their remainder. */
  lemma LegalPageIsOk(w: World, target: nat, page: nat)
    requires WorldInv(w) && 0 < target <= TWO64 - UNITS_PER_PAGE
    requires CanPrepare(w.s, target) && LegalPage(w, target, page)
    ensures PageOk(w.s, target, page, w.units)
  {
    if page != 0 && !Prepared(w.s, target).1 {
      PreparedKeepsPlaces(w.s, target, w.units, w.regions, w.carved);
      PageSplit(target);
      RemainderIsNew(Prepared(w.s, target).0, w.units, w.regions, w.carved, target, page);
    }
  }

  lemma LegalIsAllowed(w: World, op: Op)
    requires WorldInv(w) && Legal(w, op)
    ensures Allowed(w.s, w.units, op) && Step(w, op).s == After(w.s, op) && Step(w, op).units == w.units
  {
    hide PageOk, LegalPage, CanPrepare, LooksUp, HeaderFits, Inv;
    if op.Alloc? {
      assert (op.length + 1) % TWO64 == op.length + 1;
      LegalPageIsOk(w, op.length + 1, op.page);
    }
  }

  /** One operation on the image in memory. */
  method Perform(img: Image, op: Op)
    requires img.Valid() && Allowed(img.S(), img.mem.Length, op)
    modifies img, img.mem, img.heapArray, img.subBmp
    ensures img.Valid() && img.S() == After(old(img.S()), op)
    ensures SameBut(old(img.q), WrittenBy(old(img.S()), op), img.mem[..], old(img.mem[..]))
  {
    hide FreeLists.Allocate, FreeLists.Lookup, Inv, PageOk, CanPrepare, LooksUp, HeaderFits, Written;
    match op {
      case Find =>
        var _ := img.Lookup();
      case Insert(block, length) =>
        AppendedFrame(img.q, img.mem[..], length, block);
        img.Set(block, length);
      case Alloc(length, page) =>
        var ptr, asked := img.Allocate(length, page);
    }
  }

  /** Whatever an operation of a run writes, the data of guarded blocks stays. */
  lemma StepKeepsData(w: World, op: Op, m: seq<Header>, m': seq<Header>)
    requires WorldInv(w) && Legal(w, op) && SameBut(w.s.q, WrittenBy(w.s, op), m', m)
    ensures SameData(w, m', m)
  {
    forall a: nat | DataUnit(w, a) && a < |m|
      ensures m'[a] == m[a]
    {
      HeadersAvoidData(w, op, a);
    }
  }

  // ---- What callers write --------------------------------------------------------------------

  /** A caller writes one unit. */
  datatype Write = Write(at: nat, unit: Header)

  /** Callers write data units of their blocks only. */
  ghost predicate OwnWrites(w: World, xs: seq<Write>) {
    forall i :: 0 <= i < |xs| ==> DataUnit(w, xs[i].at) && xs[i].at < w.units
  }

  /** Memory after some writes. */
  function Applied(m: seq<Header>, xs: seq<Write>): (r: seq<Header>)
    requires forall i :: 0 <= i < |xs| ==> xs[i].at < |m|
    ensures |r| == |m|
    decreases |xs|
  {
    if xs == [] then m else Applied(m[xs[0].at := xs[0].unit], xs[1..])
  }

  /** What unit a holds after some writes, v being what it held before. */
  function LastWritten(a: nat, v: Header, xs: seq<Write>): Header
    decreases |xs|
  {
    if xs == [] then v else LastWritten(a, if xs[0].at == a then xs[0].unit else v, xs[1..])
  }

  lemma {:induction false} AppliedHolds(m: seq<Header>, xs: seq<Write>, a: nat)
    requires (forall i :: 0 <= i < |xs| ==> xs[i].at < |m|) && a < |m|
    ensures Applied(m, xs)[a] == LastWritten(a, m[a], xs)
    decreases |xs|
  {
    if xs != [] {
      AppliedHolds(m[xs[0].at := xs[0].unit], xs[1..], a);
    }
  }

  /** One write of a caller. */
  method WriteUnit(img: Image, x: Write)
    requires img.Valid() && x.at < img.mem.Length && !Filed(img.q, x.at)
    modifies img.mem
    ensures img.Valid() && img.mem[..] == old(img.mem[..])[x.at := x.unit]
  {
    WriteKeepsLinked(img.q, img.mem[..], x.at, x.unit);
    img.mem[x.at] := x.unit;
    assert img.mem[..] == old(img.mem[..])[x.at := x.unit];
  }

  lemma DataIsNotFiled(w: World, a: nat)
    requires WorldInv(w) && DataUnit(w, a)
    ensures !Filed(w.s.q, a)
  {
    var e :| Guarded(w, e) && e.at < a < e.at + e.size;
    FindAvoidsData(w, e, a);
  }

  /** Callers write their data. The image stays valid. */
  method WriteData(img: Image, xs: seq<Write>, ghost w: World)
    requires img.Valid() && img.S() == w.s && img.mem.Length == w.units && WorldInv(w) && OwnWrites(w, xs)
    modifies img.mem
    ensures img.Valid() && img.S() == w.s && img.mem[..] == Applied(old(img.mem[..]), xs)
  {
    for i := 0 to |xs|
      invariant img.Valid() && img.S() == w.s
      invariant Applied(old(img.mem[..]), xs) == Applied(img.mem[..], xs[i..])
    {
      DataIsNotFiled(w, xs[i].at);
      WriteUnit(img, xs[i]);
      assert xs[i..][1..] == xs[i + 1..] && xs[i..][0] == xs[i];
    }
  }

  // ---- Whole runs ----------------------------------------------------------------------------

  /** What a run does to memory: before each operation, and at the end, callers write their data. */
  ghost predicate Recorded(ws: seq<World>, writes: seq<seq<Write>>, mems: seq<seq<Header>>, n: nat)
    requires |writes| == |ws|
  {
    && |mems| == n + 1 <= |ws|
    && (forall i :: 0 <= i < |ws| ==> OwnWrites(ws[i], writes[i]))
    && (forall i :: 0 <= i < n ==> TurnRecorded(ws[i], writes[i], mems[i], mems[i + 1]))
  }

  ghost predicate TurnRecorded(w: World, xs: seq<Write>, m: seq<Header>, m': seq<Header>) {
    |m| == w.units && OwnWrites(w, xs) && SameData(w, m', Applied(m, xs))
  }

  /** One turn of a run: callers write their data, and an operation is performed. */
  method Turn(img: Image, xs: seq<Write>, op: Op, ghost w: World)
    requires img.Valid() && img.S() == w.s && img.mem.Length == w.units
    requires WorldInv(w) && Legal(w, op) && OwnWrites(w, xs)
    modifies img, img.mem, img.heapArray, img.subBmp
    ensures img.Valid() && img.S() == Step(w, op).s && w.units == Step(w, op).units
    ensures TurnRecorded(w, xs, old(img.mem[..]), img.mem[..])
  {
    LegalIsAllowed(w, op);
    hide Allowed, After, WrittenBy, SameBut, Step, Legal, WorldInv, OwnWrites, SameData;
    WriteData(img, xs, w);
    ghost var m := img.mem[..];
    Perform(img, op);
    StepKeepsData(w, op, m, img.mem[..]);
  }

  lemma RunTurn(units: nat, ws: seq<World>, ops: seq<Op>, i: nat)
    requires Run(units, ws, ops) && i < |ops|
    ensures WorldInv(ws[i]) && Legal(ws[i], ops[i]) && ws[i + 1] == Step(ws[i], ops[i])
  {
    RunsKeepWorldInv(units, ws, ops, i);
    assert Follows(ws[i], ops[i], ws[i + 1]);
  }

  /**
   * A whole run on a freshly initialised image, in which callers write what they please into their data before each
   * operation and at the end, ends in the run's last world. `mems` records the memory on entering each world.
   */
  method Execute(units: nat, unit: Header, ops: seq<Op>, writes: seq<seq<Write>>, ghost ws: seq<World>)
    returns (img: Image, ghost mems: seq<seq<Header>>)
    requires units <= MAX_UNITS && Run(units, ws, ops)
    requires |writes| == |ws| && forall i :: 0 <= i < |ws| ==> OwnWrites(ws[i], writes[i])
    ensures img.Valid() && img.S() == ws[|ops|].s && img.mem.Length == units == ws[|ops|].units
    ensures Recorded(ws, writes, mems, |ops|) && |mems[|ops|]| == units
    ensures img.mem[..] == Applied(mems[|ops|], writes[|ops|])
  {
    hide TurnRecorded, Follows, OwnWrites, WorldInv, Step, Legal;
    img := new Image.Init(units, unit);
    mems := [img.mem[..]];
    for i := 0 to |ops|
      invariant fresh(img) && fresh(img.mem) && fresh(img.heapArray) && fresh(img.subBmp)
      invariant img.Valid() && img.S() == ws[i].s && img.mem.Length == units == ws[i].units
      invariant |mems| == i + 1 && mems[i] == img.mem[..]
      invariant forall j :: 0 <= j < i ==> TurnRecorded(ws[j], writes[j], mems[j], mems[j + 1])
    {
      RunTurn(units, ws, ops, i);
      Turn(img, writes[i], ops[i], ws[i]);
      mems := mems + [img.mem[..]];
    }
    RunsKeepWorldInv(units, ws, ops, |ops|);
    WriteData(img, writes[|ops|], ws[|ops|]);
  }

  /** What unit a holds on entering world n, if only its owner writes it from world i on, where it holds v. */
  function Expected(a: nat, v: Header, writes: seq<seq<Write>>, i: nat, n: nat): Header
    requires n <= |writes|
  {
    if n <= i then v else LastWritten(a, Expected(a, v, writes, i, n - 1), writes[n - 1])
  }

  /** The data units of a guarded block hold, at every later time, what was last written there by callers. */
  lemma {:induction false} DataIsWhatCallersWrote(
      units: nat, ws: seq<World>, ops: seq<Op>, writes: seq<seq<Write>>, mems: seq<seq<Header>>, i: nat, n: nat, a: nat)
    requires Run(units, ws, ops) && |writes| == |ws| && i <= n <= |ops|
    requires Recorded(ws, writes, mems, |ops|) && |mems[i]| == units && DataUnit(ws[i], a) && a < units
    ensures |mems[n]| == units && DataUnit(ws[n], a)
    ensures mems[n][a] == Expected(a, mems[i][a], writes, i, n)
  {
    if i < n {
      DataIsWhatCallersWrote(units, ws, ops, writes, mems, i, n - 1, a);
      RunsKeepWorldInv(units, ws, ops, n - 1);
      assert Follows(ws[n - 1], ops[n - 1], ws[n]);
      DataUnitStays(ws[n - 1], ops[n - 1], a);
      assert TurnRecorded(ws[n - 1], writes[n - 1], mems[n - 1], mems[n]);
      AppliedHolds(mems[n - 1], writes[n - 1], a);
    }
  }
}
