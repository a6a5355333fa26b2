/** The block manager as it runs: block headers in memory, bucket heads, bitmaps and cursor fields. */
module HeapImage {
  import opened FreeLists
  import opened BucketIndex
  import opened HeaderChains
  import opened Requests
  import opened Words

  /** Addresses count 16-byte units, so these stay below 2^56 as the byte addresses in the bit-fields. */
  const MAX_UNITS: nat := 0x10_0000_0000_0000

  class Image {
    const mem: array<Header>
    const heapArray: array<nat>
    const subBmp: array<nat>
    var baseBitmap: nat
    var initialBlock: nat
    var initialLength: nat
    var currentBlock: nat
    var currentLength: nat
    ghost var q: Buckets

    ghost predicate Shape()
      reads this
    {
      && mem.Length <= MAX_UNITS
      && heapArray.Length == BUCKETS
      && subBmp.Length == 4
      && heapArray != subBmp
    }

    ghost predicate HeadsOk()
      requires Shape()
      reads this, heapArray
    {
      forall b :: 0 <= b < BUCKETS ==> heapArray[b] == HeadOf(q[b])
    }

    /** The representation of the buckets q: bucket heads, header links and bitmaps. */
    ghost predicate Valid()
      reads this, mem, heapArray, subBmp
    {
      && Shape()
      && Linked(q, mem[..])
      && HeadsOk()
      && IndexOk(q, subBmp[..], baseBitmap)
    }

    ghost function S(): State
      reads this
    {
      State(q, initialBlock, initialLength, currentBlock, currentLength)
    }

    /** oHmbInitImage, over a memory of the given number of units. */
    constructor Init(units: nat, unit: Header)
      requires units <= MAX_UNITS
      ensures Valid() && S() == Zeroed() && mem.Length == units
      ensures fresh(mem) && fresh(heapArray) && fresh(subBmp)
    {
      mem := new Header[units](_ => unit);
      heapArray := new nat[256](_ => 0);
      subBmp := new nat[4](_ => 0);
      baseBitmap := 0;
      initialBlock, initialLength, currentBlock, currentLength := 0, 0, 0, 0;
      q := NoBlocks();
      new;
      assert subBmp[..] == [0, 0, 0, 0];
      ZeroedIndexOk();
    }

    /** oHmbSet: link the block behind its bucket's last block and mark the bucket used. */
    method Set(block: nat, length: nat)
      requires Valid() && length < BUCKETS
      requires 0 < block < mem.Length && block + length <= mem.Length && !Filed(q, block)
      modifies `baseBitmap, `q, mem, heapArray, subBmp
      ensures Valid() && q == Append(old(q), length, block)
      ensures JoinsAsLast(old(q), length, block, q)
      ensures mem[..] == Appended(old(q), old(mem[..]), length, block)
    {
      ghost var m, s, sub, base0 := mem[..], q[length], subBmp[..], baseBitmap;
      AppendKeepsLinked(q, m, length, block);
      IndexAfterSet(q, sub, base0, length, s + [block]);
      assert Bit(sub[length / 64], length % 64) <==> s != [];
      if s != [] {
        assert At(q, length, 0) && At(q, length, |s| - 1) && PrevOk(q, m, length, 0);
        assert m[s[0]].prevOrLast == s[|s| - 1] < |m| && s[0] != block && s[|s| - 1] != block;
      }
      QueueMoves(q, length);
      hide Linked, IndexOk, Bit, WithBit, JoinsAsLast;
      baseBitmap := WithBit(baseBitmap, length / 64, true);
      mem[block] := mem[block].(next := 0);
      var wasSet := Bit(subBmp[length / 64], length % 64);
      subBmp[length / 64] := WithBit(subBmp[length / 64], length % 64, true);
      assert subBmp[..] == sub[length / 64 := WithBit(sub[length / 64], length % 64, true)];
      if wasSet {
        var base := heapArray[length];
        var last := mem[base].prevOrLast;
        mem[last] := mem[last].(next := block);
        mem[block] := mem[block].(prevOrLast := mem[base].prevOrLast);
        mem[base] := mem[base].(prevOrLast := block);
      } else {
        mem[block] := mem[block].(prevOrLast := block);
        heapArray[length] := block;
      }
      assert mem[..] == Appended(q, m, length, block);
      q := Append(q, length, block);
    }

    /**
     * oHmbRemove: unlink the block, entry i of its bucket. A block in the middle of its chain leaves
     * its successor's back link stale, and exactly then the representation is no longer valid.
     */
    method Remove(block: nat, length: nat, ghost i: nat)
      requires Valid() && length < BUCKETS && At(q, length, i) && q[length][i] == block
      modifies `baseBitmap, `q, mem, heapArray, subBmp
      ensures q == DropAt(old(q), length, i)
      ensures LeavesAt(old(q), length, i, q)
      ensures Valid() <==> !Middle(old(q), length, i)
      ensures mem[..] == Removed(old(q), old(mem[..]), length, i)
    {
      ghost var m, s, sub, base := mem[..], q[length], subBmp[..], baseBitmap;
      ghost var p, word := DropAt(q, length, i), WithBit(sub[length / 64], length % 64, false);
      RemoveKeepsLinked(q, m, length, i);
      IndexAfterClear(q, sub, base, length, word);
      assert NextOk(q, m, length, i) && PrevOk(q, m, length, i);
      assert m[block].prevOrLast == block <==> |s| == 1;
      assert At(q, length, 0) && s[0] < |m| && (i > 0 ==> s[0] != block);
      assert i + 1 < |s| ==> At(q, length, i + 1) && 0 < s[i + 1] < |m|;
      assert i > 0 ==> At(q, length, i - 1) && s[i - 1] < |m|;
      assert IndexOk(p, sub, base) <==> p[length] != [] by {
        IndexAfterDrop(q, sub, base, length, i);
      }
      QueueMoves(q, length);
      hide Linked, IndexOk, WithBit, LeavesAt;
      if mem[block].prevOrLast == block {
        subBmp[length / 64] := WithBit(subBmp[length / 64], length % 64, false);
        assert subBmp[..] == sub[length / 64 := word];
        if subBmp[length / 64] == 0 {
          baseBitmap := WithBit(baseBitmap, length / 64, false);
        }
        heapArray[length] := 0;
        assert p == q[length := []];
      } else if heapArray[length] == block {
        assert i == 0;
        mem[mem[block].next] := mem[mem[block].next].(prevOrLast := mem[block].prevOrLast);
        heapArray[length] := mem[block].next;
      } else {
        mem[mem[block].prevOrLast] := mem[mem[block].prevOrLast].(next := mem[block].next);
        if mem[block].next == 0 {
          mem[heapArray[length]] := mem[heapArray[length]].(prevOrLast := mem[block].prevOrLast);
        }
      }
      assert mem[..] == Removed(q, m, length, i);
      q := p;
    }

    /** oHmbSet and then oHmbRemove of the same block: only the block's own header remembers it. */
    method SetThenRemove(block: nat, length: nat)
      requires Valid() && length < BUCKETS
      requires 0 < block < mem.Length && block + length <= mem.Length && !Filed(q, block)
      modifies `baseBitmap, `q, mem, heapArray, subBmp
      ensures Valid() && q == old(q)
      ensures heapArray[..] == old(heapArray[..]) && subBmp[..] == old(subBmp[..]) && baseBitmap == old(baseBitmap)
      ensures forall a :: 0 <= a < mem.Length && a != block ==> mem[a] == old(mem[a])
    {
      ghost var n, m, heads, sub, base := |q[length]|, mem[..], heapArray[..], subBmp[..], baseBitmap;
      AppendThenRemove(q, m, length, block);
      Set(block, length);
      Remove(block, length, n);
      IndexIsUnique(q, sub, base, subBmp[..], baseBitmap);
      assert heapArray[..] == heads;
      assert mem[..][block := m[block]] == m;
    }

    /**
     * The first step of oHmbLookup: file what is left under the cursor in place of the block it was
     * carved from. The removal is always of a head, entry 0 of its bucket.
     */
    method Refile()
      requires Valid() && Inv(S()) && Refileable(S()) && HeaderFits(S(), mem.Length)
      modifies `baseBitmap, `q, mem, heapArray, subBmp
      ensures Valid() && q == Refiled(old(S()))
      ensures SameBut(old(q), {currentBlock}, mem[..], old(mem[..]))
    {
      if initialBlock != currentBlock {
        ghost var m := mem[..];
        CanRefile(S(), |m|);
        RemoveKeepsShape(q, initialLength, 0, |m|);
        MoveFrame(q, m, initialLength, 0, currentLength, currentBlock);
        hide *;
        Remove(initialBlock, initialLength, 0);
        Set(currentBlock, currentLength);
      }
    }

    /** The two reverse bit scans of oHmbLookup. They find the greatest bucket in use. */
    method ScanBitmaps() returns (found: bool, length: nat)
      requires Valid()
      ensures found <==> Greatest(q, BUCKETS) >= 0
      ensures found ==> length == Greatest(q, BUCKETS)
    {
      ScanIsGreatest(q, subBmp[..], baseBitmap);
      if baseBitmap == 0 {
        return false, 0;
      }
      var index := HighestBit(baseBitmap);
      var index2 := HighestBit(subBmp[index]);
      return true, index2 + 64 * index;
    }

    /** The last step of oHmbLookup: the cursor at the head of the bucket found. */
    method PointAt(length: nat)
      requires Valid() && At(q, length, 0)
      modifies `initialBlock, `initialLength, `currentBlock, `currentLength
      ensures Valid() && S() == PointedAt(old(q), length)
    {
      var blk := heapArray[length];
      initialBlock := blk;
      currentBlock := blk;
      initialLength := length;
      currentLength := initialLength % 256;
    }

    /**
     * oHmbLookup: refile, then point the cursor at the oldest block of the greatest bucket in use. It fails
     * exactly when no bucket is.
     */
    method Lookup() returns (found: bool)
      requires Valid() && Inv(S()) && Refileable(S()) && HeaderFits(S(), mem.Length)
      modifies this, mem, heapArray, subBmp
      ensures Valid()
      ensures (S(), found) == FreeLists.Lookup(old(S()))
      ensures TakesOldestOfGreatest(Refiled(old(S())), S(), found)
      ensures SameBut(old(q), {old(currentBlock)}, mem[..], old(mem[..]))
    {
      LookupTakesOldestOfGreatest(S());
      hide Inv, Refiled, Refileable, SameBut, TakesOldestOfGreatest;
      Refile();
      var length;
      found, length := ScanBitmaps();
      if found {
        PointAt(length);
      }
    }

    lemma CursorIsUnit()
      requires Valid() && Inv(S())
      ensures currentLength < 256 && (currentLength > 0 ==> 0 < currentBlock < mem.Length)
    {
      CursorInMemory(S(), mem.Length);
    }

    /** Take a block of target units off the front of what is under the cursor. */
    method CarveCurrent(target: nat) returns (blk: nat)
      requires Valid() && target <= currentLength < 256
      modifies `currentBlock, `currentLength
      ensures Valid() && S() == Carve(old(S()), target) && blk == old(currentBlock)
    {
      blk := currentBlock;
      currentBlock := currentBlock + target;
      currentLength := (currentLength - target) % 256;
    }

    /**
     * The page path of oHmbAllocate: ask the source for whole pages and file their excess over target
     * at the unit after their first.
     */
    method TakePages(target: nat, page: nat) returns (blk: nat, asked: nat)
      requires Valid()
      requires page != 0 && target % 256 != 0 ==>
        page + 1 + Excess(target, UNITS_PER_PAGE) <= mem.Length && !Filed(q, page + 1)
      modifies `baseBitmap, `q, mem, heapArray, subBmp
      ensures Valid() && blk == page && asked == PagesFor(target)
      ensures S() == if page == 0 then old(S()) else ExcessFiled(old(S()), target, page)
      ensures SameBut(old(q), if page == 0 || target % 256 == 0 then {} else {page + 1}, mem[..], old(mem[..]))
    {
      asked := AlignForward(target, 0x100) / 0x100;
      blk := page;
      if blk != 0 && target % 256 != 0 {
        AppendedFrame(q, mem[..], Excess(target, 0x100), blk + 1);
        Set(blk + 1, Excess(target, 0x100));
      }
    }

    /** Stamp a block's header as allocated. */
    method Stamp(blk: nat, length: nat)
      requires Valid() && blk < mem.Length
      modifies mem
      ensures Valid()
      ensures mem[..] == old(mem[..])[blk := old(mem[blk]).(used := true, length := length % 256)]
    {
      StampKeepsLinked(q, mem[..], blk, length % 256);
      mem[blk] := mem[blk].(used := true, length := length % 256);
      assert mem[..] == old(mem[..])[blk := old(mem[blk]).(used := true, length := length % 256)];
    }

    /** The condition of oHmbAllocate: can the cursor serve target units, after a lookup if need be? */
    method Prepare(target: nat) returns (fromCursor: bool)
      requires Valid() && Inv(S()) && CanPrepare(S(), target) && (LooksUp(S(), target) ==> HeaderFits(S(), mem.Length))
      modifies this, mem, heapArray, subBmp
      ensures Valid()
      ensures (S(), fromCursor) == Prepared(old(S()), target)
      ensures SameBut(old(q), {old(currentBlock)}, mem[..], old(mem[..]))
    {
      if target >= 0x100 {
        return false;
      }
      if currentLength >= target {
        return true;
      }
      fromCursor := Lookup();
      fromCursor := fromCursor && initialLength >= target;
    }

    /** The two ways oHmbAllocate comes by a block, before it stamps the header; 0 when the page source has none. */
    method Obtain(target: nat, page: nat) returns (blk: nat, asked: nat)
      requires Valid() && Inv(S()) && CanPrepare(S(), target) && PageOk(S(), target, page, mem.Length)
      requires LooksUp(S(), target) ==> HeaderFits(S(), mem.Length)
      requires target == 0 ==> 0 < currentBlock < mem.Length
      modifies this, mem, heapArray, subBmp
      ensures Valid() && (blk != 0 ==> blk < mem.Length)
      ensures Outcome(S(), if blk == 0 then 0 else blk + 1, asked) == Serve(old(S()), target, page)
      ensures SameBut(old(q), Touched(old(S()), target, page), mem[..], old(mem[..]))
    {
      ghost var s, m := S(), mem[..];
      ServeCases(s, target, page);
      TouchedCases(s, target, page);
      PreparedKeeps(s, target);
      PreparedFiled(s, target);
      assert target == 0 ==> Prepared(s, target) == (s, true);
      var fromCursor := Prepare(target);
      ghost var q', m' := q, mem[..];
      hide *;
      if fromCursor {
        CursorIsUnit();
        asked := 0;
        blk := CarveCurrent(target);
        assert mem[..] == m';
      } else {
        blk, asked := TakePages(target, page);
        ghost var xs := if page == 0 || target % 256 == 0 then {} else {page + 1};
        SameButTwice(s.q, q', {s.current}, xs, m, m', mem[..]);
      }
    }

    /**
     * oHmbAllocate, of any 64-bit length. `page` is what the page source answers if it is asked; `asked` is the
     * number of pages asked for. A length whose increment wraps to 0 needs a block under the cursor.
     */
    method Allocate(length: nat, page: nat) returns (ptr: nat, asked: nat)
      requires Valid() && Inv(S()) && length < TWO64
      requires CanPrepare(S(), (length + 1) % TWO64) && PageOk(S(), (length + 1) % TWO64, page, mem.Length)
      requires LooksUp(S(), (length + 1) % TWO64) ==> HeaderFits(S(), mem.Length)
      requires length == TWO64 - 1 ==> 0 < currentBlock < mem.Length
      modifies this, mem, heapArray, subBmp
      ensures Valid()
      ensures Outcome(S(), ptr, asked) == FreeLists.Allocate(old(S()), length, page)
      ensures Answers(old(S()), (length + 1) % TWO64, page, Outcome(S(), ptr, asked))
      ensures ptr != 0 ==> ptr <= mem.Length && mem[ptr - 1].used && mem[ptr - 1].length == length % 256
      ensures SameBut(old(q), Written(old(S()), (length + 1) % TWO64, page), mem[..], old(mem[..]))
    {
      ghost var s, m := S(), mem[..];
      var target := (length + 1) % TWO64;
      AllocationAnswers(s, length, page);
      AllocateServes(s, length, page);
      WrittenIs(s, target, page);
      assert target == 0 ==> length == TWO64 - 1;
      hide *;
      var blk;
      blk, asked := Obtain(target, page);
      if blk == 0 {
        return 0, asked;
      }
      SameButOne(s.q, Touched(s, target, page), m, mem[..], blk, mem[blk].(used := true, length := length % 256));
      Stamp(blk, length);
      ptr := blk + 1;
    }
  }

  /** A remainder that can be refiled may be unlinked from its bucket and linked to another. */
  lemma CanRefile(s: State, units: nat)
    requires Inv(s) && Refileable(s) && HeaderFits(s, units) && InMemory(s.q, units) && s.initial != s.current
    ensures At(s.q, s.initialLength, 0) && s.q[s.initialLength][0] == s.initial && !Middle(s.q, s.initialLength, 0)
    ensures s.initialLength < BUCKETS && s.currentLength < BUCKETS
    ensures 0 < s.current < units && s.current + s.currentLength <= units
    ensures !Filed(DropAt(s.q, s.initialLength, 0), s.current)
    ensures Refiled(s) == Append(DropAt(s.q, s.initialLength, 0), s.currentLength, s.current)
  {
    DropKeepsDistinct(s.q, s.initialLength, 0);
  }

  lemma CursorInMemory(s: State, units: nat)
    requires Inv(s) && InMemory(s.q, units)
    ensures s.currentLength < BUCKETS
    ensures s.currentLength > 0 ==> 0 < s.current < units
  {
  }
}
