/** The two-level bitmap over the buckets, and why its reverse scan finds the greatest one in use. */
module BucketIndex {
  import opened FreeLists
  import opened Words

  /** Bit b of the 256 sub-bitmap bits says bucket b is in use; base bit k says sub-bitmap k is not zero. */
  ghost predicate IndexOk(q: Buckets, sub: seq<nat>, base: nat) {
    && |sub| == 4
    && Fits(base, 4)
    && (forall k :: 0 <= k < 4 ==> Fits(sub[k], 64) && (Bit(base, k) <==> sub[k] != 0))
    && (forall b :: 0 <= b < BUCKETS ==> (Bit(sub[b / 64], b % 64) <==> q[b] != []))
  }

  /** The two-level scan finds what a linear search of the buckets finds. */
  lemma ScanIsGreatest(q: Buckets, sub: seq<nat>, base: nat)
    requires IndexOk(q, sub, base)
    ensures base == 0 ==> Greatest(q, BUCKETS) == -1
    ensures base != 0 ==>
              var k := HighestBit(base);
              k < 4 && sub[k] != 0 && HighestBit(sub[k]) + 64 * k == Greatest(q, BUCKETS)
  {
    var g := Greatest(q, BUCKETS);
    if base == 0 {
      forall b | 0 <= b < BUCKETS
        ensures q[b] == []
      {
        ZeroHasNoBits(b / 64);
        ZeroHasNoBits(b % 64);
        assert sub[b / 64] == 0;
      }
    } else {
      HighestBitIsGreatest(base, 4);
      var k := HighestBit(base);
      assert sub[k] != 0;
      HighestBitIsGreatest(sub[k], 64);
      var h := HighestBit(sub[k]);
      var b := h + 64 * k;
      assert b / 64 == k && b % 64 == h;
      forall c | b < c < BUCKETS
        ensures q[c] == []
      {
        if c / 64 > k {
          assert !Bit(base, c / 64);
          assert sub[c / 64] == 0;
          ZeroHasNoBits(c % 64);
        } else {
          assert c % 64 > h;
        }
      }
      assert q[b] != [];
    }
  }

  lemma ZeroedIndexOk()
    ensures IndexOk(NoBlocks(), [0, 0, 0, 0], 0)
  {
    ZeroFits(4);
    ZeroFits(64);
    forall i: nat
      ensures !Bit(0, i)
    {
      ZeroHasNoBits(i);
    }
  }

  /** The index after the length's bits are set. */
  lemma IndexAfterSet(q: Buckets, sub: seq<nat>, base: nat, b: nat, s: seq<nat>)
    requires IndexOk(q, sub, base) && b < BUCKETS && s != []
    ensures IndexOk(q[b := s], sub[b / 64 := WithBit(sub[b / 64], b % 64, true)], WithBit(base, b / 64, true))
  {
    var k := b / 64;
    var sub' := sub[k := WithBit(sub[k], b % 64, true)];
    WithBitFits(sub[k], b % 64, true, 64);
    WithBitFits(base, k, true, 4);
    WithBitBits(sub[k], b % 64, true, b % 64);
    NonzeroHasABit(sub'[k], 64, b % 64);
    forall j | 0 <= j < 4
      ensures Fits(sub'[j], 64) && (Bit(WithBit(base, k, true), j) <==> sub'[j] != 0)
    {
      WithBitBits(base, k, true, j);
    }
    forall c | 0 <= c < BUCKETS
      ensures Bit(sub'[c / 64], c % 64) <==> q[b := s][c] != []
    {
      WithBitBits(sub[k], b % 64, true, c % 64);
      assert c == 64 * (c / 64) + c % 64 && b == 64 * k + b % 64;
    }
  }

  /** The index after the length's bit is reset, and the base bit with it once the sub-bitmap is zero. */
  lemma IndexAfterClear(q: Buckets, sub: seq<nat>, base: nat, b: nat, word: nat)
    requires IndexOk(q, sub, base) && b < BUCKETS && word == WithBit(sub[b / 64], b % 64, false)
    ensures IndexOk(q[b := []], sub[b / 64 := word], if word == 0 then WithBit(base, b / 64, false) else base)
  {
    var k := b / 64;
    var sub' := sub[k := word];
    var base' := if word == 0 then WithBit(base, k, false) else base;
    WithBitFits(sub[k], b % 64, false, 64);
    WithBitFits(base, k, false, 4);
    forall j | 0 <= j < 4
      ensures Fits(sub'[j], 64) && (Bit(base', j) <==> sub'[j] != 0)
    {
      WithBitBits(base, k, false, j);
      if j == k && word != 0 {
        NonzeroHasABit(word, 64, HighestBit(word));
        WithBitBits(sub[k], b % 64, false, HighestBit(word));
        NonzeroHasABit(sub[k], 64, HighestBit(word));
      }
    }
    forall c | 0 <= c < BUCKETS
      ensures Bit(sub'[c / 64], c % 64) <==> q[b := []][c] != []
    {
      WithBitBits(sub[k], b % 64, false, c % 64);
      assert c == 64 * (c / 64) + c % 64 && b == 64 * k + b % 64;
    }
  }

  /** A removal that leaves the bucket in use needs no change of the index. */
  lemma IndexAfterDrop(q: Buckets, sub: seq<nat>, base: nat, b: nat, i: nat)
    requires IndexOk(q, sub, base) && At(q, b, i)
    ensures IndexOk(DropAt(q, b, i), sub, base) <==> DropAt(q, b, i)[b] != []
  {
  }

  /** A bucket array has only one index. */
  lemma IndexIsUnique(q: Buckets, sub: seq<nat>, base: nat, sub': seq<nat>, base': nat)
    requires IndexOk(q, sub, base) && IndexOk(q, sub', base')
    ensures sub == sub' && base == base'
  {
    forall k | 0 <= k < 4
      ensures sub[k] == sub'[k]
    {
      forall i: nat | i < 64
        ensures Bit(sub[k], i) == Bit(sub'[k], i)
      {
        var b := 64 * k + i;
        assert b / 64 == k && b % 64 == i;
        assert q[b] == q[b];
      }
      SameBits(sub[k], sub'[k], 64);
    }
    SameBits(base, base', 4);
  }
}
