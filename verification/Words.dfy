/** Machine words as natural numbers, and the bit intrinsics the block manager uses on them. */
module Words {

  const TWO64: nat := 0x1_0000_0000_0000_0000

  /** The bit of weight 2^i. */
  predicate Bit(w: nat, i: nat) {
    if i == 0 then w % 2 == 1 else Bit(w / 2, i - 1)
  }

  /** w has no bit at or above position width. */
  predicate Fits(w: nat, width: nat) {
    if width == 0 then w == 0 else Fits(w / 2, width - 1)
  }

  /** w with bit i forced to `on`: the store half of bit-test-and-set, bit-test-and-reset and |= 1 << i. */
  function WithBit(w: nat, i: nat, on: bool): nat {
    if i == 0 then w - w % 2 + (if on then 1 else 0) else w % 2 + 2 * WithBit(w / 2, i - 1, on)
  }

  /** The position a reverse bit scan reports for a non-zero word. */
  function HighestBit(w: nat): nat
    requires w != 0
  {
    if w == 1 then 0 else 1 + HighestBit(w / 2)
  }

  lemma {:induction false} WithBitBits(w: nat, i: nat, on: bool, j: nat)
    ensures Bit(WithBit(w, i, on), j) <==> if i == j then on else Bit(w, j)
  {
    if i != 0 && j != 0 {
      WithBitBits(w / 2, i - 1, on, j - 1);
    }
  }

  lemma {:induction false} WithBitFits(w: nat, i: nat, on: bool, width: nat)
    requires Fits(w, width) && i < width
    ensures Fits(WithBit(w, i, on), width)
  {
    if i != 0 {
      WithBitFits(w / 2, i - 1, on, width - 1);
    }
  }

  /** Words with the same bits are the same word. */
  lemma {:induction false} SameBits(v: nat, w: nat, width: nat)
    requires Fits(v, width) && Fits(w, width)
    requires forall i: nat | i < width :: Bit(v, i) == Bit(w, i)
    ensures v == w
  {
    if width != 0 {
      assert Bit(v, 0) == Bit(w, 0);
      forall i: nat | i < width - 1
        ensures Bit(v / 2, i) == Bit(w / 2, i)
      {
        assert Bit(v, i + 1) == Bit(w, i + 1);
      }
      SameBits(v / 2, w / 2, width - 1);
    }
  }

  lemma {:induction false} ZeroHasNoBits(i: nat)
    ensures !Bit(0, i)
  {
    if i != 0 {
      ZeroHasNoBits(i - 1);
    }
  }

  lemma {:induction false} ZeroFits(width: nat)
    ensures Fits(0, width)
  {
    if width != 0 {
      ZeroFits(width - 1);
    }
  }

  /** The scan reports the greatest position whose bit is set. */
  lemma {:induction false} HighestBitIsGreatest(w: nat, width: nat)
    requires w != 0 && Fits(w, width)
    ensures HighestBit(w) < width && Bit(w, HighestBit(w))
    ensures forall j: nat | HighestBit(w) < j :: !Bit(w, j)
  {
    if w == 1 {
      forall j: nat | 0 < j
        ensures !Bit(w, j)
      {
        ZeroHasNoBits(j - 1);
      }
    } else {
      HighestBitIsGreatest(w / 2, width - 1);
      forall j: nat | HighestBit(w) < j
        ensures !Bit(w, j)
      {
        assert !Bit(w / 2, j - 1);
      }
    }
  }

  /** A word is non-zero, as the empty-sub-bitmap test sees it, exactly when some bit is set. */
  lemma NonzeroHasABit(w: nat, width: nat, i: nat)
    requires Fits(w, width)
    ensures w != 0 ==> HighestBit(w) < width && Bit(w, HighestBit(w))
    ensures Bit(w, i) ==> w != 0
  {
    if w != 0 {
      HighestBitIsGreatest(w, width);
    }
    ZeroHasNoBits(i);
  }
}
