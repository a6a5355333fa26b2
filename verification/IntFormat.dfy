/** The integer converters of the C runtime: they count digits, then fill the caller's buffer backwards. */
module IntFormat {
  import opened Numerals
  import opened Words

  const RADIX_DECIMAL := 10
  const RADIX_HEXADECIMAL := 0x10
  const RADIX_BINARY := 1
  const TWO32: nat := 0x1_0000_0000

  /** A pointer into the buffer, or NULL. */
  datatype CharPtr = Null | Index(i: nat)

  function TruncDiv(v: int, d: int): int
    requires d > 0
  {
    if v >= 0 then v / d else -((-v) / d)
  }

  function TruncRem(v: int, d: int): int
    requires d > 0
  {
    v - d * TruncDiv(v, d)
  }

  /** The 32-bit two's-complement pattern of an int. */
  function Pattern32(v: int): nat
    requires -0x8000_0000 <= v < 0x8000_0000
  {
    if v < 0 then v + TWO32 else v
  }

  /** The buffer holds text and a NUL from index at on, and is otherwise as before. */
  twostate predicate Wrote(buffer: array<char>, at: nat, text: seq<char>)
    reads buffer
  {
    && at + |text| < buffer.Length
    && (forall i :: at <= i < at + |text| ==> buffer[i] == text[i - at])
    && buffer[at + |text|] == '\0'
    && (forall i :: 0 <= i < buffer.Length && !(at <= i <= at + |text|) ==> buffer[i] == old(buffer[i]))
  }

  lemma LastDigit(n: nat, base: nat)
    requires IsRadix(base)
    ensures n / base > 0 ==> Text(n, base) == Text(n / base, base) + [DigitChar(n % base)]
    ensures n / base == 0 ==> Text(n, base) == [DigitChar(n % base)]
  {
  }

  /** The decimal counting loop: one less than the number of digits. */
  method CountTens(value: nat) returns (size: nat)
    ensures |Text(value, 10)| == size + 1
  {
    hide Text;
    size := 0;
    var sizeTest := value;
    while sizeTest / 10 > 0
      invariant |Text(value, 10)| == size + |Text(sizeTest, 10)|
      decreases sizeTest
    {
      LastDigit(sizeTest, 10);
      sizeTest := sizeTest / 10;
      size := size + 1;
    }
    LastDigit(sizeTest, 10);
  }

  /** A numeral whose first part is s + [c] has c behind its part s. */
  lemma NextDigit(text: seq<char>, n: nat, s: seq<char>, c: char)
    requires 0 < n <= |text| && text[..n] == s + [c]
    ensures text[n - 1] == c && text[..n - 1] == s
  {
  }

  /**
   * remainder + '0' in the source's signed char: of a negative value, as far below '0' as its last digit is above 0.
   */
  function LastChar(v: int): (c: char)
    ensures c as int == '0' as int + if v < 0 then -((-v) % 10) else v % 10
  {
    ('0' as int + TruncRem(v, 10)) as char
  }

  /** What the filling loop prints: the numeral or, of a negative value, one character. */
  function Tens(v: int): (t: seq<char>)
    ensures t != []
  {
    if v >= 0 then Text(v, 10) else [LastChar(v)]
  }

  lemma LastTen(v: int)
    ensures TruncDiv(v, 10) > 0 ==> 0 < TruncDiv(v, 10) < v && Tens(v) == Tens(TruncDiv(v, 10)) + [LastChar(v)]
    ensures TruncDiv(v, 10) <= 0 ==> Tens(v) == [LastChar(v)]
  {
  }

  /** The decimal filling loop: all cells but the first, from the last backwards. A negative value never enters it. */
  method FillLeading(value0: int, buffer: array<char>, at: nat, size: nat) returns (value: int, index: nat)
    requires at + size + 1 < buffer.Length && |Tens(value0)| <= size + 1
    modifies buffer
    ensures index == |Tens(value0)| - 1 && Tens(value0)[0] == LastChar(value)
    ensures forall i :: at + size - index < i <= at + size ==> buffer[i] == Tens(value0)[i - (at + size - index)]
    ensures forall i ::
              0 <= i < buffer.Length && !(at + size - index < i <= at + size) ==> buffer[i] == old(buffer[i])
  {
    hide Tens, Text, TruncDiv, LastChar;
    ghost var text, first := Tens(value0), at + size + 1 - |Tens(value0)|;
    value, index := value0, 0;
    while TruncDiv(value, 10) > 0
      invariant index < |text| && text[..|text| - index] == Tens(value)
      invariant forall i :: at + size - index < i <= at + size ==> buffer[i] == text[i - first]
      invariant forall i ::
        0 <= i < buffer.Length && !(at + size - index < i <= at + size) ==> buffer[i] == old(buffer[i])
      decreases value
    {
      LastTen(value);
      var remainder := LastChar(value);
      value := TruncDiv(value, 10);
      NextDigit(text, |text| - index, Tens(value), remainder);
      buffer[at + size - index] := remainder;
      index := index + 1;
    }
    LastTen(value);
    NextDigit(text, |text| - index, [], LastChar(value));
  }

  /** The decimal filling pass: the loop, the first cell and the NUL. */
  method FillTens(value0: int, buffer: array<char>, at: nat, size: nat)
    requires at + size + 1 < buffer.Length
    requires value0 >= 0 ==> |Text(value0, 10)| == size + 1
    modifies buffer
    ensures value0 >= 0 ==> Wrote(buffer, at, Text(value0, 10))
    ensures value0 < 0 ==> Wrote(buffer, at + size, [LastChar(value0)])
  {
    TensCases(value0);
    hide Tens, Text, LastChar;
    var value, index := FillLeading(value0, buffer, at, size);
    buffer[at + size - index] := LastChar(value);
    buffer[at + size + 1] := '\0';
  }

  lemma TensCases(v: int)
    ensures Tens(v) == if v >= 0 then Text(v, 10) else [LastChar(v)]
  {
  }

  // ---- Hexadecimal ---------------------------------------------------------------------------

  function Pow(b: nat, k: nat): nat {
    if k == 0 then 1 else b * Pow(b, k - 1)
  }

  /** The hexadecimal counting loop: the number of digits. */
  method CountHex(value: nat) returns (size: nat)
    ensures size == |Text(value, 16)|
  {
    hide Text;
    size := 0;
    var valTmp := value;
    var more := true;
    while more
      invariant if more then |Text(value, 16)| == size + |Text(valTmp, 16)| else |Text(value, 16)| == size
      decreases more, valTmp
    {
      LastDigit(valTmp, 16);
      size := size + 1;
      valTmp := valTmp / 16;
      more := valTmp != 0;
    }
  }

  /** The hexadecimal digit of the low four bits, as the source picks it. */
  function HexChar(c: nat): (r: char)
    requires c < 16
    ensures r == DigitChar(c)
  {
    if c < 0xA then '0' + c as char else 'A' + (c - 0xA) as char
  }

  /**
   * The hexadecimal filling loop and the NUL. The shift is arithmetic: a negative value keeps a run of ones
   * above the bits of its pattern, which the loop stops short of.
   */
  method FillHex(value0: int, ghost pattern: nat, buffer: array<char>, at: nat, size: nat)
    requires value0 == pattern || (value0 == pattern - Pow(16, 8) && size == 8)
    requires size == |Text(pattern, 16)| && at + size < buffer.Length
    modifies buffer
    ensures Wrote(buffer, at, Text(pattern, 16))
  {
    hide Text, Pow;
    ghost var text := Text(pattern, 16);
    ghost var p: nat := pattern;
    var value := value0;
    for i := 0 to size
      invariant i < size ==> text[..size - i] == Text(p, 16)
      invariant value0 == pattern ==> value == p
      invariant value0 != pattern ==> value == p - Pow(16, 8 - i)
      invariant forall j :: at + size - i <= j < at + size ==> buffer[j] == text[j - at]
      invariant forall j :: 0 <= j < buffer.Length && !(at + size - i <= j < at + size) ==> buffer[j] == old(buffer[j])
    {
      LastDigit(p, 16);
      if value0 != pattern {
        PowStep(16, 8 - i);
      }
      var c := value % 16;
      assert c == p % 16;
      NextDigit(text, size - i, if p / 16 > 0 then Text(p / 16, 16) else [], DigitChar(p % 16));
      buffer[at + size - (i + 1)] := HexChar(c);
      value := value / 16;
      p := p / 16;
    }
    buffer[at + size] := '\0';
  }

  lemma PowZero(b: nat)
    ensures Pow(b, 0) == 1
  {
  }

  lemma PowStep(b: nat, k: nat)
    requires k > 0
    ensures Pow(b, k) == b * Pow(b, k - 1)
  {
  }

  // ---- Binary --------------------------------------------------------------------------------

  const TOP_BIT: nat := 0x8000_0000

  /** Doubling a number puts a '0' behind its binary numeral. */
  lemma DoubledText(v: nat)
    requires v > 0
    ensures Text(2 * v, 2) == Text(v, 2) + ['0']
  {
  }

  /** The length of a binary numeral. */
  lemma {:induction false} BinaryLength(v: nat, k: nat)
    requires k > 0 && Pow(2, k - 1) <= v < Pow(2, k)
    ensures |Text(v, 2)| == k && 0 < v
  {
    LastDigit(v, 2);
    PowStep(2, k);
    if k > 1 {
      PowStep(2, k - 1);
      BinaryLength(v / 2, k - 1);
    }
  }

  lemma PowersOfTwo()
    ensures Pow(2, 31) == TOP_BIT && Pow(2, 32) == TWO32
  {
    assert Pow(2, 8) == 0x100;
    assert Pow(2, 16) == 0x1_0000;
    assert Pow(2, 24) == 0x100_0000;
    assert Pow(2, 30) == 0x4000_0000;
  }

  function Zeros(n: nat): (s: seq<char>)
    ensures |s| == n && forall i :: 0 <= i < n ==> s[i] == '0'
  {
    seq(n, _ => '0')
  }

  function TrailingZeros(v: nat): nat
    requires v > 0
  {
    if v % 2 == 1 then 0 else 1 + TrailingZeros(v / 2)
  }

  lemma {:induction false} TrailingZerosBound(v: nat, k: nat)
    requires 0 < v < Pow(2, k)
    ensures TrailingZeros(v) < k && (TrailingZeros(v) == k - 1 <==> v == Pow(2, k - 1))
  {
    PowStep(2, k);
    if k > 1 {
      PowStep(2, k - 1);
      if v % 2 == 0 {
        TrailingZerosBound(v / 2, k - 1);
      }
    }
  }

  /** Losing the top bit, while another is set, changes no trailing zero. */
  lemma {:induction false} TopBitLost(v: nat, k: nat)
    requires Pow(2, k) < v < Pow(2, k + 1)
    ensures TrailingZeros(v - Pow(2, k)) == TrailingZeros(v)
  {
    PowStep(2, k + 1);
    if k > 0 {
      PowStep(2, k);
      if v % 2 == 0 {
        TopBitLost(v / 2, k - 1);
        assert (v - Pow(2, k)) / 2 == v / 2 - Pow(2, k - 1);
      }
    }
  }

  /** Shifting a 64-bit value left adds a trailing zero until the last bit is shifted out. */
  lemma ShiftLeft64(v: nat)
    requires 0 < v < TWO64
    ensures TrailingZeros(v) < 64
    ensures var w := Shl(v, TWO64);
            (w == 0 <==> TrailingZeros(v) == 63) && (w > 0 ==> TrailingZeros(w) == TrailingZeros(v) + 1)
  {
    PowersOfTwo();
    PowSum(32, 31);
    PowSum(32, 32);
    TrailingZerosBound(v, 64);
    hide Pow;
    var half := Pow(2, 63);
    if v > half {
      TopBitLost(v, 63);
      assert (v * 2) % TWO64 == 2 * (v - half);
    }
  }

  /** The bit that the binary converters test, in a word of 32 or 64 bits. */
  predicate TestBit(value: nat) {
    value % TWO32 >= TOP_BIT
  }

  predicate IsWord(word: nat) {
    word == TWO32 || word == TWO64
  }

  /** value << 1 in a word of either width. */
  function Shl(value: nat, word: nat): (r: nat)
    requires IsWord(word)
    ensures r < word
  {
    (value * 2) % word
  }

  lemma PowDouble(v: nat, k: nat)
    ensures v * Pow(2, k + 1) == 2 * (v * Pow(2, k))
  {
  }

  lemma LowOfLow(x: nat)
    ensures (x % TWO64) % TWO32 == x % TWO32
  {
  }

  lemma LowOf(q: nat, r: nat)
    ensures (q * TWO32 + r) % TWO32 == r % TWO32
  {
  }

  lemma DoubleLow(x: nat)
    ensures (x * 2) % TWO32 == (x % TWO32 * 2) % TWO32
  {
    var q, r := x / TWO32, x % TWO32;
    assert x * 2 == (q * 2) * TWO32 + r * 2;
    LowOf(q * 2, r * 2);
  }

  lemma ShiftsLowWord(value: nat, word: nat)
    requires IsWord(word)
    ensures Shl(value, word) % TWO32 == Shl(value % TWO32, TWO32)
    ensures !TestBit(value) ==> Shl(value, word) % TWO32 == 2 * (value % TWO32)
  {
    DoubleLow(value);
    if word == TWO64 {
      LowOfLow(value * 2);
    }
  }

  /** The low word holds `low` shifted up, no bit of it lost. */
  ghost predicate ShiftedUp(low: nat, value: nat, shift: nat) {
    && value % TWO32 > 0
    && value % TWO32 == low * Pow(2, shift)
    && |Text(value % TWO32, 2)| == |Text(low, 2)| + shift
  }

  /** A value whose low word is empty is being shifted out. */
  ghost predicate ShiftedOff(value0: nat, value: nat, shift: nat)
    requires value0 > 0
  {
    && value % TWO32 == 0
    && if value > 0 then TrailingZeros(value) == TrailingZeros(value0) + shift else shift + TrailingZeros(value0) == 64
  }

  lemma UpStep(low: nat, value: nat, shift: nat, word: nat)
    requires IsWord(word) && ShiftedUp(low, value, shift) && !TestBit(value)
    ensures ShiftedUp(low, Shl(value, word), shift + 1) && Shl(value, word) % TWO32 > value % TWO32
  {
    ShiftsLowWord(value, word);
    DoubledText(value % TWO32);
    PowDouble(low, shift);
    hide Text, Pow, Shl;
  }

  lemma OffStep(value0: nat, value: nat, shift: nat)
    requires value0 > 0 && 0 < value < TWO64 && ShiftedOff(value0, value, shift)
    ensures ShiftedOff(value0, Shl(value, TWO64), shift + 1) && shift < 64
  {
    ShiftsLowWord(value, TWO64);
    ShiftLeft64(value);
    hide TrailingZeros, Shl;
  }

  /**
   * The normalising loop of the binary converters: shift left until bit 31 is set or nothing is left, counting.
   * Bits above bit 31 play no part unless they are the only ones; then all of them are shifted out.
   */
  method Normalise(value0: nat, word: nat) returns (value: nat, shift: nat)
    requires IsWord(word) && 0 < value0 < word
    ensures value < word
    ensures value0 % TWO32 > 0 ==> TestBit(value) && shift < 32 && ShiftedUp(value0 % TWO32, value, shift)
    ensures value0 % TWO32 > 0 ==> |Text(value0 % TWO32, 2)| == 32 - shift
    ensures value0 % TWO32 == 0 ==> value == 0 && shift + TrailingZeros(value0) == 64
  {
    value, shift := value0, 0;
    ghost var low := value0 % TWO32;
    assert low == 0 ==> word == TWO64;
    hide Text, Pow, TrailingZeros, Shl, IsWord, ShiftedUp, ShiftedOff;
    StartShifting(value0);
    while !TestBit(value) && value != 0
      invariant value < word && if low > 0 then ShiftedUp(low, value, shift) else ShiftedOff(value0, value, shift)
      decreases if low > 0 then TWO32 - value % TWO32 else 64 - shift
    {
      if low > 0 {
        UpStep(low, value, shift, word);
      } else {
        OffStep(value0, value, shift);
      }
      value := Shl(value, word);
      shift := shift + 1;
    }
    StopShifting(value0, value, shift);
  }

  lemma StartShifting(value0: nat)
    requires value0 > 0
    ensures if value0 % TWO32 > 0 then ShiftedUp(value0 % TWO32, value0, 0) else ShiftedOff(value0, value0, 0)
  {
  }

  lemma StopShifting(value0: nat, value: nat, shift: nat)
    requires value0 > 0 && (TestBit(value) || value == 0)
    requires if value0 % TWO32 > 0 then ShiftedUp(value0 % TWO32, value, shift) else ShiftedOff(value0, value, shift)
    ensures value0 % TWO32 > 0 ==> TestBit(value) && shift < 32 && |Text(value0 % TWO32, 2)| == 32 - shift
    ensures value0 % TWO32 == 0 ==> value == 0 && shift + TrailingZeros(value0) == 64
  {
    if value0 % TWO32 > 0 {
      PowersOfTwo();
      BinaryLength(value % TWO32, 32);
    }
  }

  lemma {:induction false} PowSum(a: nat, b: nat)
    ensures Pow(2, a) * Pow(2, b) == Pow(2, a + b)
  {
    if a > 0 {
      PowSum(a - 1, b);
      assert 2 * Pow(2, a - 1) * Pow(2, b) == 2 * (Pow(2, a - 1) * Pow(2, b));
    }
  }

  /**
   * One turn of the emitting loop. u is the number emitted so far, and the low m bits r of the whole number
   * stand at the top of the 32-bit value; the loop tests the top bit and shifts it out.
   */
  lemma BitStep(u: nat, r: nat, m: nat, value: nat)
    requires 0 < m <= 32 && r < Pow(2, m) && value == r * Pow(2, 32 - m)
    ensures var b := if value >= TOP_BIT then 1 else 0; var r' := r - b * Pow(2, m - 1);
            && 0 <= r' < Pow(2, m - 1)
            && u * Pow(2, m) + r == (2 * u + b) * Pow(2, m - 1) + r'
            && (value * 2) % TWO32 == r' * Pow(2, 33 - m)
  {
    hide Pow;
    var p, z := Pow(2, m - 1), Pow(2, 32 - m);
    PowersOfTwo();
    PowStep(2, m);
    PowStep(2, 33 - m);
    PowSum(m - 1, 32 - m);
    assert p * z == TOP_BIT;
    TopBitIsQuotient(r, p, z);
    var b := if r >= p then 1 else 0;
    assert u * (2 * p) == (2 * u) * p;
    assert (2 * u + b) * p == (2 * u) * p + b * p;
    ShiftedOut(r, p, z, b);
  }

  lemma TopBitIsQuotient(r: nat, p: nat, z: nat)
    requires p * z == TOP_BIT && r < 2 * p
    ensures r * z >= TOP_BIT <==> r >= p
  {
  }

  lemma ShiftedOut(r: nat, p: nat, z: nat, b: nat)
    requires p * z == TOP_BIT && r < 2 * p && b == if r >= p then 1 else 0
    ensures (r * z * 2) % TWO32 == (r - b * p) * (2 * z)
  {
    var r' := r - b * p;
    assert r' < p && z > 0;
    assert r' * z < p * z;
    assert r * z == r' * z + b * (p * z) by {
      assert r == r' + b * p;
      assert (r' + b * p) * z == r' * z + b * p * z;
    }
    assert r' * (2 * z) == 2 * (r' * z);
  }

  /** What n turns of the emitting loop print, given the low 32 bits of the value. */
  function Emitted(low: nat, n: nat): (s: seq<char>)
    ensures |s| == n
    decreases n
  {
    if n == 0 then [] else [if low >= TOP_BIT then '1' else '0'] + Emitted(Shl(low, TWO32), n - 1)
  }

  /** One turn, in a text of which k characters are printed. */
  lemma NextEmitted(text: seq<char>, k: nat, low: nat, n: nat)
    requires n > 0 && k + n == |text| && text[k..] == Emitted(low, n)
    ensures text[k] == if low >= TOP_BIT then '1' else '0'
    ensures text[k + 1..] == Emitted(Shl(low, TWO32), n - 1)
  {
  }

  /** The emitting loop of the binary converters and the NUL. */
  method EmitBits(value1: nat, word: nat, digits: nat, buffer: array<char>, at: nat) returns (buff: nat)
    requires IsWord(word) && value1 < word && at + digits < buffer.Length
    modifies buffer
    ensures Wrote(buffer, at, Emitted(value1 % TWO32, digits)) && buff == at + digits
  {
    hide Shl, Emitted, IsWord;
    var value: nat, shift: nat := value1, digits;
    ghost var text := Emitted(value1 % TWO32, digits);
    buff := at;
    while shift > 0
      invariant shift <= digits && buff == at + digits - shift
      invariant text[digits - shift..] == Emitted(value % TWO32, shift)
      invariant forall j :: at <= j < buff ==> buffer[j] == text[j - at]
      invariant forall j :: 0 <= j < buffer.Length && !(at <= j < buff) ==> buffer[j] == old(buffer[j])
    {
      ShiftsLowWord(value, word);
      NextEmitted(text, digits - shift, value % TWO32, shift);
      shift := shift - 1;
      buffer[buff] := if TestBit(value) then '1' else '0';
      buff := buff + 1;
      value := Shl(value, word);
    }
    buffer[buff] := '\0';
  }

  lemma {:induction false} NothingEmitted(n: nat)
    ensures Emitted(0, n) == Zeros(n)
  {
    if n > 0 {
      NothingEmitted(n - 1);
    }
  }

  /** Having emitted the number u, with the m bits r to go, the loop emits their number and then zeros. */
  lemma {:induction false} EmittedFrom(u: nat, r: nat, m: nat, z: nat)
    requires u > 0 && m <= 32 && r < Pow(2, m)
    ensures Text(u, 2) + Emitted(r * Pow(2, 32 - m), m + z) == Text(u * Pow(2, m) + r, 2) + Zeros(z)
    decreases m
  {
    hide Text, Pow;
    if m == 0 {
      PowZero(2);
      NothingEmitted(z);
    } else {
      var value := r * Pow(2, 32 - m);
      BitStep(u, r, m, value);
      var b := if value >= TOP_BIT then 1 else 0;
      var bit := [if value >= TOP_BIT then '1' else '0'];
      var rest := Emitted(Shl(value, TWO32), m - 1 + z);
      EmittedFrom(2 * u + b, r - b * Pow(2, m - 1), m - 1, z);
      LastDigit(2 * u + b, 2);
      assert Emitted(value, m + z) == bit + rest;
      assert Text(u, 2) + (bit + rest) == Text(u, 2) + bit + rest;
    }
  }

  /** From a number shifted up against bit 31 the loop emits its numeral, and zeros when it goes on. */
  lemma EmittedNumeral(v: nat, shift: nat, z: nat)
    requires shift < 32 && |Text(v, 2)| == 32 - shift && TOP_BIT <= v * Pow(2, shift) < TWO32
    ensures Emitted(v * Pow(2, shift), 32 - shift + z) == Text(v, 2) + Zeros(z)
  {
    hide Text, Pow, Emitted, Shl;
    var m := 32 - shift;
    var value := v * Pow(2, shift);
    DigitsHold(v, shift);
    BitStep(0, v, m, value);
    var r: nat := v - Pow(2, m - 1);
    EmittedFrom(1, r, m - 1, z);
    LastDigit(1, 2);
    FirstEmitted(value, m + z);
    assert Emitted(value, m + z) == Text(1, 2) + Emitted(r * Pow(2, 33 - m), m - 1 + z);
  }

  lemma FirstEmitted(low: nat, n: nat)
    requires TOP_BIT <= low && n > 0
    ensures Emitted(low, n) == ['1'] + Emitted((low * 2) % TWO32, n - 1)
  {
  }

  // ---- The converters ------------------------------------------------------------------------

  function Magnitude(v: int): nat {
    if v < 0 then -v else v
  }

  /** How many cells _itoa fills before the NUL. */
  function ItoaLength(value: int, radix: int): (n: nat)
    requires -0x8000_0000 <= value < 0x8000_0000
    ensures radix == RADIX_DECIMAL && value < 0 ==> n >= 2
  {
    if radix == RADIX_DECIMAL then |Text(Magnitude(value), 10)| + (if value < 0 then 1 else 0)
    else if radix == RADIX_HEXADECIMAL then |Text(Pattern32(value), 16)|
    else if radix == RADIX_BINARY then |Text(Pattern32(value), 2)|
    else 0
  }

  /** A negative decimal writes its sign, its last cell and the NUL; the cells between are left as they were. */
  twostate predicate WroteNegative(buffer: array<char>, at: nat, value: int)
    requires -0x8000_0000 <= value < 0
    reads buffer
  {
    var end := at + ItoaLength(value, RADIX_DECIMAL);
    && end < buffer.Length
    && buffer[at] == '-' && buffer[end - 1] == LastChar(value) && buffer[end] == '\0'
    && forall i :: 0 <= i < buffer.Length && i != at && i != end - 1 && i != end ==> buffer[i] == old(buffer[i])
  }

  /** _itoa in decimal. */
  method ItoaDecimal(value: int, buffer: array<char>, at: nat) returns (end: nat)
    requires -0x8000_0000 <= value < 0x8000_0000
    requires at + ItoaLength(value, RADIX_DECIMAL) < buffer.Length
    modifies buffer
    ensures value >= 0 ==> Wrote(buffer, at, Text(value, 10))
    ensures value < 0 ==> WroteNegative(buffer, at, value)
    ensures end == at + ItoaLength(value, RADIX_DECIMAL)
  {
    hide Text, LastChar;
    var size := CountTens(Magnitude(value));
    if value < 0 {
      buffer[at] := '-';
      FillTens(value, buffer, at + 1, size);
      return at + 1 + size + 1;
    }
    FillTens(value, buffer, at, size);
    return at + size + 1;
  }

  /** _itoa in binary. For zero the pointer returned is to the digit, not to the NUL. */
  method ItoaBinary(value: int, buffer: array<char>, at: nat) returns (end: nat)
    requires -0x8000_0000 <= value < 0x8000_0000
    requires at + |Text(Pattern32(value), 2)| < buffer.Length
    modifies buffer
    ensures Wrote(buffer, at, Text(Pattern32(value), 2))
    ensures end == if value == 0 then at else at + |Text(Pattern32(value), 2)|
  {
    hide Text, Pow;
    buffer[at] := '0';
    if value == 0 {
      LastDigit(0, 2);
      buffer[at + 1] := '\0';
      return at;
    }
    var v, shift := Normalise(Pattern32(value), TWO32);
    EmittedNumeral(Pattern32(value), shift, 0);
    end := EmitBits(v, TWO32, 32 - shift, buffer, at);
  }

  /** _itoa. */
  method Itoa(value: int, buffer: array<char>, at: nat, radix: int) returns (end: CharPtr)
    requires -0x8000_0000 <= value < 0x8000_0000
    requires at + ItoaLength(value, radix) < buffer.Length
    modifies buffer
    ensures radix == RADIX_DECIMAL && value >= 0 ==>
      Wrote(buffer, at, Text(value, 10)) && end == Index(at + ItoaLength(value, radix))
    ensures radix == RADIX_DECIMAL && value < 0 ==>
      WroteNegative(buffer, at, value) && end == Index(at + ItoaLength(value, radix))
    ensures radix == RADIX_HEXADECIMAL ==>
      Wrote(buffer, at, Text(Pattern32(value), 16)) && end == Index(at + ItoaLength(value, radix))
    ensures radix == RADIX_BINARY ==>
      Wrote(buffer, at, Text(Pattern32(value), 2))
      && end == Index(if value == 0 then at else at + ItoaLength(value, radix))
    ensures radix !in {RADIX_DECIMAL, RADIX_HEXADECIMAL, RADIX_BINARY} ==>
      end == Null && buffer[..] == old(buffer[..])
  {
    hide Text, Pow, WroteNegative;
    if radix == RADIX_DECIMAL {
      var e := ItoaDecimal(value, buffer, at);
      return Index(e);
    } else if radix == RADIX_HEXADECIMAL {
      var size := CountHex(Pattern32(value));
      if value < 0 {
        HexNeedsEightDigits(value);
      }
      FillHex(value, Pattern32(value), buffer, at, size);
      return Index(at + size);
    } else if radix == RADIX_BINARY {
      var e := ItoaBinary(value, buffer, at);
      return Index(e);
    }
    return Null;
  }

  lemma {:induction false} HexLength(v: nat, k: nat)
    requires k > 0 && Pow(16, k - 1) <= v < Pow(16, k)
    ensures |Text(v, 16)| == k
  {
    LastDigit(v, 16);
    PowStep(16, k);
    if k > 1 {
      PowStep(16, k - 1);
      HexLength(v / 16, k - 1);
    }
  }

  lemma HexNeedsEightDigits(value: int)
    requires -0x8000_0000 <= value < 0
    ensures |Text(Pattern32(value), 16)| == 8 && Pow(16, 8) == TWO32
  {
    assert Pow(16, 7) == 0x1000_0000;
    PowStep(16, 8);
    HexLength(Pattern32(value), 8);
  }

  lemma DigitsHold(v: nat, shift: nat)
    requires shift < 32 && v * Pow(2, shift) < TWO32
    ensures v < Pow(2, 32 - shift)
  {
    hide Pow;
    PowersOfTwo();
    PowSum(32 - shift, shift);
    Cancel(v, Pow(2, 32 - shift), Pow(2, shift));
  }

  lemma Cancel(a: nat, b: nat, k: nat)
    ensures a * k < b * k ==> a < b
  {
  }

  /**
   * What _ui64toa prints in binary. It aligns bit 31, not bit 63: the numeral of the low 32 bits with 32 zeros
   * behind it or, when those are all zero, only the trailing zeros.
   */
  function Ui64Binary(value: nat): seq<char> {
    if value == 0 then "0"
    else if value % TWO32 > 0 then Text(value % TWO32, 2) + Zeros(32)
    else Zeros(TrailingZeros(value))
  }

  function Ui64Text(value: nat, radix: int): seq<char>
    requires radix in {RADIX_DECIMAL, RADIX_HEXADECIMAL, RADIX_BINARY}
  {
    if radix == RADIX_BINARY then Ui64Binary(value) else Text(value, radix)
  }

  /** _ui64toa in binary. For zero the pointer returned is to the digit, not to the NUL. */
  method Ui64toaBinary(value: nat, buffer: array<char>, at: nat) returns (end: nat)
    requires value < TWO64 && at + |Ui64Binary(value)| < buffer.Length
    modifies buffer
    ensures Wrote(buffer, at, Ui64Binary(value))
    ensures end == if value == 0 then at else at + |Ui64Binary(value)|
  {
    hide Text, Pow, TrailingZeros, Emitted;
    buffer[at] := '0';
    if value == 0 {
      buffer[at + 1] := '\0';
      return at;
    }
    var v, shift := Normalise(value, TWO64);
    if value % TWO32 > 0 {
      EmittedNumeral(value % TWO32, shift, 32);
    } else {
      NothingEmitted(64 - shift);
    }
    end := EmitBits(v, TWO64, 64 - shift, buffer, at);
  }

  /** _ui64toa. */
  method Ui64toa(value: nat, buffer: array<char>, at: nat, radix: int) returns (end: CharPtr)
    requires value < TWO64
    requires radix in {RADIX_DECIMAL, RADIX_HEXADECIMAL, RADIX_BINARY} ==> at + |Ui64Text(value, radix)| < buffer.Length
    modifies buffer
    ensures radix in {RADIX_DECIMAL, RADIX_HEXADECIMAL} ==>
      Wrote(buffer, at, Text(value, radix)) && end == Index(at + |Text(value, radix)|)
    ensures radix == RADIX_BINARY ==>
      Wrote(buffer, at, Ui64Binary(value)) && end == Index(if value == 0 then at else at + |Ui64Binary(value)|)
    ensures radix !in {RADIX_DECIMAL, RADIX_HEXADECIMAL, RADIX_BINARY} ==> end == Null && buffer[..] == old(buffer[..])
  {
    hide Text, Pow;
    if radix == RADIX_DECIMAL {
      var size := CountTens(value);
      FillTens(value, buffer, at, size);
      return Index(at + size + 1);
    } else if radix == RADIX_HEXADECIMAL {
      var size := CountHex(value);
      FillHex(value, value, buffer, at, size);
      return Index(at + size);
    } else if radix == RADIX_BINARY {
      var e := Ui64toaBinary(value, buffer, at);
      return Index(e);
    }
    return Null;
  }

  // ---- What the texts mean -------------------------------------------------------------------

  /** A 64-bit value prints, in decimal or hexadecimal, as a numeral without leading zeros that reads back as it. */
  lemma Ui64RoundTrip(value: nat, radix: nat)
    requires value < TWO64 && (radix == 10 || radix == 16)
    ensures Parse(Text(value, radix), radix) == value
    ensures Text(value, radix)[0] == '0' ==> Text(value, radix) == "0"
  {
    ParseText(value, radix);
    NoLeadingZero(value, radix);
  }

  /** Every int prints, in hexadecimal and in binary, as the numeral of its bit pattern: the int modulo 2^32. */
  lemma ItoaPatternRoundTrip(value: int, base: nat)
    requires -0x8000_0000 <= value < 0x8000_0000 && (base == 16 || base == 2)
    ensures (Parse(Text(Pattern32(value), base), base) - value) % TWO32 == 0
    ensures Parse(Text(Pattern32(value), base), base) < TWO32
    ensures Text(Pattern32(value), base)[0] == '0' ==> value == 0
  {
    ParseText(Pattern32(value), base);
    NoLeadingZero(Pattern32(value), base);
  }

  /**
   * A negative decimal shows the numeral exactly when it ends in 0 and the cells between the sign and the
   * last happened to hold its leading digits already.
   */
  lemma NegativeDecimalIsRightOnlyByChance(value: int, between: seq<char>)
    requires value < 0 && |between| == |Text(-value, 10)| - 1
    ensures ['-'] + between + [LastChar(value)] == ['-'] + Text(-value, 10) <==>
              (-value) % 10 == 0 && between == Text(-value, 10)[..|between|]
  {
    LastDigit(-value, 10);
    hide Text;
    var n := |between|;
    var text := Text(-value, 10);
    assert text == text[..n] + [text[n]];
    assert text[n] == DigitChar((-value) % 10);
    var s, t := ['-'] + between + [LastChar(value)], ['-'] + text;
    assert s[1..n + 1] == between && t[1..n + 1] == text[..n];
    assert s[n + 1] == LastChar(value) && t[n + 1] == text[n];
    assert s == ['-'] + s[1..n + 1] + [s[n + 1]] && t == ['-'] + t[1..n + 1] + [t[n + 1]];
  }

  /** Doubling a number k times puts k zeros behind its numeral. */
  lemma {:induction false} ShiftedText(v: nat, k: nat)
    requires v > 0
    ensures v * Pow(2, k) > 0 && Text(v * Pow(2, k), 2) == Text(v, 2) + Zeros(k)
  {
    hide Text;
    if k > 0 {
      ShiftedText(v, k - 1);
      DoubledText(v * Pow(2, k - 1));
      assert v * Pow(2, k) == 2 * (v * Pow(2, k - 1));
      assert Zeros(k) == Zeros(k - 1) + ['0'];
    }
  }

  /** In binary _ui64toa prints the numeral of no value but zero. */
  lemma Ui64BinaryIsRightIff(value: nat)
    requires value < TWO64
    ensures Ui64Binary(value) == Text(value, 2) <==> value == 0
  {
    NoLeadingZero(value, 2);
    var low := value % TWO32;
    hide Text, Pow;
    if low > 0 {
      PowersOfTwo();
      ShiftedText(low, 32);
      TextOrder(low * TWO32, value, 2);
      NoLowBits(low);
    } else if value > 0 {
      EvenHasZeros(value);
    }
  }

  lemma NoLowBits(v: nat)
    ensures (v * TWO32) % TWO32 == 0
  {
  }

  lemma EvenHasZeros(v: nat)
    requires v > 0 && v % TWO32 == 0
    ensures Zeros(TrailingZeros(v)) != [] && Zeros(TrailingZeros(v))[0] == '0'
  {
  }
}
