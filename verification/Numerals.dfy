/** Positional numerals, most significant digit first, and what makes them readable and ordered. */
module Numerals {

  /** The bases the converters print in. */
  predicate IsRadix(base: nat) {
    base == 2 || base == 10 || base == 16
  }

  function DigitChar(d: nat): char
    requires d < 16
  {
    if d < 10 then '0' + d as char else 'A' + (d - 10) as char
  }

  function Quot(n: nat, base: nat): (q: nat)
    requires IsRadix(base)
    ensures n >= base ==> q < n
  {
    n / base
  }

  function Rem(n: nat, base: nat): (r: nat)
    requires IsRadix(base)
    ensures r < base
  {
    n % base
  }

  /** The numeral of n. */
  function Text(n: nat, base: nat): (t: seq<char>)
    requires IsRadix(base)
    ensures t != []
  {
    if n < base then [DigitChar(n)] else Text(Quot(n, base), base) + [DigitChar(Rem(n, base))]
  }

  function DigitValue(c: char): nat {
    if '0' <= c <= '9' then (c - '0') as nat else if 'A' <= c <= 'F' then (c - 'A') as nat + 10 else 0
  }

  /** Reading a numeral back. */
  function Parse(t: seq<char>, base: nat): nat {
    if t == [] then 0 else Parse(t[..|t| - 1], base) * base + DigitValue(t[|t| - 1])
  }

  /** Shorter first, then alphabetically. */
  predicate ShortLex(s: seq<char>, t: seq<char>) {
    |s| < |t| || (|s| == |t| && Lex(s, t))
  }

  predicate Lex(s: seq<char>, t: seq<char>)
    requires |s| == |t|
  {
    exists k :: 0 <= k < |s| && FirstDifference(s, t, k)
  }

  /** The first k characters agree and the next is smaller in s. */
  predicate FirstDifference(s: seq<char>, t: seq<char>, k: nat)
    requires k < |s| == |t|
  {
    s[..k] == t[..k] && s[k] < t[k]
  }

  lemma DigitRoundTrip(d: nat)
    requires d < 16
    ensures DigitValue(DigitChar(d)) == d
  {
  }

  lemma QuotRem(n: nat, base: nat)
    requires IsRadix(base)
    ensures n == Quot(n, base) * base + Rem(n, base)
    ensures n >= base ==> Quot(n, base) > 0
  {
  }

  lemma QuotOrder(a: nat, b: nat, base: nat)
    requires IsRadix(base) && a < b
    ensures Quot(a, base) < Quot(b, base) || (Quot(a, base) == Quot(b, base) && Rem(a, base) < Rem(b, base))
  {
  }

  /** Numerals digit by digit. */
  lemma TextStep(n: nat, base: nat)
    requires IsRadix(base)
    ensures n < base ==> Text(n, base) == [DigitChar(n)]
    ensures n >= base ==> Text(n, base) == Text(Quot(n, base), base) + [DigitChar(Rem(n, base))]
  {
  }

  lemma ParseStep(t: seq<char>, c: char, base: nat)
    ensures Parse(t + [c], base) == Parse(t, base) * base + DigitValue(c)
  {
  }

  /** Parsing the numeral of n gives n. */
  lemma {:induction false} ParseText(n: nat, base: nat)
    requires IsRadix(base)
    ensures Parse(Text(n, base), base) == n
  {
    hide Text, Parse, Quot, Rem;
    TextStep(n, base);
    QuotRem(n, base);
    if n < base {
      DigitRoundTrip(n);
      ParseStep([], DigitChar(n), base);
      ParseEmpty(base);
      assert [] + [DigitChar(n)] == [DigitChar(n)];
    } else {
      ParseText(Quot(n, base), base);
      DigitRoundTrip(Rem(n, base));
      ParseStep(Text(Quot(n, base), base), DigitChar(Rem(n, base)), base);
    }
  }

  lemma ParseEmpty(base: nat)
    ensures Parse([], base) == 0
  {
  }

  /** A numeral starts with '0' only when it is "0". */
  lemma {:induction false} NoLeadingZero(n: nat, base: nat)
    requires IsRadix(base)
    ensures Text(n, base)[0] == '0' <==> n == 0
  {
    hide Text, Quot, Rem;
    TextStep(n, base);
    QuotRem(n, base);
    if n >= base {
      NoLeadingZero(Quot(n, base), base);
    }
  }

  lemma LexIsStrict(s: seq<char>, t: seq<char>)
    requires |s| == |t|
    ensures Lex(s, t) ==> s != t && !Lex(t, s)
  {
  }

  lemma LexStep(s: seq<char>, t: seq<char>, c: char, d: char)
    requires ShortLex(s, t) || (s == t && c < d)
    ensures ShortLex(s + [c], t + [d])
  {
    if |s| == |t| {
      var s', t' := s + [c], t + [d];
      if Lex(s, t) {
        var k :| 0 <= k < |s| && FirstDifference(s, t, k);
        assert s'[..k] == s[..k] && t'[..k] == t[..k];
        assert FirstDifference(s', t', k);
      } else {
        assert s'[..|s|] == s && t'[..|t|] == t;
        assert FirstDifference(s', t', |s|);
      }
    }
  }

  lemma ShorterFirst(s: seq<char>, t: seq<char>)
    requires |s| < |t|
    ensures ShortLex(s, t)
  {
  }

  lemma DigitOrder(d: nat, e: nat)
    requires d < e < 16
    ensures DigitChar(d) < DigitChar(e)
  {
  }

  /** Greater numbers have longer numerals, or equally long ones later in the alphabetical order. */
  lemma {:induction false} TextIsMonotone(a: nat, b: nat, base: nat)
    requires IsRadix(base) && a < b
    ensures ShortLex(Text(a, base), Text(b, base))
  {
    hide Text, Lex, ShortLex, DigitChar, Quot, Rem;
    TextStep(a, base);
    TextStep(b, base);
    QuotOrder(a, b, base);
    if b < base {
      DigitOrder(a, b);
      LexStep([], [], DigitChar(a), DigitChar(b));
      assert [] + [DigitChar(a)] == [DigitChar(a)] && [] + [DigitChar(b)] == [DigitChar(b)];
    } else if a < base {
      ShorterFirst(Text(a, base), Text(b, base));
    } else {
      if Quot(a, base) < Quot(b, base) {
        TextIsMonotone(Quot(a, base), Quot(b, base), base);
      } else {
        DigitOrder(Rem(a, base), Rem(b, base));
      }
      LexStep(Text(Quot(a, base), base), Text(Quot(b, base), base), DigitChar(Rem(a, base)), DigitChar(Rem(b, base)));
    }
  }

  /** Numerals are ordered as their numbers are; in particular no two numbers share one. */
  lemma TextOrder(a: nat, b: nat, base: nat)
    requires IsRadix(base)
    ensures a < b <==> ShortLex(Text(a, base), Text(b, base))
    ensures a == b <==> Text(a, base) == Text(b, base)
  {
    if a < b {
      TextIsMonotone(a, b, base);
      if |Text(a, base)| == |Text(b, base)| {
        LexIsStrict(Text(a, base), Text(b, base));
      }
    } else if b < a {
      TextIsMonotone(b, a, base);
      if |Text(a, base)| == |Text(b, base)| {
        LexIsStrict(Text(b, base), Text(a, base));
      }
    } else if |Text(a, base)| > 0 {
      LexIsStrict(Text(a, base), Text(b, base));
    }
  }
}
