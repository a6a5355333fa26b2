/** What the reference rendering prints, directive by directive, in the terms of the arguments. */
module FormatMeaning {
  import opened Numerals
  import opened IntFormat
  import opened FormatSpec
  import opened FormatTheorems
  import opened Sprintf
  import opened Words

  // ---- What the pieces show --------------------------------------------------------------------

  /** The characters of cells that are all characters. */
  function Shown(cells: seq<Cell>): (s: seq<char>)
    requires Solid(cells)
    ensures |s| == |cells| && forall i :: 0 <= i < |s| ==> s[i] == cells[i].c
  {
    seq(|cells|, i requires 0 <= i < |cells| => cells[i].c)
  }

  lemma ShownPuts(s: seq<char>)
    ensures Solid(Puts(s)) && Shown(Puts(s)) == s
  {
  }

  /** A buffer that shows such cells holds their characters. */
  lemma BufferHolds(b: seq<char>, b0: seq<char>, cells: seq<Cell>)
    requires Shows(b, b0, cells) && Solid(cells)
    ensures b[..|cells|] == Shown(cells)
  {
  }

  /** One piece, a numeral of n without leading zeros in the given base. */
  ghost predicate IsNumeral(ps: seq<seq<Cell>>, n: nat, base: nat) {
    && |ps| == 1 && Solid(ps[0])
    && var t := Shown(ps[0]);
       t != [] && Parse(t, base) == n && (t[0] == '0' ==> t == "0") && forall c :: c in t ==> IsDigit(c, base)
  }

  predicate IsDigit(c: char, base: nat) {
    c in if base == 10 then "0123456789" else "0123456789ABCDEF"
  }

  lemma {:induction false} TextHasDigits(n: nat, base: nat)
    requires base == 10 || base == 16
    ensures forall c :: c in Text(n, base) ==> IsDigit(c, base)
  {
    LastDigit(n, base);
    DigitByName(n % base);
    if n / base > 0 {
      TextHasDigits(n / base, base);
    }
    hide Text;
  }

  /** The digits by name. */
  lemma DigitByName(d: nat)
    requires d < 16
    ensures DigitChar(d) == "0123456789ABCDEF"[d]
    ensures d < 10 ==> "0123456789ABCDEF"[d] == "0123456789"[d]
  {
  }

  lemma PutsNumeral(n: nat, base: nat)
    requires base == 10 || base == 16
    ensures IsNumeral([Puts(Text(n, base))], n, base)
  {
    ShownPuts(Text(n, base));
    ParseText(n, base);
    NoLeadingZero(n, base);
    TextHasDigits(n, base);
    if n == 0 {
      LastDigit(0, base);
    }
    hide Text, Parse;
  }

  /** %u prints a 64-bit number in decimal, %x and %X in hexadecimal, %d an int that is not negative in decimal. */
  lemma NumbersAreNumerals(n: nat, i: int)
    requires n < TWO64 && 0 <= i < 0x8000_0000
    ensures IsNumeral(PiecesOf(Conversion('u'), U64Arg(n)), n, 10)
    ensures IsNumeral(PiecesOf(Conversion('x'), U64Arg(n)), n, 16)
    ensures IsNumeral(PiecesOf(Conversion('X'), U64Arg(n)), n, 16)
    ensures IsNumeral(PiecesOf(Conversion('d'), IntArg(i)), i, 10)
  {
    PutsNumeral(n, 10);
    PutsNumeral(n, 16);
    PutsNumeral(i, 10);
  }

  /**
   * %d of a negative int is one piece of as many cells as its numeral has characters: the sign, cells passed over,
   * and a last character as far below '0' as the last digit of the numeral is above it.
   */
  lemma NegativeNumbers(i: int)
    requires -0x8000_0000 <= i < 0
    ensures var ps := PiecesOf(Conversion('d'), IntArg(i));
            && |ps| == 1 && |ps[0]| == 1 + |Text(-i, 10)|
            && ps[0][0] == Put('-') && ps[0][|ps[0]| - 1] == Put(('0' as int - (-i) % 10) as char)
            && forall k :: 0 < k < |ps[0]| - 1 ==> ps[0][k] == Keep
  {
  }

  /** %c, %s and %a print exactly their argument, %ls the low bytes of its units. */
  lemma TextsAreCopied(c: char, s: seq<char>, w: seq<nat>)
    requires '\0' !in s && forall u :: u in w ==> 0 < u < 0x1_0000
    ensures Flat(PiecesOf(Conversion('c'), CharArg(c))) == [Put(c)]
    ensures Flat(PiecesOf(Conversion('s'), StrArg(s))) == Puts(s)
    ensures Flat(PiecesOf(Conversion('a'), StrArg(s))) == Puts(s)
    ensures var ps := Flat(PiecesOf(Long('s'), WideArg(w)));
            |ps| == |w| && forall k :: 0 <= k < |w| ==> ps[k] == Put((w[k] % 256) as char)
  {
    assert Flat([[Put(c)]]) == [Put(c)];
    FlatSingles(s);
    FlatSingles(Narrow(w));
  }

  // ---- What a format says ----------------------------------------------------------------------

  predicate NoLetters(flags: seq<char>) {
    forall c :: c in flags ==> !IsLetter(c)
  }

  lemma {:induction false} SelectorIsFlags(flags: seq<char>, rest: seq<char>)
    requires NoLetters(flags) && (rest == [] || IsLetter(rest[0]))
    ensures SelectorSize(flags + rest) == |flags|
  {
    if flags != [] {
      assert (flags + rest)[1..] == flags[1..] + rest;
      SelectorIsFlags(flags[1..], rest);
    } else {
      assert flags + rest == rest;
    }
  }

  /** The characters at which a directive is read. */
  lemma AfterPercent(flags: seq<char>, rest: seq<char>)
    requires NoLetters(flags) && (rest == [] || IsLetter(rest[0]))
    ensures var f := ['%'] + flags + rest;
            && f[1..] == flags + rest && SelectorSize(f[1..]) == |flags|
            && f[1 + |flags|..] == rest && CharAt(f, 1 + |flags|) == CharAt(rest, 0)
            && (rest != [] ==> f[2 + |flags|..] == rest[1..])
            && (|rest| > 1 ==> f[2 + |flags|] == rest[1] && f[3 + |flags|..] == rest[2..])
  {
    SelectorIsFlags(flags, rest);
    assert (['%'] + flags + rest)[1..] == flags + rest;
  }

  /** A '%', flags and widths, and one of the seven letters are one conversion, whatever follows. */
  lemma ConversionIsRead(flags: seq<char>, op: char, rest: seq<char>)
    requires NoLetters(flags) && op in "csaduxX"
    ensures Directives(['%'] + flags + [op] + rest) == [Conversion(op)] + Directives(rest)
    ensures NoDanglingLong(['%'] + flags + [op] + rest) <==> NoDanglingLong(rest)
  {
    AfterPercent(flags, [op] + rest);
    assert ['%'] + flags + [op] + rest == ['%'] + flags + ([op] + rest);
  }

  /** After an 'l' one more character belongs to the directive. */
  lemma LongIsRead(flags: seq<char>, op2: char, rest: seq<char>)
    requires NoLetters(flags)
    ensures Directives(['%'] + flags + ['l', op2] + rest) == [Long(op2)] + Directives(rest)
    ensures NoDanglingLong(['%'] + flags + ['l', op2] + rest) <==> NoDanglingLong(rest)
  {
    AfterPercent(flags, ['l', op2] + rest);
    assert ['%'] + flags + ['l', op2] + rest == ['%'] + flags + (['l', op2] + rest);
  }

  /** Any other letter, or none, makes the '%' an ordinary character, and reading goes on behind it. */
  lemma UnknownIsCopied(flags: seq<char>, rest: seq<char>)
    requires NoLetters(flags) && (rest == [] || (IsLetter(rest[0]) && rest[0] !in "csaduxXl"))
    ensures Directives(['%'] + flags + rest) == [Literal('%')] + Directives(flags + rest)
    ensures NoDanglingLong(['%'] + flags + rest) <==> NoDanglingLong(flags + rest)
  {
    AfterPercent(flags, rest);
  }

  /** Any character but '%' stands for itself. */
  lemma LiteralIsRead(c: char, rest: seq<char>)
    requires c != '%'
    ensures Directives([c] + rest) == [Literal(c)] + Directives(rest)
    ensures NoDanglingLong([c] + rest) <==> NoDanglingLong(rest)
  {
  }

  /** A format without '%' takes no argument and renders as itself. */
  lemma {:induction false} PlainFormat(f: seq<char>, args: seq<Arg>)
    requires '%' !in f
    ensures Ready(f, args) && Flat(Rendered(f, args)) == Puts(f)
  {
    if f != [] {
      PlainFormat(f[1..], args);
      LiteralStep(f, args);
      assert Puts(f) == [Put(f[0])] + Puts(f[1..]);
      assert ([[Put(f[0])]] + Rendered(f[1..], args))[1..] == Rendered(f[1..], args);
    }
  }

  /** Rendering a conversion is printing its argument and then rendering the rest. */
  lemma ConversionRenders(flags: seq<char>, op: char, rest: seq<char>, a: Arg, args: seq<Arg>)
    requires NoLetters(flags) && op in "csaduxX" && Suits(Conversion(op), a) && Ready(rest, args)
    ensures var f := ['%'] + flags + [op] + rest;
            && Ready(f, [a] + args)
            && Flat(Rendered(f, [a] + args)) == Flat(PiecesOf(Conversion(op), a)) + Flat(Rendered(rest, args))
  {
    ConversionIsRead(flags, op, rest);
    var ds := [Conversion(op)] + Directives(rest);
    assert ds[1..] == Directives(rest) && ([a] + args)[1..] == args;
    FlatConcat(PiecesOf(Conversion(op), a), Rendered(rest, args));
  }

  /** So it is with %ls. */
  lemma LongRenders(flags: seq<char>, rest: seq<char>, w: seq<nat>, args: seq<Arg>)
    requires NoLetters(flags) && Suits(Long('s'), WideArg(w)) && Ready(rest, args)
    ensures var f := ['%'] + flags + ['l', 's'] + rest;
            && Ready(f, [WideArg(w)] + args)
            && Flat(Rendered(f, [WideArg(w)] + args)) ==
                 Flat(PiecesOf(Long('s'), WideArg(w))) + Flat(Rendered(rest, args))
  {
    LongIsRead(flags, 's', rest);
    var ds := [Long('s')] + Directives(rest);
    assert ds[1..] == Directives(rest) && ([WideArg(w)] + args)[1..] == args;
    hide Directives, NoDanglingLong;
    FlatConcat(PiecesOf(Long('s'), WideArg(w)), Rendered(rest, args));
  }

  /** Any other long directive prints nothing and takes no argument. */
  lemma OtherLongRenders(flags: seq<char>, op2: char, rest: seq<char>, args: seq<Arg>)
    requires NoLetters(flags) && op2 != 's' && Ready(rest, args)
    ensures var f := ['%'] + flags + ['l', op2] + rest;
            Ready(f, args) && Rendered(f, args) == Rendered(rest, args)
  {
    LongIsRead(flags, op2, rest);
    var ds := [Long(op2)] + Directives(rest);
    assert ds[1..] == Directives(rest) && !TakesArg(ds[0]);
    hide Directives, NoDanglingLong;
    assert Typed(ds, args) && Pieces(ds, args) == [] + Pieces(ds[1..], args);
  }
}
