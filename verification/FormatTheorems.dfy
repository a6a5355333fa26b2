/** How the bounded output of vsprintf_s relates to the reference rendering. */
module FormatTheorems {
  import opened Numerals
  import opened IntFormat
  import opened Words
  import opened FormatSpec

  /**
   * The output is always a beginning of the reference rendering, all of it when that fits, and at least as
   * long as the room when it does not.
   */
  lemma OutputIsPrefixOfReference(format: seq<char>, args: seq<Arg>, sizeOfBuffer: nat)
    requires Ready(format, args) && sizeOfBuffer > 0
    ensures var ps := Rendered(format, args); var out := Taken(ps, sizeOfBuffer - 1);
            && out <= Flat(ps)
            && (|Flat(ps)| <= sizeOfBuffer - 1 ==> out == Flat(ps))
            && (|Flat(ps)| > sizeOfBuffer - 1 ==> |out| >= sizeOfBuffer - 1)
  {
    TakenIsPrefix(Rendered(format, args), sizeOfBuffer - 1);
  }

  // ---- How far the output can run over ---------------------------------------------------------

  lemma {:induction false} NumeralLength(v: nat, base: nat, k: nat)
    requires (base == 10 || base == 16) && k > 0 && v < Pow(base, k)
    ensures |Text(v, base)| <= k
  {
    LastDigit(v, base);
    hide Text;
    if v / base > 0 {
      PowStep(base, k);
      if k == 1 {
        PowZero(base);
      }
      NumeralLength(v / base, base, k - 1);
    }
  }

  lemma LongestNumerals(n: nat)
    ensures n < TWO64 ==> |Text(n, 10)| <= 20 && |Text(n, 16)| <= 16
    ensures n <= 0x8000_0000 ==> |Text(n, 10)| <= 10
  {
    assert Pow(10, 5) == 100000;
    assert Pow(10, 10) == 10000000000;
    assert Pow(10, 15) == 1000000000000000;
    assert Pow(10, 20) == 100000000000000000000;
    assert Pow(16, 8) == TWO32;
    assert Pow(16, 16) == TWO64;
    if n < TWO64 {
      NumeralLength(n, 10, 20);
      NumeralLength(n, 16, 16);
    }
    if n <= 0x8000_0000 {
      NumeralLength(n, 10, 10);
    }
  }

  predicate IsNumeric(d: Directive) {
    d.Conversion? && d.op in {'d', 'u', 'x', 'X'}
  }

  lemma PieceLengths(d: Directive, a: Arg, p: seq<Cell>)
    requires TakesArg(d) && Suits(d, a) && p in PiecesOf(d, a)
    ensures |p| <= 20 && (!IsNumeric(d) ==> |p| <= 1)
  {
    match a
    case IntArg(i) => LongestNumerals(Magnitude(i));
    case U64Arg(n) => LongestNumerals(n);
    case _ =>
  }

  lemma {:induction false} AllPieceLengths(ds: seq<Directive>, args: seq<Arg>, p: seq<Cell>)
    requires Typed(ds, args) && p in Pieces(ds, args)
    ensures |p| <= 20
    ensures (forall d :: d in ds ==> !IsNumeric(d)) ==> |p| <= 1
  {
    if ds != [] {
      assert ds[0] in ds;
      if TakesArg(ds[0]) {
        if p in PiecesOf(ds[0], args[0]) {
          PieceLengths(ds[0], args[0], p);
        } else {
          AllPieceLengths(ds[1..], args[1..], p);
        }
      } else if p in Pieces(ds[1..], args) {
        AllPieceLengths(ds[1..], args, p);
      }
    }
  }

  /**
   * With literals, characters and strings only, the output and its NUL stay inside sizeOfBuffer. A numeric
   * directive may run over, by nineteen characters at the most.
   */
  lemma OutputLength(format: seq<char>, args: seq<Arg>, sizeOfBuffer: nat)
    requires Ready(format, args) && sizeOfBuffer > 0
    ensures |Taken(Rendered(format, args), sizeOfBuffer - 1)| <= sizeOfBuffer + 18
    ensures (forall d :: d in Directives(format) ==> !IsNumeric(d)) ==>
              |Taken(Rendered(format, args), sizeOfBuffer - 1)| <= sizeOfBuffer - 1
  {
    var ps := Rendered(format, args);
    forall p | p in ps
      ensures |p| <= 20
    {
      AllPieceLengths(Directives(format), args, p);
    }
    TakenOvershoot(ps, sizeOfBuffer - 1, 20);
    if forall d :: d in Directives(format) ==> !IsNumeric(d) {
      forall p | p in ps
        ensures |p| <= 1
      {
        AllPieceLengths(Directives(format), args, p);
      }
      TakenOvershoot(ps, sizeOfBuffer - 1, 1);
    }
  }

  /**
   * The output and its NUL stay inside sizeOfBuffer exactly when the whole rendering does or the last cell of
   * room falls at the end of a piece, so that no number is begun with too little room for it.
   */
  lemma OutputStaysInsideIff(format: seq<char>, args: seq<Arg>, sizeOfBuffer: nat)
    requires Ready(format, args) && sizeOfBuffer > 0
    ensures var ps := Rendered(format, args); var room := sizeOfBuffer - 1;
            |Taken(ps, room)| <= room <==>
              |Flat(ps)| <= room || exists k :: 0 <= k <= |ps| && |Flat(ps[..k])| == room
  {
    TakenFitsIff(Rendered(format, args), sizeOfBuffer - 1);
  }

  /** The bound is met: the greatest 64-bit number runs over by nineteen characters when one cell of room is left. */
  lemma OvershootHappens()
    ensures Ready("%u", [U64Arg(TWO64 - 1)])
    ensures |Taken(Rendered("%u", [U64Arg(TWO64 - 1)]), 1)| == 20
  {
    var f, args := "%u", [U64Arg(TWO64 - 1)];
    assert f[1..] == "u" && f[2..] == [];
    assert SelectorSize("u") == 0;
    assert Directives([]) == [];
    assert Directives(f) == [Conversion('u')];
    assert args[1..] == [];
    GreatestNumeral();
    var ps := Rendered(f, args);
    assert Directives(f)[1..] == [] && Pieces([], []) == [];
    assert Pieces(Directives(f), args) == PiecesOf(Conversion('u'), args[0]) + Pieces([], []);
    assert ps == [Puts(Text(TWO64 - 1, 10))];
    assert ps[1..] == [];
  }

  lemma {:induction false} NumeralIsAtLeast(v: nat, k: nat)
    requires Pow(10, k) <= v
    ensures |Text(v, 10)| > k
  {
    LastDigit(v, 10);
    if k > 0 {
      PowStep(10, k);
      NumeralIsAtLeast(v / 10, k - 1);
    }
  }

  lemma GreatestNumeral()
    ensures |Text(TWO64 - 1, 10)| == 20
  {
    assert Pow(10, 5) == 100000;
    assert Pow(10, 10) == 10000000000;
    assert Pow(10, 15) == 1000000000000000;
    assert Pow(10, 19) == 10000000000000000000;
    NumeralIsAtLeast(TWO64 - 1, 19);
    LongestNumerals(TWO64 - 1);
  }

  // ---- Cells passed over -------------------------------------------------------------------------

  predicate Solid(cells: seq<Cell>) {
    forall i :: 0 <= i < |cells| ==> cells[i].Put?
  }

  /** No int of two or more digits is printed with a minus sign. */
  predicate NoLongNegatives(ds: seq<Directive>, args: seq<Arg>)
    requires Typed(ds, args)
  {
    if ds == [] then true
    else if TakesArg(ds[0]) then (args[0].IntArg? ==> args[0].i > -10) && NoLongNegatives(ds[1..], args[1..])
    else NoLongNegatives(ds[1..], args)
  }

  lemma {:induction false} FlatConcat(ps: seq<seq<Cell>>, qs: seq<seq<Cell>>)
    ensures Flat(ps + qs) == Flat(ps) + Flat(qs)
  {
    if ps == [] {
      assert ps + qs == qs;
    } else {
      FlatConcat(ps[1..], qs);
      assert (ps + qs)[1..] == ps[1..] + qs;
    }
  }

  lemma {:induction false} FlatSingles(s: seq<char>)
    ensures Flat(Singles(s)) == Puts(s)
  {
    if s != [] {
      FlatSingles(s[1..]);
      assert Singles(s)[1..] == Singles(s[1..]);
      assert Puts(s) == [Put(s[0])] + Puts(s[1..]);
    }
  }

  lemma SolidPieces(d: Directive, a: Arg)
    requires TakesArg(d) && Suits(d, a)
    ensures Solid(Flat(PiecesOf(d, a))) <==> (a.IntArg? ==> a.i > -10)
  {
    match a
    case CharArg(c) => assert Flat([[Put(c)]]) == [Put(c)];
    case StrArg(s) => FlatSingles(s);
    case WideArg(w) => FlatSingles(Narrow(w));
    case U64Arg(n) =>
      var p := Puts(Text(n, if d.op == 'u' then 10 else 16));
      assert Flat([p]) == p;
    case IntArg(i) =>
      var p := IntCells(i);
      assert Flat([p]) == p;
      if i < 0 {
        LastDigit(-i, 10);
        if i <= -10 {
          assert p[1] == Keep;
        }
      }
  }

  lemma SolidConcat(s: seq<Cell>, t: seq<Cell>)
    ensures Solid(s + t) <==> Solid(s) && Solid(t)
  {
    forall i | 0 <= i < |s|
      ensures (s + t)[i] == s[i]
    {
    }
    forall i | 0 <= i < |t|
      ensures (s + t)[|s| + i] == t[i]
    {
    }
  }

  /**
   * The reference rendering is a text that owes nothing to what the buffer held before exactly when no
   * decimal int of two or more digits is negative.
   */
  lemma {:induction false} RenderingIsText(ds: seq<Directive>, args: seq<Arg>)
    requires Typed(ds, args)
    ensures Solid(Flat(Pieces(ds, args))) <==> NoLongNegatives(ds, args)
  {
    if ds != [] {
      if TakesArg(ds[0]) {
        RenderingIsText(ds[1..], args[1..]);
        SolidPieces(ds[0], args[0]);
        FlatConcat(PiecesOf(ds[0], args[0]), Pieces(ds[1..], args[1..]));
        SolidConcat(Flat(PiecesOf(ds[0], args[0])), Flat(Pieces(ds[1..], args[1..])));
      } else {
        RenderingIsText(ds[1..], args);
        if ds[0].Literal? {
          var p := [[Put(ds[0].c)]];
          FlatConcat(p, Pieces(ds[1..], args));
          assert Flat(p) == [Put(ds[0].c)];
          SolidConcat(Flat(p), Flat(Pieces(ds[1..], args)));
        } else {
          assert Pieces(ds, args) == Pieces(ds[1..], args);
        }
      }
    }
  }
}
