/** What a format and its arguments say, without a buffer: directives, pieces of output, and the cut a size makes. */
module FormatSpec {
  import opened Numerals
  import opened IntFormat
  import opened Words

  /** The variadic arguments. Strings hold no NUL; wide strings hold non-zero 16-bit units. */
  datatype Arg =
    | CharArg(c: char)
    | StrArg(s: seq<char>)
    | IntArg(i: int)
    | U64Arg(n: nat)
    | WideArg(w: seq<nat>)

  datatype Directive =
    | Literal(c: char)
    | Conversion(op: char)
    | Long(op2: char)

  predicate IsLetter(c: char) {
    'a' <= c <= 'z' || 'A' <= c <= 'Z'
  }

  /** The character at index i of a NUL-terminated string. */
  function CharAt(f: seq<char>, i: nat): char {
    if i < |f| then f[i] else '\0'
  }

  /** How many non-letters stand at the front of f: flags and widths, which are skipped. */
  function SelectorSize(f: seq<char>): (n: nat)
    ensures n <= |f|
  {
    if f == [] || IsLetter(f[0]) then 0 else 1 + SelectorSize(f[1..])
  }

  const CONVERSIONS: set<char> := {'c', 's', 'a', 'd', 'u', 'x', 'X'}

  /** The directives of a format. An unknown one is a literal '%' and is read on from there. */
  function Directives(f: seq<char>): seq<Directive>
    decreases |f|
  {
    if f == [] then []
    else if f[0] != '%' then [Literal(f[0])] + Directives(f[1..])
    else
      var n := SelectorSize(f[1..]);
      var op := CharAt(f, 1 + n);
      if op in CONVERSIONS && 2 + n <= |f| then [Conversion(op)] + Directives(f[2 + n..])
      else if op == 'l' && 3 + n <= |f| then [Long(f[2 + n])] + Directives(f[3 + n..])
      else [Literal('%')] + Directives(f[1..])
  }

  /** Every 'l' of the format is followed by another character. */
  predicate NoDanglingLong(f: seq<char>)
    decreases |f|
  {
    if f == [] then true
    else if f[0] != '%' then NoDanglingLong(f[1..])
    else
      var n := SelectorSize(f[1..]);
      var op := CharAt(f, 1 + n);
      if op in CONVERSIONS && 2 + n <= |f| then NoDanglingLong(f[2 + n..])
      else if op == 'l' then 3 + n <= |f| && NoDanglingLong(f[3 + n..])
      else NoDanglingLong(f[1..])
  }

  /** A directive that takes an argument is given one of its kind. */
  predicate Suits(d: Directive, a: Arg) {
    match d
    case Literal(_) => false
    case Conversion(op) =>
      (match a
       case CharArg(_) => op == 'c'
       case StrArg(s) => (op == 's' || op == 'a') && '\0' !in s
       case IntArg(i) => op == 'd' && -0x8000_0000 <= i < 0x8000_0000
       case U64Arg(n) => (op == 'u' || op == 'x' || op == 'X') && n < TWO64
       case WideArg(_) => false)
    case Long(op2) => op2 == 's' && a.WideArg? && forall u :: u in a.w ==> 0 < u < 0x1_0000
  }

  predicate TakesArg(d: Directive) {
    d.Conversion? || d == Long('s')
  }

  predicate Typed(ds: seq<Directive>, args: seq<Arg>) {
    if ds == [] then true
    else if TakesArg(ds[0]) then args != [] && Suits(ds[0], args[0]) && Typed(ds[1..], args[1..])
    else Typed(ds[1..], args)
  }

  /** A cell of output: a character, or a cell the converter passes over. */
  datatype Cell = Put(c: char) | Keep

  function Puts(s: seq<char>): (cells: seq<Cell>)
    ensures |cells| == |s| && forall i :: 0 <= i < |s| ==> cells[i] == Put(s[i])
  {
    seq(|s|, i requires 0 <= i < |s| => Put(s[i]))
  }

  /** One piece for each character. */
  function Singles(s: seq<char>): (ps: seq<seq<Cell>>)
    ensures |ps| == |s| && forall i :: 0 <= i < |s| ==> ps[i] == [Put(s[i])]
  {
    seq(|s|, i requires 0 <= i < |s| => [Put(s[i])])
  }

  function Narrow(w: seq<nat>): (s: seq<char>)
    ensures |s| == |w| && forall i :: 0 <= i < |w| ==> s[i] == (w[i] % 256) as char
  {
    seq(|w|, i requires 0 <= i < |w| => (w[i] % 256) as char)
  }

  /** The decimal of an int; a negative one passes over the cells between its sign and its last. */
  function IntCells(i: int): seq<Cell> {
    if i >= 0 then Puts(Text(i, 10))
    else [Put('-')] + seq(|Text(-i, 10)| - 1, _ => Keep) + [Put(LastChar(i))]
  }

  /** The pieces a directive prints: single characters may be cut anywhere, a number is written whole. */
  function PiecesOf(d: Directive, a: Arg): seq<seq<Cell>>
    requires TakesArg(d) && Suits(d, a)
  {
    match a
    case CharArg(c) => [[Put(c)]]
    case StrArg(s) => Singles(s)
    case IntArg(i) => [IntCells(i)]
    case U64Arg(n) => [Puts(Text(n, if d.op == 'u' then 10 else 16))]
    case WideArg(w) => Singles(Narrow(w))
  }

  /** The reference rendering. */
  function Pieces(ds: seq<Directive>, args: seq<Arg>): seq<seq<Cell>>
    requires Typed(ds, args)
  {
    if ds == [] then []
    else if TakesArg(ds[0]) then PiecesOf(ds[0], args[0]) + Pieces(ds[1..], args[1..])
    else (if ds[0].Literal? then [[Put(ds[0].c)]] else []) + Pieces(ds[1..], args)
  }

  function Flat(ps: seq<seq<Cell>>): seq<Cell> {
    if ps == [] then [] else ps[0] + Flat(ps[1..])
  }

  /** The room left after n cells. */
  function Less(room: nat, n: nat): nat {
    if n < room then room - n else 0
  }

  /** What is printed of the pieces when there is room for that many cells: pieces are begun while room is left. */
  function Taken(ps: seq<seq<Cell>>, room: nat): seq<Cell> {
    if ps == [] || room == 0 then []
    else ps[0] + Taken(ps[1..], Less(room, |ps[0]|))
  }

  function Rendered(format: seq<char>, args: seq<Arg>): seq<seq<Cell>>
    requires Typed(Directives(format), args)
  {
    Pieces(Directives(format), args)
  }

  // ---- One directive at a time ---------------------------------------------------------------

  ghost predicate Ready(f: seq<char>, args: seq<Arg>) {
    NoDanglingLong(f) && Typed(Directives(f), args)
  }

  ghost function Rest(f: seq<char>, args: seq<Arg>): seq<seq<Cell>>
    requires Ready(f, args)
  {
    Pieces(Directives(f), args)
  }

  lemma LiteralStep(f: seq<char>, args: seq<Arg>)
    requires f != [] && Ready(f, args)
    requires f[0] == '%' ==> var op := CharAt(f, 1 + SelectorSize(f[1..])); op !in CONVERSIONS && op != 'l'
    ensures Ready(f[1..], args) && Rest(f, args) == [[Put(f[0])]] + Rest(f[1..], args)
  {
  }

  lemma ConversionStep(f: seq<char>, args: seq<Arg>, n: nat)
    requires f != [] && f[0] == '%' && n == SelectorSize(f[1..]) && CharAt(f, 1 + n) in CONVERSIONS
    requires Ready(f, args)
    ensures args != [] && 2 + n <= |f| && Suits(Conversion(f[1 + n]), args[0])
    ensures Ready(f[2 + n..], args[1..])
    ensures Rest(f, args) == PiecesOf(Conversion(f[1 + n]), args[0]) + Rest(f[2 + n..], args[1..])
  {
  }

  lemma LongStep(f: seq<char>, args: seq<Arg>, n: nat)
    requires f != [] && f[0] == '%' && n == SelectorSize(f[1..]) && CharAt(f, 1 + n) == 'l'
    requires Ready(f, args)
    ensures 3 + n <= |f|
    ensures f[2 + n] == 's' ==>
              && args != [] && Suits(Long('s'), args[0]) && Ready(f[3 + n..], args[1..])
              && Rest(f, args) == PiecesOf(Long('s'), args[0]) + Rest(f[3 + n..], args[1..])
    ensures f[2 + n] != 's' ==> Ready(f[3 + n..], args) && Rest(f, args) == Rest(f[3 + n..], args)
  {
  }

  // ---- The cut -------------------------------------------------------------------------------

  /** Nothing is printed that the reference rendering does not begin with. */
  lemma {:induction false} TakenIsPrefix(ps: seq<seq<Cell>>, room: nat)
    ensures Taken(ps, room) <= Flat(ps)
    ensures |Flat(ps)| <= room ==> Taken(ps, room) == Flat(ps)
    ensures |Flat(ps)| > room ==> |Taken(ps, room)| >= room
  {
    if ps != [] {
      var rest := Less(room, |ps[0]|);
      TakenIsPrefix(ps[1..], rest);
      if room > 0 && |ps[0]| >= room {
        TakenNothing(ps[1..]);
        if |Flat(ps)| <= room {
          assert Flat(ps[1..]) == [];
        }
      } else if room == 0 && |Flat(ps)| <= 0 {
        assert Flat(ps) == [];
      }
    }
  }

  lemma TakenNothing(ps: seq<seq<Cell>>)
    ensures Taken(ps, 0) == []
  {
  }

  /** The room is exceeded by less than the longest piece, so not at all by single characters. */
  lemma {:induction false} TakenOvershoot(ps: seq<seq<Cell>>, room: nat, longest: nat)
    requires longest > 0 && forall p :: p in ps ==> |p| <= longest
    ensures |Taken(ps, room)| < room + longest
  {
    if ps != [] && room > 0 {
      var rest := Less(room, |ps[0]|);
      assert ps[0] in ps;
      TakenOvershoot(ps[1..], rest, longest);
      if rest == 0 {
        TakenNothing(ps[1..]);
      }
    }
  }

  /** Some number of pieces fill the room exactly. */
  ghost predicate CutFalls(ps: seq<seq<Cell>>, room: nat) {
    exists k :: 0 <= k <= |ps| && |Flat(ps[..k])| == room
  }

  lemma FlatFront(p: seq<Cell>, ps: seq<seq<Cell>>, k: nat)
    requires k <= |ps|
    ensures |Flat(([p] + ps)[..k + 1])| == |p| + |Flat(ps[..k])|
  {
    assert ([p] + ps)[..k + 1] == [p] + ps[..k];
  }

  lemma CutFallsLater(p: seq<Cell>, ps: seq<seq<Cell>>, room: nat)
    requires |p| <= room && room > 0
    ensures CutFalls([p] + ps, room) <==> CutFalls(ps, room - |p|)
  {
    var all := [p] + ps;
    if CutFalls(all, room) {
      var k :| 0 <= k <= |all| && |Flat(all[..k])| == room;
      assert k > 0;
      FlatFront(p, ps, k - 1);
    }
    if CutFalls(ps, room - |p|) {
      var k :| 0 <= k <= |ps| && |Flat(ps[..k])| == room - |p|;
      FlatFront(p, ps, k);
      assert |Flat(all[..k + 1])| == room;
    }
  }

  lemma CutPassed(p: seq<Cell>, ps: seq<seq<Cell>>, room: nat)
    requires |p| > room > 0
    ensures !CutFalls([p] + ps, room)
  {
  }

  /** Room is kept exactly when everything fits or the cut falls between two pieces. */
  lemma {:induction false} TakenFitsIff(ps: seq<seq<Cell>>, room: nat)
    ensures |Taken(ps, room)| <= room <==> |Flat(ps)| <= room || CutFalls(ps, room)
  {
    if room == 0 {
      TakenNothing(ps);
      assert |Flat(ps[..0])| == 0;
    } else if ps != [] {
      assert ps == [ps[0]] + ps[1..];
      if |ps[0]| <= room {
        CutFallsLater(ps[0], ps[1..], room);
        TakenFitsIff(ps[1..], room - |ps[0]|);
      } else {
        CutPassed(ps[0], ps[1..], room);
      }
    }
  }
}
