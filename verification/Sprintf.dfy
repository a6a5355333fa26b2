/** vsprintf_s: one pass over the format, writing into the caller's buffer until the room is used up. */
module Sprintf {
  import opened Numerals
  import opened IntFormat
  import opened FormatSpec

  /** b shows the cells, with passed-over cells as in b0, and agrees with b0 beyond the cell after them. */
  ghost predicate Shows(b: seq<char>, b0: seq<char>, cells: seq<Cell>) {
    && |cells| < |b| == |b0|
    && (forall i :: 0 <= i < |cells| ==> b[i] == if cells[i].Put? then cells[i].c else b0[i])
    && (forall i :: |cells| < i < |b| ==> b[i] == b0[i])
  }

  /** What is still to be taken when the pieces ps are left and there is room for so many cells. */
  ghost predicate Left(all: seq<Cell>, done: seq<Cell>, ps: seq<seq<Cell>>, room: nat) {
    all == done + Taken(ps, room)
  }

  lemma TakeOne(all: seq<Cell>, done: seq<Cell>, p: seq<Cell>, ps: seq<seq<Cell>>, room: nat)
    requires Left(all, done, [p] + ps, room) && room > 0
    ensures Left(all, done + p, ps, Less(room, |p|))
    ensures |done + p| <= |all|
  {
  }

  /** The sprintf_cpbuffer loop over a string: stop where the room ends. */
  method CopyString(s: seq<char>, buffer: array<char>, at: nat, size: nat, ghost b0: seq<char>,
                    ghost all: seq<Cell>, ghost done: seq<Cell>, ghost ps: seq<seq<Cell>>)
    returns (end: nat, room: nat, ghost done': seq<Cell>)
    requires at == |done| && size > 0 && |all| < buffer.Length
    requires Left(all, done, Singles(s) + ps, size) && Shows(buffer[..], b0, done)
    modifies buffer
    ensures end == |done'| < buffer.Length && Shows(buffer[..], b0, done')
    ensures if room == 0 then done' == all else Left(all, done', ps, room)
  {
    hide Taken, Singles;
    end, room, done' := at, size, done;
    var i := 0;
    while i < |s|
      invariant i <= |s| && room > 0 && end == |done'| < buffer.Length
      invariant Shows(buffer[..], b0, done')
      invariant Left(all, done', Singles(s[i..]) + ps, room)
    {
      assert Singles(s[i..]) + ps == [[Put(s[i])]] + (Singles(s[i + 1..]) + ps);
      TakeOne(all, done', [Put(s[i])], Singles(s[i + 1..]) + ps, room);
      done' := done' + [Put(s[i])];
      buffer[end] := s[i];
      end := end + 1;
      room := room - 1;
      i := i + 1;
      if room == 0 {
        TakenNothing(Singles(s[i..]) + ps);
        return;
      }
    }
    assert Singles(s[i..]) + ps == ps;
  }

  /** A numeric conversion, written whole whatever the room. */
  method PutNumber(op: char, a: Arg, buffer: array<char>, at: nat, ghost b0: seq<char>, ghost done: seq<Cell>)
    returns (end: nat)
    requires op in {'d', 'u', 'x', 'X'} && Suits(Conversion(op), a) && at == |done|
    requires Shows(buffer[..], b0, done) && at + |PiecesOf(Conversion(op), a)[0]| < buffer.Length
    modifies buffer
    ensures end == at + |PiecesOf(Conversion(op), a)[0]|
    ensures Shows(buffer[..], b0, done + PiecesOf(Conversion(op), a)[0])
  {
    hide Text;
    var e;
    if op == 'd' {
      e := Itoa(a.i, buffer, at, 10);
    } else if op == 'u' {
      e := Ui64toa(a.n, buffer, at, 10);
    } else {
      e := Ui64toa(a.n, buffer, at, 0x10);
    }
    end := e.i;
  }

  /** One conversion, of whatever kind. No room is left when it must return at once. */
  method Convert(op: char, a: Arg, buffer: array<char>, at: nat, size: nat, ghost b0: seq<char>,
                 ghost all: seq<Cell>, ghost done: seq<Cell>, ghost ps: seq<seq<Cell>>)
    returns (end: nat, room: nat, ghost done': seq<Cell>)
    requires op in CONVERSIONS && Suits(Conversion(op), a)
    requires at == |done| && size > 0 && |all| < buffer.Length
    requires Left(all, done, PiecesOf(Conversion(op), a) + ps, size) && Shows(buffer[..], b0, done)
    modifies buffer
    ensures end == |done'| < buffer.Length && Shows(buffer[..], b0, done')
    ensures if room == 0 then done' == all else Left(all, done', ps, room)
  {
    hide Taken, Text, Singles, Puts, IntCells;
    if op == 'c' {
      TakeOne(all, done, [Put(a.c)], ps, size);
      buffer[at] := a.c;
      end, room, done' := at + 1, size - 1, done + [Put(a.c)];
      TakenNothing(ps);
    } else if op == 's' || op == 'a' {
      end, room, done' := CopyString(a.s, buffer, at, size, b0, all, done, ps);
    } else {
      ghost var piece := PiecesOf(Conversion(op), a)[0];
      TakeOne(all, done, piece, ps, size);
      end := PutNumber(op, a, buffer, at, b0, done);
      done' := done + piece;
      room := if end - at >= size then 0 else size - (end - at);
      TakenNothing(ps);
    }
  }

  /** Skip flags and widths up to the operation letter. */
  method SkipSelector(format: seq<char>, selector: nat) returns (selSize: nat)
    requires selector <= |format|
    ensures selSize == SelectorSize(format[selector..])
  {
    selSize := 0;
    while selector + selSize < |format| && !IsLetter(format[selector + selSize])
      invariant selector + selSize <= |format|
      invariant SelectorSize(format[selector..]) == selSize + SelectorSize(format[selector + selSize..])
    {
      assert format[selector + selSize..][1..] == format[selector + selSize + 1..];
      selSize := selSize + 1;
    }
  }

  /** Between directives: what is done and what the rest of the format will give make up the whole output. */
  ghost predicate Midway(f: seq<char>, args: seq<Arg>, room: nat, all: seq<Cell>, done: seq<Cell>) {
    Ready(f, args) && if room == 0 then done == all else Left(all, done, Rest(f, args), room)
  }

  /** A '%' and what follows it. An unknown operation leaves everything as it is: the '%' is to be copied. */
  method Percent(format: seq<char>, args: seq<Arg>, fi: nat, ai: nat, buffer: array<char>, at: nat, size: nat,
                 ghost b0: seq<char>, ghost all: seq<Cell>, ghost done: seq<Cell>)
    returns (literal: bool, fi': nat, ai': nat, end: nat, room: nat, ghost done': seq<Cell>)
    requires fi < |format| && format[fi] == '%' && ai <= |args|
    requires at == |done| && size > 0 && |all| < buffer.Length && Shows(buffer[..], b0, done)
    requires Midway(format[fi..], args[ai..], size, all, done)
    modifies buffer
    ensures literal ==>
      && (fi', ai', end, room, done') == (fi, ai, at, size, done) && buffer[..] == old(buffer[..])
      && var op := CharAt(format[fi..], 1 + SelectorSize(format[fi..][1..])); op !in CONVERSIONS && op != 'l'
    ensures !literal ==> fi < fi' <= |format| && ai' <= |args| && Midway(format[fi'..], args[ai'..], room, all, done')
    ensures end == |done'| < buffer.Length && Shows(buffer[..], b0, done')
  {
    hide Taken, Ready, Pieces, PiecesOf, Directives, SelectorSize, Singles, Narrow, Suits, Shows;
    ghost var f := format[fi..];
    ghost var rest := args[ai..];
    literal, fi', ai', end, room, done' := false, fi, ai, at, size, done;
    var selSize := SkipSelector(format, fi + 1);
    assert f[1..] == format[fi + 1..];
    var operation := CharAt(format, fi + 1 + selSize);
    assert operation == CharAt(f, 1 + selSize);
    if operation in CONVERSIONS {
      ConversionStep(f, rest, selSize);
      fi' := fi + selSize + 2;
      ai' := ai + 1;
      assert f[2 + selSize..] == format[fi'..] && rest[1..] == args[ai'..];
      ghost var later := Rest(format[fi'..], args[ai'..]);
      end, room, done' := Convert(operation, args[ai], buffer, at, size, b0, all, done, later);
    } else if operation == 'l' {
      LongStep(f, rest, selSize);
      fi' := fi + selSize + 3;
      assert f[3 + selSize..] == format[fi'..];
      if format[fi + selSize + 2] == 's' {
        ai' := ai + 1;
        assert rest[1..] == args[ai'..];
        end, room, done' := CopyWide(args[ai].w, buffer, at, size, b0, all, done, Rest(format[fi'..], args[ai'..]));
      }
    } else {
      literal := true;
    }
  }

  /** A wide string, narrowed character by character. */
  method CopyWide(w: seq<nat>, buffer: array<char>, at: nat, size: nat, ghost b0: seq<char>,
                  ghost all: seq<Cell>, ghost done: seq<Cell>, ghost ps: seq<seq<Cell>>)
    returns (end: nat, room: nat, ghost done': seq<Cell>)
    requires at == |done| && size > 0 && |all| < buffer.Length
    requires Suits(Long('s'), WideArg(w)) && Shows(buffer[..], b0, done)
    requires Left(all, done, PiecesOf(Long('s'), WideArg(w)) + ps, size)
    modifies buffer
    ensures end == |done'| < buffer.Length && Shows(buffer[..], b0, done')
    ensures if room == 0 then done' == all else Left(all, done', ps, room)
  {
    hide Shows, Left, Singles;
    end, room, done' := CopyString(Narrow(w), buffer, at, size, b0, all, done, ps);
  }

  /** An ordinary character, or a '%' that begins no known directive. */
  method CopyLiteral(format: seq<char>, args: seq<Arg>, fi: nat, ai: nat, buffer: array<char>, at: nat, size: nat,
                     ghost b0: seq<char>, ghost all: seq<Cell>, ghost done: seq<Cell>)
    returns (ghost done': seq<Cell>)
    requires fi < |format| && ai <= |args|
    requires at == |done| && size > 0 && |all| < buffer.Length && Shows(buffer[..], b0, done)
    requires Midway(format[fi..], args[ai..], size, all, done)
    requires format[fi] == '%' ==>
      var op := CharAt(format[fi..], 1 + SelectorSize(format[fi..][1..])); op !in CONVERSIONS && op != 'l'
    modifies buffer
    ensures |done'| == at + 1 < buffer.Length && Shows(buffer[..], b0, done')
    ensures Midway(format[fi + 1..], args[ai..], size - 1, all, done')
  {
    hide Taken, Ready, Pieces, Directives, SelectorSize;
    ghost var f := format[fi..];
    ghost var rest := args[ai..];
    LiteralStep(f, rest);
    assert f[1..] == format[fi + 1..];
    TakeOne(all, done, [Put(format[fi])], Rest(f[1..], rest), size);
    TakenNothing(Rest(f[1..], rest));
    done' := done + [Put(format[fi])];
    buffer[at] := format[fi];
  }

  /** The NUL goes into the cell after the last one shown. */
  method Terminate(buffer: array<char>, at: nat, ghost b0: seq<char>, ghost all: seq<Cell>)
    requires at == |all| < buffer.Length && Shows(buffer[..], b0, all)
    modifies buffer
    ensures Shows(buffer[..], b0, all) && buffer[at] == '\0'
  {
    buffer[at] := '\0';
  }

  /** vsprintf_s. */
  method Vsprintf(buffer: array<char>, sizeOfBuffer: nat, format: seq<char>, args: seq<Arg>) returns (r: int)
    requires '\0' !in format && Ready(format, args)
    requires sizeOfBuffer > 0 ==> |Taken(Rendered(format, args), sizeOfBuffer - 1)| < buffer.Length
    modifies buffer
    ensures sizeOfBuffer == 0 ==> r == -1 && buffer[..] == old(buffer[..])
    ensures sizeOfBuffer > 0 ==>
      var all := Taken(Rendered(format, args), sizeOfBuffer - 1);
      r == 0 && Shows(buffer[..], old(buffer[..]), all) && buffer[|all|] == '\0'
  {
    if sizeOfBuffer == 0 {
      return -1;
    }
    ghost var b0 := buffer[..];
    ghost var all := Taken(Rendered(format, args), sizeOfBuffer - 1);
    ghost var done: seq<Cell> := [];
    var room: nat, at: nat, fi: nat, ai: nat := sizeOfBuffer - 1, 0, 0, 0;
    AtTheStart(format, args, room, b0);
    hide Taken, Ready, Pieces, Directives, SelectorSize, Midway, Shows, Rendered;
    while fi < |format| && room > 0
      invariant fi <= |format| && ai <= |args| && at == |done| < buffer.Length
      invariant Shows(buffer[..], b0, done) && Midway(format[fi..], args[ai..], room, all, done)
      decreases |format| - fi
    {
      var literal := true;
      if format[fi] == '%' {
        literal, fi, ai, at, room, done := Percent(format, args, fi, ai, buffer, at, room, b0, all, done);
      }
      if literal {
        done := CopyLiteral(format, args, fi, ai, buffer, at, room, b0, all, done);
        at := at + 1;
        room := room - 1;
        fi := fi + 1;
      }
    }
    assert fi == |format| ==> format[fi..] == [];
    AtTheEnd(format[fi..], args[ai..], room, all, done);
    Terminate(buffer, at, b0, all);
    return 0;
  }

  lemma AtTheStart(format: seq<char>, args: seq<Arg>, room: nat, b0: seq<char>)
    requires Ready(format, args) && |b0| > 0
    ensures Midway(format[0..], args[0..], room, Taken(Rendered(format, args), room), []) && Shows(b0, b0, [])
  {
  }

  lemma AtTheEnd(f: seq<char>, args: seq<Arg>, room: nat, all: seq<Cell>, done: seq<Cell>)
    requires Midway(f, args, room, all, done) && (room == 0 || f == [])
    ensures done == all
  {
  }
}
