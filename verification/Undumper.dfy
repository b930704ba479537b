/**
 The loader as the program runs it: a cursor that moves over the data, a list
 of the strings read, loops over counts taken from the chunk, and a panic at
 the first thing that does not fit.
*/
module Undumper {
  import opened Wrappers
  import opened InstrWord
  import opened CodeTranslation
  import opened ChunkFormat
  import opened ChunkReader

  datatype Outcome<T> = Done(v: T) | Panicked(msg: string)
  {
    predicate IsFailure() { Panicked? }

    function PropagateFailure<U>(): Outcome<U>
      requires Panicked?
    {
      Panicked(msg)
    }

    function Extract(): T
      requires Done?
    {
      v
    }
  }

  /** Once a part does not fit, the list fails with its error. */
  lemma {:induction false} StopsAll<T>(read: (seq<Byte>, Cur) -> Res<T>, data: seq<Byte>, c: Cur, i: nat, n: nat)
    requires i < n && ReadAll(read, data, c, i).Ok? && read(data, ReadAll(read, data, c, i).c).Err?
    ensures ReadAll(read, data, c, n) == Err(read(data, ReadAll(read, data, c, i).c).msg)
  {
    if i + 1 < n {
      StopsAll(read, data, c, i, n - 1);
    }
  }

  lemma {:induction false} NoneRead<T>(read: (seq<Byte>, Cur) -> Res<T>, data: seq<Byte>, c: Cur)
    ensures ReadAll(read, data, c, 0) == Ok([], c)
  {
  }

  /** One more part. */
  lemma AllStep<T>(read: (seq<Byte>, Cur) -> Res<T>, data: seq<Byte>, c: Cur, i: nat)
    requires ReadAll(read, data, c, i).Ok? && read(data, ReadAll(read, data, c, i).c).Ok?
    ensures var (a, b) := (ReadAll(read, data, c, i), read(data, ReadAll(read, data, c, i).c));
            ReadAll(read, data, c, i + 1) == Ok(a.v + [b.v], b.c)
  {
  }

  class UndumpState {
    const data: seq<Byte>
    var pos: nat
    var saved: seq<Str>

    constructor (data: seq<Byte>)
      ensures this.data == data && At() == Cur(0, [])
    {
      this.data, pos, saved := data, 0, [];
    }

    ghost function At(): Cur
      reads this
    {
      Cur(pos, saved)
    }

    /** The outcome and the new position are those of the specification. */
    ghost predicate Reads<T>(r: Outcome<T>, spec: Res<T>)
      reads this
    {
      match spec
      case Ok(v, c) => r == Done(v) && At() == c
      case Err(msg) => r == Panicked(msg)
    }

    method NextByte() returns (r: Outcome<Byte>)
      modifies this`pos
      ensures Reads(r, ReadByte(data, old(At())))
    {
      if pos >= |data| {
        return Panicked(TRUNCATED);
      }
      var b := data[pos];
      pos := pos + 1;
      r := Done(b);
    }

    method NextBytes(n: nat) returns (r: Outcome<seq<Byte>>)
      requires pos <= |data|
      modifies this`pos
      ensures Reads(r, ReadBytes(data, old(At()), n))
    {
      if n > |data| - pos {
        return Panicked(TRUNCATED);
      }
      var bs := data[pos..pos + n];
      pos := pos + n;
      r := Done(bs);
    }

    /** readUnsigned. */
    method NextUnsigned(limit: nat) returns (r: Outcome<nat>)
      modifies this`pos
      ensures Reads(r, ReadUnsigned(data, old(At()), limit))
    {
      var x: nat, lim := 0, limit / 128;
      while true
        invariant ReadGroups(data, At(), x, lim) == ReadUnsigned(data, old(At()), limit)
        decreases |data| - pos
      {
        var b :- NextByte();
        if x > lim {
          return Panicked(OVERFLOW);
        }
        x := x * 128 + b % 128;
        if b < 128 {
          return Done(x);
        }
      }
    }

    method NextInteger() returns (r: Outcome<int>)
      modifies this`pos
      ensures Reads(r, ReadInteger(data, old(At())))
    {
      hide ReadUnsigned;
      var cx :- NextUnsigned(MAX_UINT64);
      var half: int := cx / 2;
      r := Done(if cx % 2 != 0 then 0 - half - 1 else half);
    }

    method SkipAlign() returns (r: Outcome<seq<Byte>>)
      requires pos <= |data|
      modifies this`pos
      ensures Reads(r, ReadAlign(data, old(At())))
    {
      var padding := 4 - pos % 4;
      r := NextBytes(if padding < 4 then padding else 0);
    }

    method NextCount() returns (r: Outcome<nat>)
      modifies this`pos
      ensures Reads(r, ReadCount(data, old(At())))
    {
      hide ReadUnsigned;
      var n :- NextUnsigned(MAX_INT32);
      if n > |data| - pos {
        return Panicked(TRUNCATED);
      }
      r := Done(n);
    }

    method NextStringN() returns (r: Outcome<Option<Str>>)
      modifies this
      ensures Reads(r, ReadStringN(data, old(At())))
    {
      hide ReadUnsigned;
      var size :- NextUnsigned(MAX_INT64);
      if size == 0 {
        var idx :- NextUnsigned(MAX_INT64);
        if idx == 0 {
          return Done(None);
        }
        if idx > |saved| {
          return Panicked("invalid string index");
        }
        return Done(Some(saved[idx - 1]));
      }
      var raw :- NextBytes(size);
      var s := raw[..size - 1];
      saved := saved + [s];
      r := Done(Some(s));
    }

    method NextString() returns (r: Outcome<Str>)
      modifies this
      ensures Reads(r, ReadString(data, old(At())))
    {
      hide ReadStringN;
      var s :- NextStringN();
      r := Done(if s.Some? then s.value else []);
    }

    method NextWord() returns (r: Outcome<Word>)
      requires pos <= |data|
      modifies this`pos
      ensures Reads(r, ReadWord(data, old(At())))
    {
      var bs :- NextBytes(4);
      LittleEndianBound(bs);
      r := Done(FromLittleEndian(bs));
    }

    // -- parts -------------------------------------------------------------------------

    /** n raw words. */
    method LoadWords(n: nat) returns (r: Outcome<array<Word>>)
      requires pos <= |data|
      modifies this`pos
      ensures r.Done? ==> fresh(r.v)
      ensures match ReadAll(ReadWord, data, old(At()), n)
              case Ok(ws, c) => r.Done? && r.v[..] == ws && At() == c && pos <= |data|
              case Err(msg) => r == Panicked(msg)
    {
      hide ReadWord, ReadAll;
      NoneRead(ReadWord, data, At());
      ghost var c := At();
      var code := new Word[n](_ => 0);
      assert code[..0] == [];
      for i := 0 to n
        invariant c.pos <= pos <= |data| && saved == old(saved)
        invariant ReadAll(ReadWord, data, c, i) == Ok(code[..i], At())
      {
        ghost var before := code[..i];
        var w := NextWord();
        if w.Panicked? {
          StopsAll(ReadWord, data, c, i, n);
          return Panicked(w.msg);
        }
        AllStep(ReadWord, data, c, i);
        code[i] := w.v;
        assert code[..i + 1] == before + [w.v];
      }
      assert code[..n] == code[..];
      r := Done(code);
    }

    /** The instruction vector, translated in place. */
    method LoadCode() returns (r: Outcome<seq<Word>>)
      requires pos <= |data|
      modifies this`pos
      ensures Reads(r, ReadCode(data, old(At())))
    {
      hide ReadCount, ReadAlign, ReadAll, FromRef;
      var n :- NextCount();
      var _ :- SkipAlign();
      var code :- LoadWords(n);
      var ok := CodeFromRef(code);
      r := if ok then Done(code[..]) else Panicked(BAD_OPERAND);
    }

    method NextConst() returns (r: Outcome<Constant>)
      modifies this
      ensures Reads(r, ReadConst(data, old(At())))
    {
      hide ReadUnsigned, ReadStringN, ReadInteger;
      var t :- NextByte();
      match t
      case 0x00 => r := Done(NilC);
      case 0x01 => r := Done(FalseC);
      case 0x11 => r := Done(TrueC);
      case 0x03 =>
        var n :- NextInteger();
        r := Done(IntC(n));
      case 0x13 =>
        var bs :- NextBytes(8);
        r := Done(FloatC(FromLittleEndian(bs)));
      case 0x04 =>
        r := NextStringConst();
      case 0x14 =>
        r := NextStringConst();
      case _ => r := Panicked("bad constant type");
    }

    method NextStringConst() returns (r: Outcome<Constant>)
      modifies this
      ensures match ReadStringN(data, old(At()))
              case Ok(s, c) => (r == if s.Some? then Done(StrC(s.value)) else Panicked("bad format for constant string")) && At() == c
              case Err(msg) => r == Panicked(msg)
    {
      hide ReadStringN;
      var s :- NextStringN();
      r := if s.Some? then Done(StrC(s.value)) else Panicked("bad format for constant string");
    }

    method NextUpval() returns (r: Outcome<Upval>)
      modifies this
      ensures Reads(r, ReadUpval(data, old(At())))
    {
      var inStack :- NextByte();
      var index :- NextByte();
      var kind :- NextByte();
      r := Done(Upval(inStack != 0, index, kind, []));
    }

    method NextLocal() returns (r: Outcome<LocalVar>)
      modifies this
      ensures Reads(r, ReadLocal(data, old(At())))
    {
      hide ReadUnsigned, ReadString;
      var name :- NextString();
      var startPC :- NextUnsigned(MAX_INT32);
      var endPC :- NextUnsigned(MAX_INT32);
      r := Done(LocalVar(name, startPC, endPC));
    }

    method NextAbsLine() returns (r: Outcome<RawAbs>)
      requires pos <= |data|
      modifies this
      ensures Reads(r, ReadAbsLine(data, old(At())))
    {
      hide ReadWord;
      var pc :- NextWord();
      var line :- NextWord();
      r := Done(RawAbs(Signed32(pc), Signed32(line)));
    }

    method LoadConstants(n: nat) returns (r: Outcome<seq<Constant>>)
      requires pos <= |data|
      modifies this
      ensures Reads(r, ReadAll(ReadConst, data, old(At()), n))
    {
      hide ReadConst, ReadAll;
      ghost var c := At();
      NoneRead(ReadConst, data, c);
      var xs: seq<Constant> := [];
      for i := 0 to n
        invariant pos <= |data| && ReadAll(ReadConst, data, c, i) == Ok(xs, At())
      {
        var x := NextConst();
        if x.Panicked? {
          StopsAll(ReadConst, data, c, i, n);
          return Panicked(x.msg);
        }
        AllStep(ReadConst, data, c, i);
        xs := xs + [x.v];
      }
      r := Done(xs);
    }

    method LoadUpvals(n: nat) returns (r: Outcome<seq<Upval>>)
      requires pos <= |data|
      modifies this
      ensures Reads(r, ReadAll(ReadUpval, data, old(At()), n))
    {
      hide ReadUpval, ReadAll;
      ghost var c := At();
      NoneRead(ReadUpval, data, c);
      var xs: seq<Upval> := [];
      for i := 0 to n
        invariant pos <= |data| && ReadAll(ReadUpval, data, c, i) == Ok(xs, At())
      {
        var x := NextUpval();
        if x.Panicked? {
          StopsAll(ReadUpval, data, c, i, n);
          return Panicked(x.msg);
        }
        AllStep(ReadUpval, data, c, i);
        xs := xs + [x.v];
      }
      r := Done(xs);
    }

    method LoadLocals(n: nat) returns (r: Outcome<seq<LocalVar>>)
      requires pos <= |data|
      modifies this
      ensures Reads(r, ReadAll(ReadLocal, data, old(At()), n))
    {
      hide ReadLocal, ReadAll;
      ghost var c := At();
      NoneRead(ReadLocal, data, c);
      var xs: seq<LocalVar> := [];
      for i := 0 to n
        invariant pos <= |data| && ReadAll(ReadLocal, data, c, i) == Ok(xs, At())
      {
        var x := NextLocal();
        if x.Panicked? {
          StopsAll(ReadLocal, data, c, i, n);
          return Panicked(x.msg);
        }
        AllStep(ReadLocal, data, c, i);
        xs := xs + [x.v];
      }
      r := Done(xs);
    }

    method LoadAbsLines(n: nat) returns (r: Outcome<seq<RawAbs>>)
      requires pos <= |data|
      modifies this
      ensures Reads(r, ReadAll(ReadAbsLine, data, old(At()), n))
    {
      hide ReadAbsLine, ReadAll;
      ghost var c := At();
      NoneRead(ReadAbsLine, data, c);
      var xs: seq<RawAbs> := [];
      for i := 0 to n
        invariant pos <= |data| && ReadAll(ReadAbsLine, data, c, i) == Ok(xs, At())
      {
        var x := NextAbsLine();
        if x.Panicked? {
          StopsAll(ReadAbsLine, data, c, i, n);
          return Panicked(x.msg);
        }
        AllStep(ReadAbsLine, data, c, i);
        xs := xs + [x.v];
      }
      r := Done(xs);
    }

    method LoadDeltas(n: nat) returns (r: Outcome<seq<Byte>>)
      requires pos <= |data|
      modifies this
      ensures Reads(r, ReadAll(ReadByte, data, old(At()), n))
    {
      hide ReadByte, ReadAll;
      ghost var c := At();
      NoneRead(ReadByte, data, c);
      var xs: seq<Byte> := [];
      for i := 0 to n
        invariant pos <= |data| && ReadAll(ReadByte, data, c, i) == Ok(xs, At())
      {
        var x := NextByte();
        if x.Panicked? {
          StopsAll(ReadByte, data, c, i, n);
          return Panicked(x.msg);
        }
        AllStep(ReadByte, data, c, i);
        xs := xs + [x.v];
      }
      r := Done(xs);
    }

    method LoadNames(n: nat) returns (r: Outcome<seq<Str>>)
      requires pos <= |data|
      modifies this
      ensures Reads(r, ReadAll(ReadString, data, old(At()), n))
    {
      hide ReadString, ReadAll;
      ghost var c := At();
      NoneRead(ReadString, data, c);
      var xs: seq<Str> := [];
      for i := 0 to n
        invariant pos <= |data| && ReadAll(ReadString, data, c, i) == Ok(xs, At())
      {
        var x := NextString();
        if x.Panicked? {
          StopsAll(ReadString, data, c, i, n);
          return Panicked(x.msg);
        }
        AllStep(ReadString, data, c, i);
        xs := xs + [x.v];
      }
      r := Done(xs);
    }

    method LoadConstList() returns (r: Outcome<seq<Constant>>)
      modifies this
      ensures Reads(r, ReadList(ReadConst, data, old(At())))
    {
      hide ReadCount, ReadAll;
      var n :- NextCount();
      r := LoadConstants(n);
    }

    method LoadUpvalList() returns (r: Outcome<seq<Upval>>)
      modifies this
      ensures Reads(r, ReadList(ReadUpval, data, old(At())))
    {
      hide ReadCount, ReadAll;
      var n :- NextCount();
      r := LoadUpvals(n);
    }

    method LoadHead() returns (r: Outcome<Proto>)
      modifies this
      ensures Reads(r, ReadHead(data, old(At())))
    {
      hide ReadUnsigned, ReadList, ReadCode;
      var lineDef :- NextUnsigned(MAX_INT32);
      var lastLine :- NextUnsigned(MAX_INT32);
      var numParams :- NextByte();
      var flag :- NextByte();
      var hidden, named := flag % 2 != 0, flag / 2 % 2 != 0;
      var maxStack :- NextByte();
      if (hidden || named) && numParams >= maxStack {
        return Panicked("corrupted vararg register");
      }
      CodeMoves(data, At());
      var code :- LoadCode();
      var consts :- LoadConstList();
      var upvals :- LoadUpvalList();
      r := Done(Proto(lineDef, lastLine, numParams, hidden || named, named, if named then numParams else 0, hidden, maxStack,
                      code, consts, upvals, [], [], [], []));
    }

    /** Rebuild the lines. */
    method RebuildLines(lineDef: int, deltas: seq<Byte>, abs: seq<RawAbs>) returns (r: Outcome<seq<int>>)
      ensures match DecodeLines(lineDef, deltas, abs, |deltas|)
              case Decoded(lines, _) => r == Done(lines)
              case BadAbs => r == Panicked(BAD_ABS)
    {
      var lines: seq<int> := [];
      var prev, absIdx: nat := lineDef, 0;
      for i := 0 to |deltas|
        invariant DecodeLines(lineDef, deltas, abs, i) == Decoded(lines, absIdx)
        invariant prev == if i == 0 then lineDef else lines[i - 1]
      {
        if deltas[i] == ABS_MARK {
          ghost var from := absIdx;
          while absIdx < |abs| && abs[absIdx].pc < i
            invariant from <= absIdx <= |abs| && SkipAbs(abs, absIdx, i) == SkipAbs(abs, from, i)
          {
            absIdx := absIdx + 1;
          }
          if absIdx >= |abs| || abs[absIdx].pc != i {
            StaysBad(lineDef, deltas, abs, i + 1, |deltas|);
            return Panicked(BAD_ABS);
          }
          prev := abs[absIdx].line;
          absIdx := absIdx + 1;
        } else {
          prev := prev + SignedByte(deltas[i]);
        }
        lines := lines + [prev];
      }
      r := Done(lines);
    }

    method LoadDebug(p: Proto) returns (r: Outcome<Proto>)
      modifies this
      ensures Reads(r, ReadDebug(data, old(At()), p))
    {
      hide ReadUnsigned, ReadCount, ReadAll, DecodeLines, ReadAlign;
      ReadersMove();
      var nLines :- NextCount();
      AllMove(ReadByte, data, At(), nLines);
      var deltas :- LoadDeltas(nLines);
      AbsMoves(data, At());
      var abs :- LoadAbs();
      var lines :- RebuildLines(p.lineDef, deltas, abs);
      var nLocals :- NextCount();
      AllMove(ReadLocal, data, At(), nLocals);
      var locals :- LoadLocals(nLocals);
      var nNames :- NextUnsigned(MAX_INT32);
      var upvals := p.upvals;
      if nNames != 0 {
        var names :- LoadNames(|p.upvals|);
        upvals := NameUpvals(p.upvals, names);
      }
      r := Done(p.(lines := lines, locals := locals, upvals := upvals));
    }

    method LoadAbs() returns (r: Outcome<seq<RawAbs>>)
      modifies this
      ensures Reads(r, ReadAbs(data, old(At())))
    {
      hide ReadCount, ReadAll, ReadAlign;
      var n :- NextCount();
      if n == 0 {
        return Done([]);
      }
      var _ :- SkipAlign();
      r := LoadAbsLines(n);
    }

    /** loadFunction. */
    method LoadFunction() returns (r: Outcome<Proto>)
      requires pos <= |data|
      modifies this
      ensures Reads(r, ReadFunction(data, old(At())))
      decreases |data| - pos, 0
    {
      hide ReadHead, ReadCount, ReadStringN, ReadDebug, ReadProtos;
      HeadMoves(data, At());
      var head :- LoadHead();
      var n :- NextCount();
      var protos :- LoadProtos(n);
      var source :- NextStringN();
      r := LoadDebug(head.(protos := protos, source := if source.Some? then source.value else STRIPPED_SOURCE));
    }

    method LoadProtos(n: nat) returns (r: Outcome<seq<Proto>>)
      requires pos <= |data|
      modifies this
      ensures Reads(r, ReadProtos(data, old(At()), n))
      decreases |data| - pos, 1
    {
      hide ReadFunction;
      ghost var c := At();
      var ps: seq<Proto> := [];
      for i := 0 to n
        invariant c.pos <= pos <= |data| && ReadProtos(data, c, i) == Ok(ps, At())
      {
        var p := LoadFunction();
        if p.Panicked? {
          StopsProtos(data, c, i, n);
          return Panicked(p.msg);
        }
        ps := ps + [p.v];
      }
      r := Done(ps);
    }

    /** checkHeader, field by field. */
    method CheckHeader() returns (r: Outcome<bool>)
      requires pos == 0
      modifies this`pos
      ensures r.Done? <==> HEADER <= data
      ensures r.Done? ==> pos == |HEADER|
    {
      var sig :- NextBytes(4);
      if sig != HEADER[..4] { return Panicked("not a binary chunk"); }
      var version :- NextByte();
      if version != HEADER[4] { return Panicked("version mismatch"); }
      var format :- NextByte();
      if format != HEADER[5] { return Panicked("format mismatch"); }
      var luacData :- NextBytes(6);
      if luacData != HEADER[6..12] { return Panicked("corrupted chunk"); }
      var sizes :- NextBytes(28);
      if sizes != HEADER[12..40] { return Panicked("number format mismatch"); }
      assert data[..40] == sig + [version] + [format] + luacData + sizes;
      assert HEADER == HEADER[..4] + [HEADER[4]] + [HEADER[5]] + HEADER[6..12] + HEADER[12..40];
      r := Done(true);
    }
  }

  const BAD_ABS := "bad absolute line info"

  lemma {:induction false} StaysBad(lineDef: int, deltas: seq<Byte>, abs: seq<RawAbs>, i: nat, n: nat)
    requires i <= n <= |deltas| && DecodeLines(lineDef, deltas, abs, i).BadAbs?
    ensures DecodeLines(lineDef, deltas, abs, n).BadAbs?
    decreases n
  {
    if i < n {
      StaysBad(lineDef, deltas, abs, i, n - 1);
    }
  }

  lemma {:induction false} StopsProtos(data: seq<Byte>, c: Cur, i: nat, n: nat)
    requires i < n && c.pos <= |data| && ReadProtos(data, c, i).Ok? && ReadFunction(data, ReadProtos(data, c, i).c).Err?
    ensures ReadProtos(data, c, n) == Err(ReadFunction(data, ReadProtos(data, c, i).c).msg)
    decreases n
  {
    hide ReadFunction;
    if i + 1 < n {
      StopsProtos(data, c, i, n - 1);
    }
  }

  /** Undump. */
  method UndumpChunk(data: seq<Byte>) returns (r: Outcome<(Proto, nat)>)
    ensures match Undump(data)
            case Ok(v, _) => r == Done(v)
            case Err(_) => r.Panicked?
  {
    hide ReadFunction;
    var u := new UndumpState(data);
    var _ :- u.CheckHeader();
    var nUp :- u.NextByte();
    var p :- u.LoadFunction();
    r := Done((p, nUp));
  }
}
