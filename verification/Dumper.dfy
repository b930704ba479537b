/**
 string.dump as the program runs it: a growing buffer, a map from the strings
 already written to their index, and loops over the parts of a prototype.
*/
module Dumper {
  import opened InstrWord
  import opened CodeTranslation
  import opened ChunkFormat

  lemma {:induction false} IndexOfLast(tab: seq<Str>, s: Str)
    requires s !in tab
    ensures IndexOf(tab + [s], s) == |tab|
    ensures forall t :: t in tab ==> IndexOf(tab + [s], t) == IndexOf(tab, t)
  {
    if tab != [] {
      assert (tab + [s])[1..] == tab[1..] + [s];
      IndexOfLast(tab[1..], s);
    }
  }

  class DumpState {
    const strip: bool
    var out: seq<Byte>
    var saved: map<Str, nat>
    var nstr: nat
    ghost var tab: seq<Str>

    constructor (strip: bool)
      ensures Valid() && this.strip == strip && Written() == Writer([], [])
    {
      this.strip := strip;
      out, saved, nstr, tab := [], map[], 0, [];
    }

    /** The map holds the index of every string written. */
    ghost predicate Valid()
      reads this
    {
      && nstr == |tab| <= |out|
      && (forall s :: s in saved <==> s in tab) && (forall s :: s in saved ==> saved[s] == IndexOf(tab, s) + 1)
    }

    ghost function Written(): W
      reads this
      requires Valid()
    {
      Writer(out, tab)
    }

    method WriteByte(b: Byte)
      requires Valid()
      modifies this`out
      ensures Valid() && Written() == PutByte(old(Written()), b)
    {
      out := out + [b];
    }

    method WriteBytes(bs: seq<Byte>)
      requires Valid()
      modifies this`out
      ensures Valid() && Written() == PutBytes(old(Written()), bs)
    {
      out := out + bs;
    }

    /** align: zero bytes up to the next multiple of n. */
    method Align()
      requires Valid()
      modifies this`out
      ensures Valid() && Written() == PutAlign(old(Written()))
    {
      var padding := 4 - |out| % 4;
      if padding < 4 {
        ghost var before := out;
        for i := 0 to padding
          invariant Valid() && out == before + Zeros(i)
        {
          assert Zeros(i + 1) == Zeros(i) + [0];
          out := out + [0];
        }
      } else {
        assert out + Zeros(0) == out;
      }
    }

    /** writeVarint: the groups are collected from the back. */
    method WriteVarint(x0: nat)
      requires Valid()
      modifies this`out
      ensures Valid() && Written() == PutVarint(old(Written()), x0)
    {
      var buf: seq<Byte>, x: nat := [x0 % 128], x0 / 128;
      ghost var all := Groups(x0 / 128) + [x0 % 128];
      while x != 0
        invariant Groups(x) + buf == all
      {
        assert Groups(x) + buf == Groups(x / 128) + ([x % 128 + 128] + buf);
        buf := [x % 128 + 128] + buf;
        x := x / 128;
      }
      assert Groups(0) + buf == buf;
      out := out + buf;
    }

    method WriteInteger(n: int)
      requires Valid()
      modifies this`out
      ensures Valid() && Written() == PutInteger(old(Written()), n)
    {
      hide PutVarint;
      if n >= 0 {
        WriteVarint(2 * n);
      } else {
        WriteVarint(2 * (-n - 1) + 1);
      }
    }

    method WriteUint32(x: Word)
      requires Valid()
      modifies this`out
      ensures Valid() && Written() == PutWord(old(Written()), x)
    {
      WriteBytes(LittleEndian(x, 4));
    }

    method WriteNullString()
      requires Valid()
      modifies this`out
      ensures Valid() && Written() == PutNullString(old(Written()))
    {
      hide PutVarint;
      WriteVarint(0);
      WriteVarint(0);
    }

    /** writeString: a string seen before is written as its index. */
    method WriteString(s: Str)
      requires Valid()
      modifies this
      ensures Valid() && Written() == PutString(old(Written()), s)
    {
      hide PutVarint, PutByte, PutBytes;
      if s in saved {
        var idx := saved[s];
        WriteVarint(0);
        WriteVarint(idx);
        return;
      }
      WriteVarint(|s| + 1);
      WriteBytes(s);
      WriteByte(0);
      IndexOfLast(tab, s);
      nstr := nstr + 1;
      saved := saved[s := nstr];
      tab := tab + [s];
    }

    // -- parts -------------------------------------------------------------------------

    /** dumpCode: count, padding, and the words in the reference encoding. */
    method DumpCode(code: seq<Word>)
      requires Valid()
      modifies this
      ensures Valid() && Written() == PutAll(PutWord, PutAlign(PutVarint(old(Written()), |code|)), ToRef(code), |code|)
    {
      hide PutVarint, PutAlign, PutWord, ToRef;
      WriteVarint(|code|);
      Align();
      ghost var w := Written();
      var ref := CodeToRef(code);
      ghost var words := ToRef(code);
      for i := 0 to |code|
        invariant Valid() && ref[..] == words && Written() == PutAll(PutWord, w, words, i)
      {
        assert ref[i] == ref[..][i];
        WriteUint32(ref[i]);
      }
    }

    method DumpConstant(k: Constant)
      requires Valid()
      modifies this
      ensures Valid() && Written() == PutConst(old(Written()), k)
    {
      hide PutVarint, PutByte, PutString, PutInteger, PutBytes;
      match k
      case NilC => WriteByte(0x00);
      case FalseC => WriteByte(0x01);
      case TrueC => WriteByte(0x11);
      case IntC(n) =>
        WriteByte(0x03);
        WriteInteger(n);
      case FloatC(bits) =>
        WriteByte(0x13);
        WriteBytes(LittleEndian(bits, 8));
      case StrC(s) =>
        WriteByte(if |s| <= 40 then 0x04 else 0x14);
        WriteString(s);
    }

    method DumpConstants(ks: seq<Constant>)
      requires Valid()
      modifies this
      ensures Valid() && Written() == PutList(PutConst, old(Written()), ks)
    {
      hide PutVarint, PutConst;
      WriteVarint(|ks|);
      ghost var w := Written();
      for i := 0 to |ks|
        invariant Valid() && Written() == PutAll(PutConst, w, ks, i)
      {
        DumpConstant(ks[i]);
      }
    }

    method DumpUpvalues(us: seq<Upval>)
      requires Valid()
      modifies this
      ensures Valid() && Written() == PutList(PutUpval, old(Written()), us)
    {
      hide PutVarint, PutByte;
      WriteVarint(|us|);
      ghost var w := Written();
      for i := 0 to |us|
        invariant Valid() && Written() == PutAll(PutUpval, w, us, i)
      {
        WriteByte(if us[i].inStack then 1 else 0);
        WriteByte(AsByte(us[i].index));
        WriteByte(us[i].kind);
      }
    }

    method DumpHead(p: Proto)
      requires Valid()
      modifies this
      ensures Valid() && Written() == PutHead(old(Written()), p)
    {
      hide PutVarint, PutByte, PutAlign, PutAll, PutList, ToRef;
      WriteVarint(p.lineDef);
      WriteVarint(p.lastLine);
      WriteByte(AsByte(p.numParams));
      var flag: Byte := 0;
      if p.named {
        flag := PF_VATAB;
      } else if p.isVarArg {
        flag := PF_VAHID;
      }
      WriteByte(flag);
      WriteByte(AsByte(p.maxStack));
      DumpCode(p.code);
      DumpConstants(p.consts);
      DumpUpvalues(p.upvals);
    }

    /** The deltas are written as they are worked out; absolute entries are kept for later. */
    method DumpLines(lineDef: int, lines: seq<int>) returns (abs: seq<AbsLine>)
      requires Valid()
      modifies this`out
      ensures var e := EncodeLines(lineDef, lines, |lines|);
              Valid() && Written() == PutList(PutByte, old(Written()), e.deltas) && abs == e.abs
    {
      hide PutVarint, PutByte;
      abs := [];
      WriteVarint(|lines|);
      ghost var w := Written();
      ghost var e := EncodeLines(lineDef, lines, |lines|);
      var prev, since := lineDef, 0;
      for i := 0 to |lines|
        invariant Valid() && Written() == PutAll(PutByte, w, e.deltas, i)
        invariant abs == EncodeLines(lineDef, lines, i).abs && since == EncodeLines(lineDef, lines, i).since
        invariant prev == if i == 0 then lineDef else lines[i - 1]
      {
        DeltaAt(lineDef, lines, i, |lines|);
        var delta := lines[i] - prev;
        since := since + 1;
        var b: Byte;
        if delta <= -0x80 || delta >= 0x80 || since > 128 {
          abs := abs + [AbsLine(i, lines[i])];
          since := 1;
          b := ABS_MARK;
        } else {
          b := AsByte(delta);
        }
        WriteByte(b);
        prev := lines[i];
      }
    }

    lemma {:induction false} DeltaAt(lineDef: int, lines: seq<int>, i: nat, m: nat)
      requires i < m <= |lines|
      ensures EncodeLines(lineDef, lines, m).deltas[i] == EncodeLines(lineDef, lines, i + 1).deltas[i]
      decreases m
    {
      if i + 1 < m {
        DeltaAt(lineDef, lines, i, m - 1);
      }
    }

    method DumpAbs(abs: seq<AbsLine>)
      requires Valid()
      modifies this`out
      ensures var w1 := PutVarint(old(Written()), |abs|);
              Valid() && Written() == if abs == [] then w1 else PutAll(PutAbsLine, PutAlign(w1), abs, |abs|)
    {
      hide PutVarint, PutAlign, PutWord;
      WriteVarint(|abs|);
      if |abs| > 0 {
        Align();
        ghost var w := Written();
        for i := 0 to |abs|
          invariant Valid() && Written() == PutAll(PutAbsLine, w, abs, i)
        {
          WriteUint32(Unsigned32(abs[i].pc));
          WriteUint32(Unsigned32(abs[i].line));
        }
      }
    }

    method DumpLocals(locals: seq<LocalVar>)
      requires Valid()
      modifies this
      ensures Valid() && Written() == PutList(PutLocal, old(Written()), locals)
    {
      hide PutVarint, PutString;
      WriteVarint(|locals|);
      ghost var w := Written();
      for i := 0 to |locals|
        invariant Valid() && Written() == PutAll(PutLocal, w, locals, i)
      {
        WriteString(locals[i].name);
        WriteVarint(locals[i].startPC);
        WriteVarint(locals[i].endPC);
      }
    }

    method DumpNames(us: seq<Upval>)
      requires Valid()
      modifies this
      ensures Valid() && Written() == PutList(PutUpvalName, old(Written()), us)
    {
      hide PutVarint, PutString;
      WriteVarint(|us|);
      ghost var w := Written();
      for i := 0 to |us|
        invariant Valid() && Written() == PutAll(PutUpvalName, w, us, i)
      {
        WriteString(us[i].name);
      }
    }

    method DumpDebug(p: Proto)
      requires Valid()
      modifies this
      ensures Valid() && Written() == PutDebug(old(Written()), p, strip)
    {
      hide PutVarint, PutList, PutAll, PutAlign, EncodeLines;
      if strip {
        WriteVarint(0);
        WriteVarint(0);
        WriteVarint(0);
        WriteVarint(0);
        return;
      }
      var abs := DumpLines(p.lineDef, p.lines);
      DumpAbs(abs);
      DumpLocals(p.locals);
      DumpNames(p.upvals);
    }

    /** dumpFunction. */
    method DumpFunction(p: Proto)
      requires Valid()
      modifies this
      ensures Valid() && Written() == PutFunction(old(Written()), p, strip)
      decreases p
    {
      hide PutVarint, PutHead, PutString, PutNullString, PutDebug;
      DumpHead(p);
      WriteVarint(|p.protos|);
      ghost var w := Written();
      for i := 0 to |p.protos|
        invariant Valid() && Written() == PutProtos(w, p.protos, i, strip)
      {
        DumpFunction(p.protos[i]);
      }
      if strip {
        WriteNullString();
      } else {
        WriteString(p.source);
      }
      DumpDebug(p);
    }
  }

  /** dumpProto. */
  method DumpProto(p: Proto, strip: bool) returns (data: seq<Byte>)
    ensures data == Dump(p, strip)
  {
    hide PutFunction, PutByte, PutBytes;
    var d := new DumpState(strip);
    HeaderFirst();
    d.WriteBytes(HEADER);
    d.WriteByte(AsByte(|p.upvals|));
    d.DumpFunction(p);
    data := d.out;
  }

  lemma HeaderFirst()
    ensures PutBytes(Writer([], []), HEADER) == Writer(HEADER, [])
  {
    assert [] + HEADER == HEADER;
  }
}
