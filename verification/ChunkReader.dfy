/**
 How the loader reads a chunk: every read either moves forward inside the data
 or stops with an error.
*/
module ChunkReader {
  import opened Wrappers
  import opened InstrWord
  import opened CodeTranslation
  import opened ChunkFormat

  /** Where the loader is and the strings it has read. */
  datatype Cur = Cur(pos: nat, tab: seq<Str>)

  datatype Res<T> = Ok(v: T, c: Cur) | Err(msg: string)
  {
    predicate IsFailure() { Err? }

    function PropagateFailure<U>(): Res<U>
      requires Err?
    {
      Err(msg)
    }

    function Extract(): (T, Cur)
      requires Ok?
    {
      (v, c)
    }
  }

  const TRUNCATED := "truncated chunk"
  const OVERFLOW := "integer overflow"

  /** A read moved forward by at least `least` bytes and stayed inside the data. */
  predicate Moved<T>(data: seq<Byte>, c: Cur, r: Res<T>, least: nat) {
    r.Ok? ==> c.pos + least <= r.c.pos <= |data|
  }

  function ReadByte(data: seq<Byte>, c: Cur): (r: Res<Byte>)
    ensures Moved(data, c, r, 1)
  {
    if c.pos >= |data| then Err(TRUNCATED) else Ok(data[c.pos], c.(pos := c.pos + 1))
  }

  function ReadBytes(data: seq<Byte>, c: Cur, n: nat): (r: Res<seq<Byte>>)
    ensures c.pos <= |data| ==> Moved(data, c, r, n)
    ensures r.Ok? ==> |r.v| == n
  {
    if c.pos + n > |data| then Err(TRUNCATED) else Ok(data[c.pos..c.pos + n], c.(pos := c.pos + n))
  }

  /** readUnsigned with x read so far: no group is shifted in once x is over the limit. */
  function ReadGroups(data: seq<Byte>, c: Cur, x: nat, lim: nat): (r: Res<nat>)
    ensures Moved(data, c, r, 1)
    decreases |data| - c.pos
  {
    if c.pos >= |data| then Err(TRUNCATED)
    else if x > lim then Err(OVERFLOW)
    else
      var b := data[c.pos];
      var next := c.(pos := c.pos + 1);
      if b < 128 then Ok(x * 128 + b, next) else ReadGroups(data, next, x * 128 + (b - 128), lim)
  }

  function ReadUnsigned(data: seq<Byte>, c: Cur, limit: nat): (r: Res<nat>)
    ensures Moved(data, c, r, 1)
  {
    ReadGroups(data, c, 0, limit / 128)
  }

  function ReadSize(data: seq<Byte>, c: Cur): (r: Res<nat>)
    ensures Moved(data, c, r, 1)
  {
    ReadUnsigned(data, c, MAX_INT64)
  }

  function ReadInt(data: seq<Byte>, c: Cur): (r: Res<nat>)
    ensures Moved(data, c, r, 1)
  {
    ReadUnsigned(data, c, MAX_INT32)
  }

  function ReadInteger(data: seq<Byte>, c: Cur): (r: Res<int>)
    ensures Moved(data, c, r, 1)
  {
    var (cx, c) :- ReadUnsigned(data, c, MAX_UINT64);
    Ok(if cx % 2 != 0 then -(cx / 2) - 1 else cx / 2, c)
  }

  function ReadAlign(data: seq<Byte>, c: Cur): (r: Res<seq<Byte>>)
    ensures c.pos <= |data| ==> Moved(data, c, r, 0)
  {
    ReadBytes(data, c, Padding(c.pos))
  }

  /** A count never exceeds the bytes that are left. */
  function ReadCount(data: seq<Byte>, c: Cur): (r: Res<nat>)
    ensures Moved(data, c, r, 1)
  {
    var (n, c) :- ReadInt(data, c);
    if n > |data| - c.pos then Err(TRUNCATED) else Ok(n, c)
  }

  function FromLittleEndian(bs: seq<Byte>): nat {
    if bs == [] then 0 else bs[0] + 256 * FromLittleEndian(bs[1..])
  }

  function Fixed(data: seq<Byte>, c: Cur, n: nat): (r: Res<nat>)
    ensures c.pos <= |data| ==> Moved(data, c, r, n)
  {
    var (bs, c) :- ReadBytes(data, c, n);
    Ok(FromLittleEndian(bs), c)
  }

  lemma {:induction false} LittleEndianBound(bs: seq<Byte>)
    ensures |bs| == 4 ==> FromLittleEndian(bs) < 0x1_0000_0000
  {
    if |bs| == 4 {
      assert FromLittleEndian(bs) == bs[0] + 256 * FromLittleEndian(bs[1..]);
      assert FromLittleEndian(bs[1..]) == bs[1..][0] + 256 * FromLittleEndian(bs[1..][1..]);
      assert FromLittleEndian(bs[1..][1..]) == bs[1..][1..][0] + 256 * FromLittleEndian(bs[1..][1..][1..]);
      assert FromLittleEndian(bs[1..][1..][1..]) == bs[1..][1..][1..][0] + 256 * FromLittleEndian(bs[1..][1..][1..][1..]);
    }
  }

  function ReadWord(data: seq<Byte>, c: Cur): (r: Res<Word>)
    ensures c.pos <= |data| ==> Moved(data, c, r, 1)
  {
    var (bs, c) :- ReadBytes(data, c, 4);
    LittleEndianBound(bs);
    Ok(FromLittleEndian(bs), c)
  }

  /** A string, or None for the marker of an absent one. */
  function ReadStringN(data: seq<Byte>, c: Cur): (r: Res<Option<Str>>)
    ensures Moved(data, c, r, 1)
  {
    var (size, c) :- ReadSize(data, c);
    if size == 0 then
      var (idx, c) :- ReadSize(data, c);
      if idx == 0 then Ok(None, c)
      else if idx > |c.tab| then Err("invalid string index")
      else Ok(Some(c.tab[idx - 1]), c)
    else
      var (raw, c) :- ReadBytes(data, c, size);
      var s := raw[..size - 1];
      Ok(Some(s), c.(tab := c.tab + [s]))
  }

  function ReadString(data: seq<Byte>, c: Cur): (r: Res<Str>)
    ensures Moved(data, c, r, 1)
  {
    var (s, c) :- ReadStringN(data, c);
    Ok(if s.Some? then s.value else [], c)
  }

  /** n parts, one after the other. */
  function ReadAll<T>(read: (seq<Byte>, Cur) -> Res<T>, data: seq<Byte>, c: Cur, n: nat): (r: Res<seq<T>>)
    ensures r.Ok? ==> |r.v| == n
  {
    if n == 0 then Ok([], c)
    else
      var (xs, c) :- ReadAll(read, data, c, n - 1);
      var (x, c) :- read(data, c);
      Ok(xs + [x], c)
  }

  function ReadList<T>(read: (seq<Byte>, Cur) -> Res<T>, data: seq<Byte>, c: Cur): Res<seq<T>> {
    var (n, c) :- ReadCount(data, c);
    ReadAll(read, data, c, n)
  }

  function ReadConst(data: seq<Byte>, c: Cur): (r: Res<Constant>)
    ensures c.pos <= |data| ==> Moved(data, c, r, 1)
  {
    var (t, c) :- ReadByte(data, c);
    if t == 0x00 then Ok(NilC, c)
    else if t == 0x01 then Ok(FalseC, c)
    else if t == 0x11 then Ok(TrueC, c)
    else if t == 0x03 then
      var (n, c) :- ReadInteger(data, c);
      Ok(IntC(n), c)
    else if t == 0x13 then
      var (bits, c) :- Fixed(data, c, 8);
      Ok(FloatC(bits), c)
    else if t == 0x04 || t == 0x14 then
      var (s, c) :- ReadStringN(data, c);
      if s.Some? then Ok(StrC(s.value), c) else Err("bad format for constant string")
    else Err("bad constant type")
  }

  /** An upvalue; its name comes with the debug information. */
  function ReadUpval(data: seq<Byte>, c: Cur): (r: Res<Upval>)
    ensures c.pos <= |data| ==> Moved(data, c, r, 1)
  {
    var (inStack, c) :- ReadByte(data, c);
    var (index, c) :- ReadByte(data, c);
    var (kind, c) :- ReadByte(data, c);
    Ok(Upval(inStack != 0, index, kind, []), c)
  }

  function ReadLocal(data: seq<Byte>, c: Cur): (r: Res<LocalVar>)
    ensures c.pos <= |data| ==> Moved(data, c, r, 1)
  {
    var (name, c) :- ReadString(data, c);
    var (startPC, c) :- ReadInt(data, c);
    var (endPC, c) :- ReadInt(data, c);
    Ok(LocalVar(name, startPC, endPC), c)
  }

  function Signed32(x: nat): int {
    if x >= 0x8000_0000 then x - 0x1_0000_0000 else x
  }

  datatype RawAbs = RawAbs(pc: int, line: int)

  function ReadAbsLine(data: seq<Byte>, c: Cur): (r: Res<RawAbs>)
    ensures c.pos <= |data| ==> Moved(data, c, r, 1)
  {
    var (pc, c) :- ReadWord(data, c);
    var (line, c) :- ReadWord(data, c);
    Ok(RawAbs(Signed32(pc), Signed32(line)), c)
  }

  // -- line information -------------------------------------------------------------------

  /** The lines rebuilt so far and the next absolute entry to use. */
  datatype Decoded = Decoded(lines: seq<int>, next: nat) | BadAbs

  function SkipAbs(abs: seq<RawAbs>, i: nat, pc: int): (r: nat)
    requires i <= |abs|
    ensures i <= r <= |abs|
    decreases |abs| - i
  {
    if i < |abs| && abs[i].pc < pc then SkipAbs(abs, i + 1, pc) else i
  }

  function SignedByte(b: Byte): int {
    if b >= 128 then b - 256 else b
  }

  function DecodeLines(lineDef: int, deltas: seq<Byte>, abs: seq<RawAbs>, n: nat): (d: Decoded)
    requires n <= |deltas|
    ensures d.Decoded? ==> |d.lines| == n && d.next <= |abs|
  {
    if n == 0 then Decoded([], 0)
    else
      match DecodeLines(lineDef, deltas, abs, n - 1)
      case BadAbs => BadAbs
      case Decoded(lines, next) =>
        if deltas[n - 1] == ABS_MARK then
          var k := SkipAbs(abs, next, n - 1);
          if k < |abs| && abs[k].pc == n - 1 then Decoded(lines + [abs[k].line], k + 1) else BadAbs
        else Decoded(lines + [(if n == 1 then lineDef else lines[n - 2]) + SignedByte(deltas[n - 1])], next)
  }

  // -- functions ------------------------------------------------------------------------------

  const STRIPPED_SOURCE: Str := [0x3d, 0x3f]

  /** A reader of parts that take at least one byte. */
  ghost predicate Moves<T>(read: (seq<Byte>, Cur) -> Res<T>) {
    forall data: seq<Byte>, c: Cur :: c.pos <= |data| ==> Moved(data, c, read(data, c), 1)
  }

  lemma ReadersMove()
    ensures Moves(ReadByte) && Moves(ReadWord) && Moves(ReadConst) && Moves(ReadUpval) && Moves(ReadLocal)
    ensures Moves(ReadAbsLine) && Moves(ReadString)
  {
  }

  lemma {:induction false} AllMove<T>(read: (seq<Byte>, Cur) -> Res<T>, data: seq<Byte>, c: Cur, n: nat)
    requires Moves(read) && c.pos <= |data|
    ensures Moved(data, c, ReadAll(read, data, c, n), n)
  {
    if n > 0 {
      AllMove(read, data, c, n - 1);
      var r := ReadAll(read, data, c, n - 1);
      if r.Ok? { assert Moved(data, r.c, read(data, r.c), 1); }
    }
  }

  lemma ListMoves<T>(read: (seq<Byte>, Cur) -> Res<T>, data: seq<Byte>, c: Cur)
    requires Moves(read)
    ensures Moved(data, c, ReadList(read, data, c), 1)
  {
    var r := ReadCount(data, c);
    if r.Ok? { AllMove(read, data, r.c, r.v); }
  }

  /** The absolute entries: a count, then aligned pairs if there are any. */
  function ReadAbs(data: seq<Byte>, c: Cur): (r: Res<seq<RawAbs>>) {
    var (n, c) :- ReadCount(data, c);
    if n == 0 then Ok([], c)
    else
      var (_, c) :- ReadAlign(data, c);
      ReadAll(ReadAbsLine, data, c, n)
  }

  function NameUpvals(us: seq<Upval>, names: seq<Str>): (r: seq<Upval>)
    requires |us| == |names|
    ensures |r| == |us| && forall i :: 0 <= i < |r| ==> r[i] == us[i].(name := names[i])
  {
    seq(|us|, i requires 0 <= i < |us| => us[i].(name := names[i]))
  }

  /** Upvalue names are there for all upvalues or for none. */
  function ReadNames(data: seq<Byte>, c: Cur, us: seq<Upval>): Res<seq<Upval>> {
    var (n, c) :- ReadInt(data, c);
    if n == 0 then Ok(us, c)
    else
      var (names, c) :- ReadAll(ReadString, data, c, |us|);
      Ok(NameUpvals(us, names), c)
  }

  /** The debug information that completes p. */
  function ReadDebug(data: seq<Byte>, c: Cur, p: Proto): Res<Proto> {
    var (deltas, c) :- ReadList(ReadByte, data, c);
    var (abs, c) :- ReadAbs(data, c);
    var d := DecodeLines(p.lineDef, deltas, abs, |deltas|);
    if d.BadAbs? then Err("bad absolute line info")
    else
      var (locals, c) :- ReadList(ReadLocal, data, c);
      var (upvals, c) :- ReadNames(data, c, p.upvals);
      Ok(p.(lines := d.lines, locals := locals, upvals := upvals), c)
  }

  lemma AbsMoves(data: seq<Byte>, c: Cur)
    ensures Moved(data, c, ReadAbs(data, c), 1)
  {
    ReadersMove();
    var r := ReadCount(data, c);
    if r.Ok? {
      var a := ReadAlign(data, r.c);
      if a.Ok? { AllMove(ReadAbsLine, data, a.c, r.v); }
    }
  }

  lemma NamesMove(data: seq<Byte>, c: Cur, us: seq<Upval>)
    ensures Moved(data, c, ReadNames(data, c, us), 1)
  {
    ReadersMove();
    var r := ReadInt(data, c);
    if r.Ok? { AllMove(ReadString, data, r.c, |us|); }
  }

  lemma DebugMoves(data: seq<Byte>, c: Cur, p: Proto)
    ensures Moved(data, c, ReadDebug(data, c, p), 1)
  {
    hide ReadList, ReadAbs, ReadNames, DecodeLines;
    ReadersMove();
    ListMoves(ReadByte, data, c);
    var r1 := ReadList(ReadByte, data, c);
    if r1.Ok? {
      AbsMoves(data, r1.c);
      var r2 := ReadAbs(data, r1.c);
      if r2.Ok? {
        ListMoves(ReadLocal, data, r2.c);
        var r3 := ReadList(ReadLocal, data, r2.c);
        if r3.Ok? { NamesMove(data, r3.c, p.upvals); }
      }
    }
  }

  const BAD_OPERAND := "bad instruction operand"

  /** The instruction vector: a count, padding, and words this machine can represent. */
  function ReadCode(data: seq<Byte>, c: Cur): (r: Res<seq<Word>>) {
    var (n, c) :- ReadCount(data, c);
    var (_, c) :- ReadAlign(data, c);
    var (ref, c) :- ReadAll(ReadWord, data, c, n);
    var code := FromRef(ref);
    if code.None? then Err(BAD_OPERAND) else Ok(code.value, c)
  }

  lemma CodeMoves(data: seq<Byte>, c: Cur)
    ensures Moved(data, c, ReadCode(data, c), 1)
  {
    hide ReadCount, ReadAll, FromRef;
    ReadersMove();
    forall c: Cur, n: nat | c.pos <= |data|
      ensures Moved(data, c, ReadAll(ReadWord, data, c, n), n)
    {
      AllMove(ReadWord, data, c, n);
    }
  }

  /** The part of a function before the nested ones. The vararg slot flag is worked out anew. */
  function ReadHead(data: seq<Byte>, c: Cur): (r: Res<Proto>)
  {
    var (lineDef, c) :- ReadInt(data, c);
    var (lastLine, c) :- ReadInt(data, c);
    var (numParams, c) :- ReadByte(data, c);
    var (flag, c) :- ReadByte(data, c);
    var (hidden, named) := (flag % 2 != 0, flag / 2 % 2 != 0);
    var (maxStack, c) :- ReadByte(data, c);
    if (hidden || named) && numParams >= maxStack then Err("corrupted vararg register")
    else
      var (code, c) :- ReadCode(data, c);
      var (consts, c) :- ReadList(ReadConst, data, c);
      var (upvals, c) :- ReadList(ReadUpval, data, c);
      Ok(Proto(lineDef, lastLine, numParams, hidden || named, named, if named then numParams else 0, hidden, maxStack,
               code, consts, upvals, [], [], [], []), c)
  }

  lemma HeadMoves(data: seq<Byte>, c: Cur)
    ensures Moved(data, c, ReadHead(data, c), 1)
  {
    hide ReadList, ReadCode, ReadInt, ReadByte;
    ReadersMove();
    forall c: Cur
      ensures Moved(data, c, ReadCode(data, c), 1)
    {
      CodeMoves(data, c);
    }
    forall c: Cur
      ensures Moved(data, c, ReadList(ReadConst, data, c), 1)
    {
      ListMoves(ReadConst, data, c);
    }
    forall c: Cur
      ensures Moved(data, c, ReadList(ReadUpval, data, c), 1)
    {
      ListMoves(ReadUpval, data, c);
    }
  }

  /** n nested functions. */
  function ReadProtos(data: seq<Byte>, c: Cur, n: nat): (r: Res<seq<Proto>>)
    requires c.pos <= |data|
    ensures Moved(data, c, r, n)
    ensures r.Ok? ==> |r.v| == n
    decreases |data| - c.pos, 1, n
  {
    if n == 0 then Ok([], c)
    else
      var (ps, c) :- ReadProtos(data, c, n - 1);
      var (p, c) :- ReadFunction(data, c);
      Ok(ps + [p], c)
  }

  /** loadFunction. A function without a source has the source of a stripped chunk. */
  function ReadFunction(data: seq<Byte>, c: Cur): (r: Res<Proto>)
    requires c.pos <= |data|
    ensures Moved(data, c, r, 1)
    decreases |data| - c.pos, 0, 0
  {
    HeadMoves(data, c);
    var (head, c) :- ReadHead(data, c);
    var (nProtos, c) :- ReadCount(data, c);
    var (protos, c) :- ReadProtos(data, c, nProtos);
    var (source, c) :- ReadStringN(data, c);
    var p := head.(protos := protos, source := if source.Some? then source.value else STRIPPED_SOURCE);
    DebugMoves(data, c, p);
    ReadDebug(data, c, p)
  }

  /** Undump: the header, the number of upvalues and the function. Bytes after it are ignored. */
  function Undump(data: seq<Byte>): Res<(Proto, nat)> {
    if !(HEADER <= data) then Err("bad header")
    else
      var (nUp, c) :- ReadByte(data, Cur(|HEADER|, []));
      var (p, c) :- ReadFunction(data, c);
      Ok((p, nUp), c)
  }
}
