/**
 Loading what was dumped gives the prototype back: reader and writer stay in
 step on positions and on the string table, through every nested function.
*/
module ChunkRoundTrip {
  import opened Wrappers
  import opened InstrWord
  import opened CodeTranslation
  import opened ChunkFormat
  import opened ChunkReader

  /** Where a reader is that has read all of w. */
  function At(w: W): Cur {
    Cur(|w.out|, w.tab)
  }

  /** The data starts with what w wrote. */
  predicate Wrote(w: W, data: seq<Byte>) {
    w.out <= data && |data| <= MAX_INT64
  }

  lemma WroteBefore(w: W, w': W, data: seq<Byte>)
    requires w.out <= w'.out && Wrote(w', data)
    ensures Wrote(w, data)
  {
  }

  // -- numbers -----------------------------------------------------------------------

  lemma {:induction false} GroupsRead(data: seq<Byte>, c: Cur, y: nat, lim: nat)
    requires y <= lim && c.pos + |Groups(y)| <= |data| && data[c.pos..c.pos + |Groups(y)|] == Groups(y)
    ensures ReadGroups(data, c, 0, lim) == ReadGroups(data, c.(pos := c.pos + |Groups(y)|), y, lim)
    decreases y
  {
    if y > 0 {
      var init := Groups(y / 128);
      var n := |init|;
      assert data[c.pos..c.pos + n] == data[c.pos..c.pos + n + 1][..n] == init;
      GroupsRead(data, c, y / 128, lim);
      assert data[c.pos + n] == data[c.pos..c.pos + n + 1][n] == y % 128 + 128;
    }
  }

  lemma VarintRoundTrip(w: W, x: nat, limit: nat, data: seq<Byte>)
    requires x <= limit && Wrote(PutVarint(w, x), data)
    ensures ReadUnsigned(data, At(w), limit) == Ok(x, At(PutVarint(w, x)))
  {
    var g := Groups(x / 128);
    var n := |w.out|;
    var out := w.out + (g + [x % 128]);
    assert PutVarint(w, x).out == out;
    assert data[..|out|] == out;
    assert data[n..n + |g|] == out[n..n + |g|] == g;
    assert data[n + |g|] == out[n + |g|] == x % 128;
    GroupsRead(data, At(w), x / 128, limit / 128);
    LastGroup(data, At(w).(pos := n + |g|), x, limit);
    hide ReadGroups, Groups;
  }

  /** The byte that ends a number. */
  lemma {:induction false} LastGroup(data: seq<Byte>, c: Cur, x: nat, limit: nat)
    requires x <= limit && c.pos < |data| && data[c.pos] == x % 128
    ensures ReadGroups(data, c, x / 128, limit / 128) == Ok(x, c.(pos := c.pos + 1))
  {
  }

  lemma IntegerRoundTrip(w: W, n: int, data: seq<Byte>)
    requires -0x8000_0000_0000_0000 <= n <= MAX_INT64 && Wrote(PutInteger(w, n), data)
    ensures ReadInteger(data, At(w)) == Ok(n, At(PutInteger(w, n)))
  {
    VarintRoundTrip(w, Zigzag(n), MAX_UINT64, data);
  }

  lemma ByteRoundTrip(w: W, b: Byte, data: seq<Byte>)
    requires Wrote(PutByte(w, b), data)
    ensures ReadByte(data, At(w)) == Ok(b, At(PutByte(w, b)))
  {
    assert data[|w.out|] == PutByte(w, b).out[|w.out|];
  }

  lemma BytesRoundTrip(w: W, bs: seq<Byte>, data: seq<Byte>)
    requires Wrote(PutBytes(w, bs), data)
    ensures ReadBytes(data, At(w), |bs|) == Ok(bs, At(PutBytes(w, bs)))
  {
    var (n, out) := (|w.out|, PutBytes(w, bs).out);
    assert data[..|out|] == out;
    assert data[n..n + |bs|] == out[n..n + |bs|] == bs;
  }

  lemma AlignRoundTrip(w: W, data: seq<Byte>)
    requires Wrote(PutAlign(w), data)
    ensures ReadAlign(data, At(w)) == Ok(Zeros(Padding(|w.out|)), At(PutAlign(w)))
  {
    BytesRoundTrip(w, Zeros(Padding(|w.out|)), data);
  }

  function Power256(n: nat): nat {
    if n == 0 then 1 else 256 * Power256(n - 1)
  }

  lemma {:induction false} LittleEndianRoundTrip(x: nat, n: nat)
    requires x < Power256(n)
    ensures FromLittleEndian(LittleEndian(x, n)) == x
  {
    if n > 0 {
      LittleEndianRoundTrip(x / 256, n - 1);
      assert LittleEndian(x, n)[1..] == LittleEndian(x / 256, n - 1);
    }
  }

  lemma Powers()
    ensures Power256(4) == 0x1_0000_0000 && Power256(8) == MAX_UINT64 + 1
  {
    assert Power256(2) == 65536;
    assert Power256(4) == 65536 * 65536;
    assert Power256(6) == 65536 * Power256(4);
    assert Power256(8) == 65536 * Power256(6);
  }

  lemma WordRoundTrips(w: W, x: Word, data: seq<Byte>)
    requires Wrote(PutWord(w, x), data)
    ensures ReadWord(data, At(w)) == Ok(x, At(PutWord(w, x)))
  {
    Powers();
    LittleEndianRoundTrip(x, 4);
    BytesRoundTrip(w, LittleEndian(x, 4), data);
  }

  // -- strings --------------------------------------------------------------------------

  /** The two string tables stay in step. */
  lemma StringRoundTrip(w: W, s: Str, data: seq<Byte>)
    requires Wrote(PutString(w, s), data)
    ensures ReadStringN(data, At(w)) == Ok(Some(s), At(PutString(w, s)))
    ensures ReadString(data, At(w)) == Ok(s, At(PutString(w, s)))
  {
    hide PutVarint, ReadUnsigned, PutByte, PutBytes;
    if s in w.tab {
      var w1 := PutVarint(w, 0);
      WroteBefore(w1, PutString(w, s), data);
      VarintRoundTrip(w, 0, MAX_INT64, data);
      VarintRoundTrip(w1, IndexOf(w.tab, s) + 1, MAX_INT64, data);
    } else {
      var w1 := PutVarint(w, |s| + 1);
      var w2 := PutBytes(w1, s);
      var w3 := PutByte(w2, 0);
      WroteBefore(w1, w3, data);
      VarintRoundTrip(w, |s| + 1, MAX_INT64, data);
      TerminatedBytes(w1, s, data);
    }
  }

  lemma TerminatedBytes(w: W, s: Str, data: seq<Byte>)
    requires Wrote(PutByte(PutBytes(w, s), 0), data)
    ensures ReadBytes(data, At(w), |s| + 1) == Ok(s + [0], At(PutByte(PutBytes(w, s), 0)))
    ensures (s + [0])[..|s|] == s
  {
    assert PutByte(PutBytes(w, s), 0) == PutBytes(w, s + [0]);
    BytesRoundTrip(w, s + [0], data);
  }

  lemma NullStringRoundTrip(w: W, data: seq<Byte>)
    requires Wrote(PutNullString(w), data)
    ensures ReadStringN(data, At(w)) == Ok(None, At(PutNullString(w)))
  {
    hide PutVarint, ReadUnsigned;
    WroteBefore(PutVarint(w, 0), PutNullString(w), data);
    VarintRoundTrip(w, 0, MAX_INT64, data);
    VarintRoundTrip(PutVarint(w, 0), 0, MAX_INT64, data);
  }

  // -- lists ---------------------------------------------------------------------------------

  /** Writing a part makes progress, and reading it back gives its view. */
  ghost predicate Inverse<T(!new), U(!new)>(put: (W, T) -> W, read: (seq<Byte>, Cur) -> Res<U>, fits: T -> bool, view: T -> U) {
    && (forall w: W, x: T :: w.out < put(w, x).out)
    && (forall w: W, x: T, data: seq<Byte> :: fits(x) && Wrote(put(w, x), data) ==> read(data, At(w)) == Ok(view(x), At(put(w, x))))
  }

  function Views<T, U>(view: T -> U, xs: seq<T>, n: nat): (r: seq<U>)
    requires n <= |xs|
    ensures |r| == n && forall i :: 0 <= i < n ==> r[i] == view(xs[i])
  {
    seq(n, i requires 0 <= i < n => view(xs[i]))
  }

  lemma {:induction false} AllRoundTrip<T(!new), U(!new)>(put: (W, T) -> W, read: (seq<Byte>, Cur) -> Res<U>, fits: T -> bool, view: T -> U, w: W, xs: seq<T>, n: nat, data: seq<Byte>)
    requires Inverse(put, read, fits, view) && n <= |xs| && forall x :: x in xs ==> fits(x)
    ensures w.out <= PutAll(put, w, xs, n).out && |PutAll(put, w, xs, n).out| >= |w.out| + n
    ensures Wrote(PutAll(put, w, xs, n), data) ==> ReadAll(read, data, At(w), n) == Ok(Views(view, xs, n), At(PutAll(put, w, xs, n)))
    decreases n
  {
    if n > 0 {
      AllRoundTrip(put, read, fits, view, w, xs, n - 1, data);
      var w1 := PutAll(put, w, xs, n - 1);
      assert w1.out < put(w1, xs[n - 1]).out;
      if Wrote(put(w1, xs[n - 1]), data) {
        WroteBefore(w1, put(w1, xs[n - 1]), data);
        assert xs[n - 1] in xs;
        assert Views(view, xs, n) == Views(view, xs, n - 1) + [view(xs[n - 1])];
      }
    }
  }

  lemma ListRoundTrip<T(!new), U(!new)>(put: (W, T) -> W, read: (seq<Byte>, Cur) -> Res<U>, fits: T -> bool, view: T -> U, w: W, xs: seq<T>, data: seq<Byte>)
    requires Inverse(put, read, fits, view) && |xs| <= MAX_INT32 && forall x :: x in xs ==> fits(x)
    ensures w.out < PutList(put, w, xs).out
    ensures Wrote(PutList(put, w, xs), data) ==> ReadList(read, data, At(w)) == Ok(Views(view, xs, |xs|), At(PutList(put, w, xs)))
  {
    hide PutVarint, ReadUnsigned, PutAll, ReadAll, Inverse;
    var w1 := PutVarint(w, |xs|);
    AllRoundTrip(put, read, fits, view, w1, xs, |xs|, data);
    if Wrote(PutList(put, w, xs), data) {
      WroteBefore(w1, PutList(put, w, xs), data);
      VarintRoundTrip(w, |xs|, MAX_INT32, data);
    }
  }

  // -- parts -------------------------------------------------------------------------------------

  predicate IsInt32(n: int) {
    -0x8000_0000 <= n <= MAX_INT32
  }

  predicate FitsConst(k: Constant) {
    match k
    case IntC(n) => -0x8000_0000_0000_0000 <= n <= MAX_INT64
    case FloatC(bits) => bits <= MAX_UINT64
    case _ => true
  }

  predicate FitsUpval(u: Upval) { u.index < 256 }

  predicate FitsLocal(l: LocalVar) { l.startPC <= MAX_INT32 && l.endPC <= MAX_INT32 }

  predicate FitsAbs(a: AbsLine) { a.pc <= MAX_INT32 && IsInt32(a.line) }

  predicate FitsByte(b: Byte) { true }

  predicate FitsWord(x: Word) { true }

  function ConstView(k: Constant): Constant { k }
  function UpvalView(u: Upval): Upval { u.(name := []) }
  function NameView(u: Upval): Str { u.name }
  function LocalView(l: LocalVar): LocalVar { l }
  function AbsView(a: AbsLine): RawAbs { RawAbs(a.pc, a.line) }
  function ByteView(b: Byte): Byte { b }
  function WordView(x: Word): Word { x }

  lemma ConstRoundTrip(w: W, k: Constant, data: seq<Byte>)
    requires FitsConst(k) && Wrote(PutConst(w, k), data)
    ensures ReadConst(data, At(w)) == Ok(k, At(PutConst(w, k)))
  {
    hide PutVarint, PutInteger, PutString, PutByte, PutBytes, ReadByte, ReadInteger, ReadStringN, ReadBytes;
    var t: Byte := match k case NilC => 0x00 case FalseC => 0x01 case TrueC => 0x11 case IntC(_) => 0x03 case FloatC(_) => 0x13
                           case StrC(s) => if |s| <= 40 then 0x04 else 0x14;
    var w1 := PutByte(w, t);
    WroteBefore(w1, PutConst(w, k), data);
    ByteRoundTrip(w, t, data);
    match k
    case IntC(n) => IntegerRoundTrip(w1, n, data);
    case FloatC(bits) =>
      Powers();
      LittleEndianRoundTrip(bits, 8);
      BytesRoundTrip(w1, LittleEndian(bits, 8), data);
    case StrC(s) => StringRoundTrip(w1, s, data);
    case _ =>
  }

  lemma UpvalRoundTrip(w: W, u: Upval, data: seq<Byte>)
    requires FitsUpval(u) && Wrote(PutUpval(w, u), data)
    ensures ReadUpval(data, At(w)) == Ok(UpvalView(u), At(PutUpval(w, u)))
  {
    hide PutByte, ReadByte;
    var b: Byte := if u.inStack then 1 else 0;
    var w1 := PutByte(w, b);
    var w2 := PutByte(w1, AsByte(u.index));
    var w3 := PutByte(w2, u.kind);
    WroteBefore(w2, w3, data);
    WroteBefore(w1, w2, data);
    ByteRoundTrip(w, b, data);
    ByteRoundTrip(w1, AsByte(u.index), data);
    ByteRoundTrip(w2, u.kind, data);
  }

  lemma LocalRoundTrip(w: W, l: LocalVar, data: seq<Byte>)
    requires FitsLocal(l) && Wrote(PutLocal(w, l), data)
    ensures ReadLocal(data, At(w)) == Ok(l, At(PutLocal(w, l)))
  {
    hide PutVarint, PutString, ReadUnsigned, ReadString;
    var w1 := PutString(w, l.name);
    var w2 := PutVarint(w1, l.startPC);
    WroteBefore(w2, PutLocal(w, l), data);
    WroteBefore(w1, w2, data);
    StringRoundTrip(w, l.name, data);
    VarintRoundTrip(w1, l.startPC, MAX_INT32, data);
    VarintRoundTrip(w2, l.endPC, MAX_INT32, data);
  }

  lemma AbsLineRoundTrip(w: W, a: AbsLine, data: seq<Byte>)
    requires FitsAbs(a) && Wrote(PutAbsLine(w, a), data)
    ensures ReadAbsLine(data, At(w)) == Ok(AbsView(a), At(PutAbsLine(w, a)))
  {
    hide PutWord, ReadWord;
    var w1 := PutWord(w, Unsigned32(a.pc));
    WroteBefore(w1, PutAbsLine(w, a), data);
    WordRoundTrips(w, Unsigned32(a.pc), data);
    WordRoundTrips(w1, Unsigned32(a.line), data);
  }

  lemma ConstInverse()
    ensures Inverse(PutConst, ReadConst, FitsConst, ConstView)
  {
    hide FitsConst, Wrote, PutConst, ReadConst;
    forall w: W, x: Constant, data: seq<Byte> | FitsConst(x) && Wrote(PutConst(w, x), data)
      ensures ReadConst(data, At(w)) == Ok(x, At(PutConst(w, x)))
    {
      ConstRoundTrip(w, x, data);
    }
  }

  lemma UpvalInverse()
    ensures Inverse(PutUpval, ReadUpval, FitsUpval, UpvalView)
  {
    hide FitsUpval, Wrote, PutUpval, ReadUpval;
    forall w: W, x: Upval, data: seq<Byte> | FitsUpval(x) && Wrote(PutUpval(w, x), data)
      ensures ReadUpval(data, At(w)) == Ok(UpvalView(x), At(PutUpval(w, x)))
    {
      UpvalRoundTrip(w, x, data);
    }
  }

  predicate AnyUpval(u: Upval) { true }

  lemma NameInverse()
    ensures Inverse(PutUpvalName, ReadString, AnyUpval, NameView)
  {
    hide Wrote, PutString, ReadString;
    forall w: W, x: Upval, data: seq<Byte> | Wrote(PutUpvalName(w, x), data)
      ensures ReadString(data, At(w)) == Ok(NameView(x), At(PutUpvalName(w, x)))
    {
      StringRoundTrip(w, x.name, data);
    }
  }

  lemma LocalInverse()
    ensures Inverse(PutLocal, ReadLocal, FitsLocal, LocalView)
  {
    hide FitsLocal, Wrote, PutLocal, ReadLocal;
    forall w: W, x: LocalVar, data: seq<Byte> | FitsLocal(x) && Wrote(PutLocal(w, x), data)
      ensures ReadLocal(data, At(w)) == Ok(x, At(PutLocal(w, x)))
    {
      LocalRoundTrip(w, x, data);
    }
  }

  lemma AbsInverse()
    ensures Inverse(PutAbsLine, ReadAbsLine, FitsAbs, AbsView)
  {
    hide FitsAbs, Wrote, PutAbsLine, ReadAbsLine;
    forall w: W, x: AbsLine, data: seq<Byte> | FitsAbs(x) && Wrote(PutAbsLine(w, x), data)
      ensures ReadAbsLine(data, At(w)) == Ok(AbsView(x), At(PutAbsLine(w, x)))
    {
      AbsLineRoundTrip(w, x, data);
    }
  }

  lemma ByteInverse()
    ensures Inverse(PutByte, ReadByte, FitsByte, ByteView)
  {
    hide Wrote, PutByte, ReadByte;
    forall w: W, x: Byte, data: seq<Byte> | Wrote(PutByte(w, x), data)
      ensures ReadByte(data, At(w)) == Ok(x, At(PutByte(w, x)))
    {
      ByteRoundTrip(w, x, data);
    }
  }

  // -- line information ----------------------------------------------------------------------------

  lemma {:induction false} LinesGrow(lineDef: int, lines: seq<int>, n: nat, m: nat)
    requires n <= m <= |lines|
    ensures EncodeLines(lineDef, lines, n).abs <= EncodeLines(lineDef, lines, m).abs
    ensures EncodeLines(lineDef, lines, n).deltas == EncodeLines(lineDef, lines, m).deltas[..n]
    decreases m
  {
    if n < m {
      LinesGrow(lineDef, lines, n, m - 1);
    }
  }

  lemma LineStep(lineDef: int, lines: seq<int>, n: nat, deltas: seq<Byte>, abs: seq<RawAbs>)
    requires 0 < n <= |lines| && n <= |deltas|
    requires var (e0, e1) := (EncodeLines(lineDef, lines, n - 1), EncodeLines(lineDef, lines, n));
             && deltas[n - 1] == e1.deltas[n - 1] && |e0.abs| <= |e1.abs| <= |abs|
             && (|e1.abs| > |e0.abs| ==> abs[|e0.abs|] == AbsView(e1.abs[|e0.abs|]))
             && DecodeLines(lineDef, deltas, abs, n - 1) == Decoded(lines[..n - 1], |e0.abs|)
    ensures DecodeLines(lineDef, deltas, abs, n) == Decoded(lines[..n], |EncodeLines(lineDef, lines, n).abs|)
  {
    var e0 := EncodeLines(lineDef, lines, n - 1);
    var prev := if n == 1 then lineDef else lines[n - 2];
    var delta := lines[n - 1] - prev;
    assert lines[..n] == lines[..n - 1] + [lines[n - 1]];
    assert n > 1 ==> lines[..n - 1][n - 2] == lines[n - 2];
    if delta <= -0x80 || delta >= 0x80 || e0.since + 1 > 128 {
      assert SkipAbs(abs, |e0.abs|, n - 1) == |e0.abs|;
    } else {
      assert SignedByte(AsByte(delta)) == delta && AsByte(delta) != ABS_MARK;
    }
  }

  /** Every line is rebuilt from the deltas and the absolute entries. */
  lemma {:induction false} LinesRoundTrip(lineDef: int, lines: seq<int>, n: nat)
    requires n <= |lines|
    ensures var e := EncodeLines(lineDef, lines, |lines|);
            DecodeLines(lineDef, e.deltas, Views(AbsView, e.abs, |e.abs|), n) == Decoded(lines[..n], |EncodeLines(lineDef, lines, n).abs|)
  {
    hide EncodeLines, DecodeLines;
    var e := EncodeLines(lineDef, lines, |lines|);
    var abs := Views(AbsView, e.abs, |e.abs|);
    if n == 0 {
      LinesStart(lineDef, lines, e.deltas, abs);
    } else {
      LinesRoundTrip(lineDef, lines, n - 1);
      LinesGrow(lineDef, lines, n - 1, n);
      LinesGrow(lineDef, lines, n, |lines|);
      var e1 := EncodeLines(lineDef, lines, n);
      assert e.deltas[n - 1] == e.deltas[..n][n - 1] == e1.deltas[n - 1];
      LineStep(lineDef, lines, n, e.deltas, abs);
    }
  }

  lemma {:induction false} LinesStart(lineDef: int, lines: seq<int>, deltas: seq<Byte>, abs: seq<RawAbs>)
    ensures DecodeLines(lineDef, deltas, abs, 0) == Decoded([], 0) && EncodeLines(lineDef, lines, 0) == LineInfo([], [], 0) && lines[..0] == []
  {
  }

  lemma {:induction false} AbsLinesFit(lineDef: int, lines: seq<int>, n: nat)
    requires n <= |lines| <= MAX_INT32 && forall x :: x in lines ==> IsInt32(x)
    ensures var abs := EncodeLines(lineDef, lines, n).abs; |abs| <= n && forall a :: a in abs ==> FitsAbs(a)
  {
    if n > 0 {
      AbsLinesFit(lineDef, lines, n - 1);
      assert lines[n - 1] in lines;
    }
  }

  // -- functions ---------------------------------------------------------------------------------------

  /** A prototype whose fields fit the format; a vararg function has a register for its arguments. */
  predicate InRange(p: Proto) {
    && p.lineDef <= MAX_INT32 && p.lastLine <= MAX_INT32 && p.numParams < 256 && p.maxStack < 256
    && (p.isVarArg ==> p.numParams < p.maxStack) && (p.named ==> p.isVarArg)
    && p.varArgReg == (if p.named then p.numParams else 0)
    && |p.code| <= MAX_INT32 && Translatable(p.code)
    && |p.consts| <= MAX_INT32 && (forall k :: k in p.consts ==> FitsConst(k))
    && |p.upvals| < 256 && (forall u :: u in p.upvals ==> FitsUpval(u))
    && |p.lines| <= MAX_INT32 && (forall n :: n in p.lines ==> IsInt32(n))
    && |p.locals| <= MAX_INT32 && (forall l :: l in p.locals ==> FitsLocal(l))
    && |p.protos| <= MAX_INT32 && (forall q :: q in p.protos ==> InRange(q))
  }

  /** What loading gives back: the vararg slot flag is worked out anew, and a stripped chunk has no names or lines. */
  function Loaded(p: Proto, strip: bool): Proto {
    var q := p.(hasSlot := p.isVarArg && !p.named, protos := LoadedAll(p.protos, |p.protos|, strip));
    if strip then q.(source := STRIPPED_SOURCE, lines := [], locals := [], upvals := Views(UpvalView, p.upvals, |p.upvals|)) else q
  }

  function LoadedAll(ps: seq<Proto>, n: nat, strip: bool): (r: seq<Proto>)
    requires n <= |ps|
    ensures |r| == n
    decreases ps, n
  {
    if n == 0 then [] else LoadedAll(ps, n - 1, strip) + [Loaded(ps[n - 1], strip)]
  }

  /** The head of what is loaded. */
  function LoadedHead(p: Proto): Proto {
    Proto(p.lineDef, p.lastLine, p.numParams, p.isVarArg, p.named, p.varArgReg, p.isVarArg && !p.named, p.maxStack,
          p.code, p.consts, Views(UpvalView, p.upvals, |p.upvals|), [], [], [], [])
  }

  lemma CodeInverse()
    ensures Inverse(PutWord, ReadWord, FitsWord, WordView)
  {
    hide Wrote, PutWord, ReadWord;
    forall w: W, x: Word, data: seq<Byte> | Wrote(PutWord(w, x), data)
      ensures ReadWord(data, At(w)) == Ok(WordView(x), At(PutWord(w, x)))
    {
      WordRoundTrips(w, x, data);
    }
  }

  /** A count whose parts are in the data is accepted. */
  lemma CountRoundTrip(w: W, n: nat, data: seq<Byte>)
    requires n <= MAX_INT32 && Wrote(PutVarint(w, n), data) && |PutVarint(w, n).out| + n <= |data|
    ensures ReadCount(data, At(w)) == Ok(n, At(PutVarint(w, n)))
  {
    hide PutVarint, ReadUnsigned;
    VarintRoundTrip(w, n, MAX_INT32, data);
  }

  lemma {:induction false} CodeRoundTrip(w: W, code: seq<Word>, data: seq<Byte>)
    requires |code| <= MAX_INT32 && Translatable(code)
    ensures var w' := PutAll(PutWord, PutAlign(PutVarint(w, |code|)), ToRef(code), |code|);
            && w.out < w'.out
            && (Wrote(w', data) ==> ReadCode(data, At(w)) == Ok(code, At(w')))
  {
    hide PutVarint, PutAlign, PutWord, ReadCount, ReadAlign, ReadWord, PutAll, ReadAll, ToRef, FromRef, Translatable, Inverse;
    var w1 := PutVarint(w, |code|);
    var w2 := PutAlign(w1);
    var ref := ToRef(code);
    CodeInverse();
    AllRoundTrip(PutWord, ReadWord, FitsWord, WordView, w2, ref, |code|, data);
    var w' := PutAll(PutWord, w2, ref, |code|);
    if Wrote(w', data) {
      WroteBefore(w2, w', data);
      WroteBefore(w1, w2, data);
      CountRoundTrip(w, |code|, data);
      AlignRoundTrip(w1, data);
      assert Views(WordView, ref, |code|) == ref;
      ToRefThenBack(code);
    }
  }

  lemma FlagBits(p: Proto)
    requires p.named ==> p.isVarArg
    ensures (Flag(p) % 2 != 0) == (p.isVarArg && !p.named) && (Flag(p) / 2 % 2 != 0) == p.named
  {
  }

  /** The fixed part of a function's head. */
  function PutFixed(w: W, p: Proto): W {
    var w1 := PutVarint(PutVarint(w, p.lineDef), p.lastLine);
    PutByte(PutByte(PutByte(w1, AsByte(p.numParams)), Flag(p)), AsByte(p.maxStack))
  }

  lemma {:induction false} FixedRoundTrip(w: W, p: Proto, data: seq<Byte>)
    requires InRange(p)
    ensures w.out < PutFixed(w, p).out
    ensures Wrote(PutFixed(w, p), data) ==>
              var w1 := PutVarint(w, p.lineDef);
              var w2 := PutVarint(w1, p.lastLine);
              var w3 := PutByte(w2, AsByte(p.numParams));
              var w4 := PutByte(w3, Flag(p));
              && ReadInt(data, At(w)) == Ok(p.lineDef, At(w1)) && ReadInt(data, At(w1)) == Ok(p.lastLine, At(w2))
              && ReadByte(data, At(w2)) == Ok(p.numParams, At(w3)) && ReadByte(data, At(w3)) == Ok(Flag(p), At(w4))
              && ReadByte(data, At(w4)) == Ok(p.maxStack, At(PutFixed(w, p)))
  {
    hide PutVarint, PutByte, ReadUnsigned, ReadByte, Flag;
    var w1 := PutVarint(w, p.lineDef);
    var w2 := PutVarint(w1, p.lastLine);
    var w3 := PutByte(w2, AsByte(p.numParams));
    var w4 := PutByte(w3, Flag(p));
    var w5 := PutByte(w4, AsByte(p.maxStack));
    if Wrote(w5, data) {
      WroteBefore(w4, w5, data);
      WroteBefore(w3, w4, data);
      WroteBefore(w2, w3, data);
      WroteBefore(w1, w2, data);
      VarintRoundTrip(w, p.lineDef, MAX_INT32, data);
      VarintRoundTrip(w1, p.lastLine, MAX_INT32, data);
      ByteRoundTrip(w2, AsByte(p.numParams), data);
      ByteRoundTrip(w3, Flag(p), data);
      ByteRoundTrip(w4, AsByte(p.maxStack), data);
    }
  }

  lemma {:induction false} HeadRoundTrip(w: W, p: Proto, data: seq<Byte>)
    requires InRange(p)
    ensures w.out < PutHead(w, p).out
    ensures Wrote(PutHead(w, p), data) ==> ReadHead(data, At(w)) == Ok(LoadedHead(p), At(PutHead(w, p)))
  {
    hide PutVarint, PutByte, PutAlign, PutAll, PutList, ReadInt, ReadByte, ReadCode, ReadList, ToRef, Translatable, Flag, Inverse;
    var w1 := PutFixed(w, p);
    var w2 := PutAll(PutWord, PutAlign(PutVarint(w1, |p.code|)), ToRef(p.code), |p.code|);
    var w3 := PutList(PutConst, w2, p.consts);
    FixedRoundTrip(w, p, data);
    CodeRoundTrip(w1, p.code, data);
    ConstInverse();
    UpvalInverse();
    ListRoundTrip(PutConst, ReadConst, FitsConst, ConstView, w2, p.consts, data);
    ListRoundTrip(PutUpval, ReadUpval, FitsUpval, UpvalView, w3, p.upvals, data);
    if Wrote(PutHead(w, p), data) {
      WroteBefore(w3, PutHead(w, p), data);
      WroteBefore(w2, w3, data);
      WroteBefore(w1, w2, data);
      FlagBits(p);
      assert Views(ConstView, p.consts, |p.consts|) == p.consts;
    }
  }

  /** An empty list is a zero. */
  lemma EmptyListRoundTrip<T>(read: (seq<Byte>, Cur) -> Res<T>, w: W, data: seq<Byte>)
    requires Wrote(PutVarint(w, 0), data)
    ensures ReadCount(data, At(w)) == Ok(0, At(PutVarint(w, 0))) && ReadList(read, data, At(w)) == Ok([], At(PutVarint(w, 0)))
  {
    hide PutVarint, ReadUnsigned;
    CountRoundTrip(w, 0, data);
  }

  lemma StrippedDebugRoundTrip(w: W, q: Proto, data: seq<Byte>)
    requires Wrote(PutDebug(w, q, true), data)
    ensures ReadDebug(data, At(w), q) == Ok(q.(lines := [], locals := []), At(PutDebug(w, q, true)))
  {
    hide PutVarint, ReadUnsigned, ReadList, ReadCount;
    var w1 := PutVarint(w, 0);
    var w2 := PutVarint(w1, 0);
    var w3 := PutVarint(w2, 0);
    var w4 := PutVarint(w3, 0);
    WroteBefore(w3, w4, data);
    WroteBefore(w2, w3, data);
    WroteBefore(w1, w2, data);
    EmptyListRoundTrip(ReadByte, w, data);
    EmptyListRoundTrip(ReadByte, w1, data);
    EmptyListRoundTrip(ReadLocal, w2, data);
    VarintRoundTrip(w3, 0, MAX_INT32, data);
  }

  lemma {:induction false} AbsRoundTrip(w: W, abs: seq<AbsLine>, data: seq<Byte>)
    requires |abs| <= MAX_INT32 && forall a :: a in abs ==> FitsAbs(a)
    ensures var w1 := PutVarint(w, |abs|);
            var w2 := if abs == [] then w1 else PutAll(PutAbsLine, PutAlign(w1), abs, |abs|);
            w.out < w2.out && (Wrote(w2, data) ==> ReadAbs(data, At(w)) == Ok(Views(AbsView, abs, |abs|), At(w2)))
  {
    hide PutVarint, PutAlign, PutAbsLine, ReadCount, ReadAlign, ReadAbsLine, PutAll, ReadAll, Inverse;
    var w1 := PutVarint(w, |abs|);
    var w0 := PutAlign(w1);
    AbsInverse();
    AllRoundTrip(PutAbsLine, ReadAbsLine, FitsAbs, AbsView, w0, abs, |abs|, data);
    if abs == [] {
      if Wrote(w1, data) { EmptyListRoundTrip(ReadAbsLine, w, data); }
    } else if Wrote(PutAll(PutAbsLine, w0, abs, |abs|), data) {
      WroteBefore(w0, PutAll(PutAbsLine, w0, abs, |abs|), data);
      WroteBefore(w1, w0, data);
      CountRoundTrip(w, |abs|, data);
      AlignRoundTrip(w1, data);
    }
  }

  lemma NamesRoundTrip(w: W, us: seq<Upval>, data: seq<Byte>)
    requires |us| < 256
    ensures w.out < PutList(PutUpvalName, w, us).out
    ensures Wrote(PutList(PutUpvalName, w, us), data) ==>
              ReadNames(data, At(w), Views(UpvalView, us, |us|)) == Ok(us, At(PutList(PutUpvalName, w, us)))
  {
    hide PutVarint, PutUpvalName, ReadUnsigned, ReadString, Inverse, ReadAll;
    NameInverse();
    var w1 := PutVarint(w, |us|);
    AllRoundTrip(PutUpvalName, ReadString, AnyUpval, NameView, w1, us, |us|, data);
    if Wrote(PutList(PutUpvalName, w, us), data) {
      WroteBefore(w1, PutList(PutUpvalName, w, us), data);
      VarintRoundTrip(w, |us|, MAX_INT32, data);
      assert NameUpvals(Views(UpvalView, us, |us|), Views(NameView, us, |us|)) == us;
      assert us == [] ==> Views(UpvalView, us, |us|) == us;
    }
  }

  lemma {:induction false} DebugRoundTrip(w: W, p: Proto, q: Proto, data: seq<Byte>)
    requires InRange(p) && q.lineDef == p.lineDef && q.upvals == Views(UpvalView, p.upvals, |p.upvals|)
    ensures w.out < PutDebug(w, p, false).out
    ensures Wrote(PutDebug(w, p, false), data) ==>
              ReadDebug(data, At(w), q) == Ok(q.(lines := p.lines, locals := p.locals, upvals := p.upvals), At(PutDebug(w, p, false)))
  {
    hide PutVarint, PutAlign, PutAll, PutList, ReadList, ReadAbs, ReadNames, EncodeLines, DecodeLines, Inverse, Translatable, PutByte;
    var e := EncodeLines(p.lineDef, p.lines, |p.lines|);
    var w1 := PutList(PutByte, w, e.deltas);
    var w2 := PutVarint(w1, |e.abs|);
    var w3 := if e.abs == [] then w2 else PutAll(PutAbsLine, PutAlign(w2), e.abs, |e.abs|);
    var w4 := PutList(PutLocal, w3, p.locals);
    var w5 := PutList(PutUpvalName, w4, p.upvals);
    ByteInverse();
    LocalInverse();
    ListRoundTrip(PutByte, ReadByte, FitsByte, ByteView, w, e.deltas, data);
    AbsLinesFit(p.lineDef, p.lines, |p.lines|);
    AbsRoundTrip(w1, e.abs, data);
    ListRoundTrip(PutLocal, ReadLocal, FitsLocal, LocalView, w3, p.locals, data);
    NamesRoundTrip(w4, p.upvals, data);
    if Wrote(w5, data) {
      WroteBefore(w4, w5, data);
      WroteBefore(w3, w4, data);
      WroteBefore(w1, w3, data);
      LinesRoundTrip(p.lineDef, p.lines, |p.lines|);
      assert p.lines[..|p.lines|] == p.lines;
      assert Views(ByteView, e.deltas, |e.deltas|) == e.deltas;
      assert Views(LocalView, p.locals, |p.locals|) == p.locals;
    }
  }

  // -- the theorem --------------------------------------------------------------------------------------

  lemma {:induction false} ProtosRoundTrip(w: W, ps: seq<Proto>, n: nat, strip: bool, data: seq<Byte>)
    requires n <= |ps| && forall q :: q in ps ==> InRange(q)
    ensures var w' := PutProtos(w, ps, n, strip);
            && w.out <= w'.out && |w'.out| >= |w.out| + n
            && (Wrote(w', data) ==> ReadProtos(data, At(w), n) == Ok(LoadedAll(ps, n, strip), At(w')))
    decreases ps, n
  {
    hide InRange, PutFunction, ReadFunction, Loaded;
    if n > 0 {
      var w1 := PutProtos(w, ps, n - 1, strip);
      assert ps[n - 1] in ps;
      ProtosRoundTrip(w, ps, n - 1, strip, data);
      FunctionRoundTrip(w1, ps[n - 1], strip, data);
      if Wrote(PutProtos(w, ps, n, strip), data) {
        WroteBefore(w1, PutProtos(w, ps, n, strip), data);
      }
    }
  }

  /** The end of a function: its source and its debug information. */
  lemma {:induction false} TailRoundTrip(w: W, p: Proto, q: Proto, strip: bool, data: seq<Byte>)
    requires InRange(p) && q.lineDef == p.lineDef && q.upvals == Views(UpvalView, p.upvals, |p.upvals|)
    requires q.lines == [] && q.locals == []
    ensures var w1 := if strip then PutNullString(w) else PutString(w, p.source);
            var w2 := PutDebug(w1, p, strip);
            && w.out < w2.out
            && (Wrote(w2, data) ==>
                  && ReadStringN(data, At(w)) == Ok(if strip then None else Some(p.source), At(w1))
                  && forall src: Str :: ReadDebug(data, At(w1), q.(source := src)) ==
                       Ok(if strip then q.(source := src)
                          else q.(source := src, lines := p.lines, locals := p.locals, upvals := p.upvals), At(w2)))
  {
    hide PutNullString, PutString, ReadStringN, PutDebug, ReadDebug, InRange;
    var w1 := if strip then PutNullString(w) else PutString(w, p.source);
    if strip {
      StrippedGrows(w1, p);
    } else {
      DebugRoundTrip(w1, p, q, data);
    }
    var w2 := PutDebug(w1, p, strip);
    if Wrote(w2, data) {
      WroteBefore(w1, w2, data);
      if strip { NullStringRoundTrip(w, data); } else { StringRoundTrip(w, p.source, data); }
      forall src: Str
        ensures ReadDebug(data, At(w1), q.(source := src)) ==
                Ok(if strip then q.(source := src) else q.(source := src, lines := p.lines, locals := p.locals, upvals := p.upvals), At(w2))
      {
        if strip {
          StrippedGrows(w1, q.(source := src));
          StrippedSame(w1, p, q.(source := src));
          StrippedDebugRoundTrip(w1, q.(source := src), data);
        } else {
          DebugRoundTrip(w1, p, q.(source := src), data);
        }
      }
    }
  }

  lemma StrippedGrows(w: W, p: Proto)
    ensures w.out < PutDebug(w, p, true).out
  {
    hide PutVarint;
  }

  lemma StrippedSame(w: W, p: Proto, q: Proto)
    ensures PutDebug(w, p, true) == PutDebug(w, q, true)
  {
    hide PutVarint;
  }

  lemma {:induction false} FunctionRoundTrip(w: W, p: Proto, strip: bool, data: seq<Byte>)
    requires InRange(p)
    ensures w.out < PutFunction(w, p, strip).out
    ensures Wrote(PutFunction(w, p, strip), data) ==> ReadFunction(data, At(w)) == Ok(Loaded(p, strip), At(PutFunction(w, p, strip)))
    decreases p
  {
    hide PutVarint, PutHead, PutString, PutNullString, PutDebug, PutProtos, ReadHead, ReadCount, ReadStringN, ReadDebug, ReadProtos, LoadedAll, Translatable;
    var w0 := PutHead(w, p);
    var w1 := PutVarint(w0, |p.protos|);
    var w2 := PutProtos(w1, p.protos, |p.protos|, strip);
    var q := LoadedHead(p).(protos := LoadedAll(p.protos, |p.protos|, strip));
    HeadRoundTrip(w, p, data);
    ProtosRoundTrip(w1, p.protos, |p.protos|, strip, data);
    TailRoundTrip(w2, p, q, strip, data);
    var w' := PutFunction(w, p, strip);
    if Wrote(w', data) {
      WroteBefore(w2, w', data);
      WroteBefore(w1, w2, data);
      WroteBefore(w0, w1, data);
      CountRoundTrip(w0, |p.protos|, data);
      hide InRange;
      assert Loaded(p, strip) == if strip then q.(source := STRIPPED_SOURCE)
                                 else q.(source := p.source, lines := p.lines, locals := p.locals, upvals := p.upvals);
    }
  }

  /** Undump(Dump(p)) is p, with HasVarArgSlot worked out anew; a stripped dump loses names, lines and sources only. */
  lemma {:induction false} DumpUndump(p: Proto, strip: bool)
    requires InRange(p) && |Dump(p, strip)| <= MAX_INT64
    ensures var r := Undump(Dump(p, strip));
            r.Ok? && r.v == (Loaded(p, strip), |p.upvals|)
  {
    hide PutFunction, ReadFunction, Loaded, PutByte, ReadByte;
    var w0 := Writer(HEADER, []);
    var w1 := PutByte(w0, AsByte(|p.upvals|));
    var data := Dump(p, strip);
    FunctionRoundTrip(w1, p, strip, data);
    WroteBefore(w1, PutFunction(w1, p, strip), data);
    ByteRoundTrip(w0, AsByte(|p.upvals|), data);
    hide InRange;
  }

  /** Where the vararg slot flag already is what loading works out. */
  predicate SlotsCanonical(p: Proto) {
    p.hasSlot == (p.isVarArg && !p.named) && forall q :: q in p.protos ==> SlotsCanonical(q)
  }

  lemma {:induction false} LoadedSame(p: Proto)
    ensures Loaded(p, false) == p <==> SlotsCanonical(p)
    decreases p
  {
    LoadedAllSame(p.protos, |p.protos|);
    assert p.protos[..|p.protos|] == p.protos;
  }

  lemma {:induction false} LoadedAllSame(ps: seq<Proto>, n: nat)
    requires n <= |ps|
    ensures LoadedAll(ps, n, false) == ps[..n] <==> forall q :: q in ps[..n] ==> SlotsCanonical(q)
    decreases ps, n
  {
    hide Loaded, SlotsCanonical;
    if n > 0 {
      LoadedAllSame(ps, n - 1);
      LoadedSame(ps[n - 1]);
      var (a, b) := (LoadedAll(ps, n - 1, false), Loaded(ps[n - 1], false));
      assert ps[..n] == ps[..n - 1] + [ps[n - 1]];
      assert (a + [b])[..n - 1] == a && (a + [b])[n - 1] == b && ps[..n][..n - 1] == ps[..n - 1];
    }
  }

  /** A dump comes back unchanged exactly when no vararg slot flag disagrees with the vararg flags. */
  lemma {:induction false} DumpUndumpSame(p: Proto)
    requires InRange(p) && |Dump(p, false)| <= MAX_INT64
    ensures Undump(Dump(p, false)).Ok?
    ensures Undump(Dump(p, false)).v.0 == p <==> SlotsCanonical(p)
  {
    hide Dump, Undump, InRange;
    DumpUndump(p, false);
    LoadedSame(p);
  }

  /** A main chunk takes varargs and has no slot for them; its dump is loaded with one. */
  lemma {:induction false} MainChunkChanges(p: Proto)
    requires InRange(p) && |Dump(p, false)| <= MAX_INT64 && p.isVarArg && !p.named && !p.hasSlot
    ensures Undump(Dump(p, false)).Ok? && Undump(Dump(p, false)).v.0.hasSlot
  {
    hide Dump, Undump, InRange;
    DumpUndump(p, false);
  }

  /** The smallest such chunk. */
  lemma SmallestMainChunk()
    ensures var p := Proto(0, 0, 0, true, false, 0, false, 2, [], [], [], [], [], [], []);
            InRange(p) && !SlotsCanonical(p)
  {
  }
}
