/**
 The binary chunk format: prototypes, what the dumper writes for each part and
 how the loader reads it back, as functions over bytes, a position and the
 table of strings seen so far.
*/
module ChunkFormat {
  import opened InstrWord
  import opened CodeTranslation

  type Byte = b: nat | b < 256
  type Str = seq<Byte>

  const MAX_INT64: nat := 0x7FFF_FFFF_FFFF_FFFF
  const MAX_UINT64: nat := 0xFFFF_FFFF_FFFF_FFFF
  const MAX_INT32: nat := 0x7FFF_FFFF

  // -- prototypes -------------------------------------------------------------------

  datatype Constant = NilC | FalseC | TrueC | IntC(n: int) | FloatC(bits: nat) | StrC(s: Str)

  datatype Upval = Upval(inStack: bool, index: nat, kind: Byte, name: Str)

  datatype LocalVar = LocalVar(name: Str, startPC: nat, endPC: nat)

  datatype Proto = Proto(
    lineDef: nat, lastLine: nat,
    numParams: nat, isVarArg: bool, named: bool, varArgReg: nat, hasSlot: bool, maxStack: nat,
    code: seq<Word>, consts: seq<Constant>, upvals: seq<Upval>, protos: seq<Proto>,
    source: Str, lines: seq<int>, locals: seq<LocalVar>)

  // -- writing --------------------------------------------------------------------------

  datatype Writer = Writer(out: seq<Byte>, tab: seq<Str>)

  /** Bytes written so far and the strings among them, each of which took at least one byte. */
  type W = w: Writer | |w.tab| <= |w.out| witness Writer([], [])

  function PutByte(w: W, b: Byte): (r: W)
    ensures w.out <= r.out && |r.out| == |w.out| + 1 && r.tab == w.tab
  {
    Writer(w.out + [b], w.tab)
  }

  function PutBytes(w: W, bs: seq<Byte>): (r: W)
    ensures w.out <= r.out && |r.out| == |w.out| + |bs| && r.tab == w.tab
  {
    Writer(w.out + bs, w.tab)
  }

  /** The 7-bit groups of x, most significant first, each marked as continued. */
  function Groups(x: nat): seq<Byte> {
    if x == 0 then [] else Groups(x / 128) + [x % 128 + 128]
  }

  function PutVarint(w: W, x: nat): (r: W)
    ensures w.out < r.out && r.tab == w.tab
  {
    PutBytes(w, Groups(x / 128) + [x % 128])
  }

  /** Small negative numbers stay small. */
  function Zigzag(n: int): nat {
    if n >= 0 then 2 * n else -2 * n - 1
  }

  function PutInteger(w: W, n: int): (r: W)
    ensures w.out < r.out && r.tab == w.tab
  {
    PutVarint(w, Zigzag(n))
  }

  function LittleEndian(x: nat, n: nat): (bs: seq<Byte>)
    ensures |bs| == n
  {
    if n == 0 then [] else [x % 256] + LittleEndian(x / 256, n - 1)
  }

  function PutWord(w: W, x: Word): (r: W)
    ensures w.out < r.out && r.tab == w.tab
  {
    PutBytes(w, LittleEndian(x, 4))
  }

  function Zeros(n: nat): (bs: seq<Byte>)
    ensures |bs| == n
  {
    seq(n, _ => 0)
  }

  function Padding(n: nat): nat {
    (4 - n % 4) % 4
  }

  /** Pad to a multiple of four bytes from the start of the chunk. */
  function PutAlign(w: W): (r: W)
    ensures w.out <= r.out && r.tab == w.tab
  {
    PutBytes(w, Zeros(Padding(|w.out|)))
  }

  function IndexOf(tab: seq<Str>, s: Str): (i: nat)
    ensures i <= |tab| && s !in tab[..i] && (i < |tab| ==> tab[i] == s) && (s in tab ==> i < |tab|)
  {
    if tab == [] || tab[0] == s then 0 else 1 + IndexOf(tab[1..], s)
  }

  /** A string written before is a zero and its index; a new one its size plus one, its bytes and a zero. */
  function PutString(w: W, s: Str): (r: W)
    ensures w.out < r.out
  {
    if s in w.tab then PutVarint(PutVarint(w, 0), IndexOf(w.tab, s) + 1)
    else
      var v := PutByte(PutBytes(PutVarint(w, |s| + 1), s), 0);
      Writer(v.out, w.tab + [s])
  }

  function PutNullString(w: W): (r: W)
    ensures w.out < r.out && r.tab == w.tab
  {
    PutVarint(PutVarint(w, 0), 0)
  }

  /** The first n of a list of parts, one after the other. */
  function PutAll<T>(put: (W, T) -> W, w: W, xs: seq<T>, n: nat): W
    requires n <= |xs|
  {
    if n == 0 then w else put(PutAll(put, w, xs, n - 1), xs[n - 1])
  }

  /** A count and that many parts. */
  function PutList<T>(put: (W, T) -> W, w: W, xs: seq<T>): W {
    PutAll(put, PutVarint(w, |xs|), xs, |xs|)
  }

  function PutConst(w: W, k: Constant): (r: W)
    ensures w.out < r.out
  {
    match k
    case NilC => PutByte(w, 0x00)
    case FalseC => PutByte(w, 0x01)
    case TrueC => PutByte(w, 0x11)
    case IntC(n) => PutInteger(PutByte(w, 0x03), n)
    case FloatC(bits) => PutBytes(PutByte(w, 0x13), LittleEndian(bits, 8))
    case StrC(s) => PutString(PutByte(w, if |s| <= 40 then 0x04 else 0x14), s)
  }

  function AsByte(n: int): Byte {
    n % 256
  }

  function PutUpval(w: W, u: Upval): (r: W)
    ensures w.out < r.out
  {
    PutByte(PutByte(PutByte(w, if u.inStack then 1 else 0), AsByte(u.index)), u.kind)
  }

  function PutLocal(w: W, l: LocalVar): (r: W)
    ensures w.out < r.out
  {
    PutVarint(PutVarint(PutString(w, l.name), l.startPC), l.endPC)
  }

  function PutUpvalName(w: W, u: Upval): (r: W)
    ensures w.out < r.out
  {
    PutString(w, u.name)
  }

  datatype AbsLine = AbsLine(pc: nat, line: int)

  function Unsigned32(n: int): Word {
    n % 0x1_0000_0000
  }

  function PutAbsLine(w: W, a: AbsLine): (r: W)
    ensures w.out < r.out
  {
    PutWord(PutWord(w, Unsigned32(a.pc)), Unsigned32(a.line))
  }

  // -- line information ---------------------------------------------------------------------

  /** Deltas, absolute entries and the number of instructions since the last absolute one. */
  datatype LineInfo = LineInfo(deltas: seq<Byte>, abs: seq<AbsLine>, since: nat)

  const ABS_MARK: Byte := 0x80

  function EncodeLines(lineDef: int, lines: seq<int>, n: nat): (e: LineInfo)
    requires n <= |lines|
    ensures |e.deltas| == n
  {
    if n == 0 then LineInfo([], [], 0)
    else
      var e := EncodeLines(lineDef, lines, n - 1);
      var delta := lines[n - 1] - if n == 1 then lineDef else lines[n - 2];
      if delta <= -0x80 || delta >= 0x80 || e.since + 1 > 128 then
        LineInfo(e.deltas + [ABS_MARK], e.abs + [AbsLine(n - 1, lines[n - 1])], 1)
      else LineInfo(e.deltas + [AsByte(delta)], e.abs, e.since + 1)
  }

  /** dumpDebug. */
  function PutDebug(w: W, p: Proto, strip: bool): (r: W) {
    if strip then PutVarint(PutVarint(PutVarint(PutVarint(w, 0), 0), 0), 0)
    else
      var e := EncodeLines(p.lineDef, p.lines, |p.lines|);
      var w1 := PutList(PutByte, w, e.deltas);
      var w2 := PutVarint(w1, |e.abs|);
      var w3 := if e.abs == [] then w2 else PutAll(PutAbsLine, PutAlign(w2), e.abs, |e.abs|);
      PutList(PutUpvalName, PutList(PutLocal, w3, p.locals), p.upvals)
  }

  const PF_VAHID: Byte := 1
  const PF_VATAB: Byte := 2

  function Flag(p: Proto): Byte {
    if p.named then PF_VATAB else if p.isVarArg then PF_VAHID else 0
  }

  /** The part of a prototype before the nested ones. */
  function PutHead(w: W, p: Proto): (r: W) {
    var w1 := PutVarint(PutVarint(w, p.lineDef), p.lastLine);
    var w2 := PutByte(PutByte(PutByte(w1, AsByte(p.numParams)), Flag(p)), AsByte(p.maxStack));
    var w3 := PutAlign(PutVarint(w2, |p.code|));
    var w4 := PutAll(PutWord, w3, ToRef(p.code), |p.code|);
    PutList(PutUpval, PutList(PutConst, w4, p.consts), p.upvals)
  }

  function PutProtos(w: W, ps: seq<Proto>, n: nat, strip: bool): W
    requires n <= |ps|
    decreases ps, n
  {
    if n == 0 then w else PutFunction(PutProtos(w, ps, n - 1, strip), ps[n - 1], strip)
  }

  /** dumpFunction. */
  function PutFunction(w: W, p: Proto, strip: bool): W
    decreases p
  {
    var w1 := PutVarint(PutHead(w, p), |p.protos|);
    var w2 := PutProtos(w1, p.protos, |p.protos|, strip);
    var w3 := if strip then PutNullString(w2) else PutString(w2, p.source);
    PutDebug(w3, p, strip)
  }

  const SIGNATURE: seq<Byte> := [0x1b, 0x4c, 0x75, 0x61, 0x55, 0x00, 0x19, 0x93, 0x0d, 0x0a, 0x1a, 0x0a]
  const INT_INFO: seq<Byte> := [4, 0x88, 0xA9, 0xFF, 0xFF]
  const INSTRUCTION_INFO: seq<Byte> := [4, 0x78, 0x56, 0x34, 0x12]
  const INTEGER_INFO: seq<Byte> := [8, 0x88, 0xA9, 0xFF, 0xFF, 0xFF, 0xFF, 0xFF, 0xFF]
  const NUMBER_INFO: seq<Byte> := [8, 0, 0, 0, 0, 0, 0x28, 0x77, 0xC0]
  const HEADER: seq<Byte> := SIGNATURE + INT_INFO + INSTRUCTION_INFO + INTEGER_INFO + NUMBER_INFO

  /** dumpProto: header, number of upvalues, function. */
  function Dump(p: Proto, strip: bool): seq<Byte> {
    PutFunction(PutByte(Writer(HEADER, []), AsByte(|p.upvals|)), p, strip).out
  }
}
