/**
 The 32-bit instruction word: its fields, the constructors and the translation
 of operands between this virtual machine's conventions and the reference
 encoding of binary chunks.
*/
module InstrWord {

  type Word = w: nat | w < 0x1_0000_0000

  const MAX_ARG_BX: nat := 131071
  const MAX_ARG_AX: nat := 33554431
  const MAX_ARG_VC: nat := 1023
  const OFFSET_SJ: int := 16777215

  const OP_SHLI := 32
  const OP_SHRI := 33
  const OP_MMBIN := 46
  const OP_MMBINI := 47
  const OP_MMBINK := 48
  const OP_FORLOOP := 73
  const OP_TFORLOOP := 77
  const OP_SETLIST := 78
  const OP_EXTRAARG := 84

  // -- fields ------------------------------------------------------------------------

  function Op(w: Word): nat { w % 128 }
  function A(w: Word): nat { w / 128 % 256 }
  function K(w: Word): nat { w / 0x8000 % 2 }
  function B(w: Word): nat { w / 0x1_0000 % 256 }
  function C(w: Word): nat { w / 0x100_0000 }
  function VB(w: Word): nat { w / 0x1_0000 % 64 }
  function VC(w: Word): nat { w / 0x40_0000 }
  function Bx(w: Word): nat { w / 0x8000 }
  function Ax(w: Word): nat { w / 128 }
  function SJ(w: Word): int { Ax(w) - OFFSET_SJ }

  function MakeABC(op: nat, a: nat, b: nat, c: nat, k: nat): Word
    requires op < 128 && a < 256 && b < 256 && c < 256 && k < 2
  {
    op + a * 128 + k * 0x8000 + b * 0x1_0000 + c * 0x100_0000
  }

  function MakeVABC(op: nat, a: nat, vb: nat, vc: nat, k: nat): Word
    requires op < 128 && a < 256 && vb < 64 && vc < 1024 && k < 2
  {
    op + a * 128 + k * 0x8000 + vb * 0x1_0000 + vc * 0x40_0000
  }

  function MakeABx(op: nat, a: nat, bx: nat): Word
    requires op < 128 && a < 256 && bx <= MAX_ARG_BX
  {
    op + a * 128 + bx * 0x8000
  }

  function MakeAx(op: nat, ax: nat): Word
    requires op < 128 && ax <= MAX_ARG_AX
  {
    op + ax * 128
  }

  /** A copy of w with its jump offset replaced. */
  function SetSJ(w: Word, sj: int): Word
    requires -OFFSET_SJ <= sj <= OFFSET_SJ + 1
  {
    MakeAx(Op(w), sj + OFFSET_SJ)
  }

  /** The fields of a word make it up again, in each format. */
  lemma FieldsMakeWord(w: Word)
    ensures Op(w) < 128 && A(w) < 256 && B(w) < 256 && K(w) < 2 && VB(w) < 64
    ensures C(w) < 256 && VC(w) < 1024 && Bx(w) <= MAX_ARG_BX && Ax(w) <= MAX_ARG_AX
    ensures MakeABC(Op(w), A(w), B(w), C(w), K(w)) == w
    ensures MakeVABC(Op(w), A(w), VB(w), VC(w), K(w)) == w
    ensures MakeABx(Op(w), A(w), Bx(w)) == w && MakeAx(Op(w), Ax(w)) == w
  {
    var (a, k) := (w / 128, w / 0x8000);
    assert w / 0x8000 == a / 256 && w / 0x1_0000 == k / 2 && w / 0x100_0000 == w / 0x1_0000 / 256 && w / 0x40_0000 == w / 0x1_0000 / 64;
  }

  lemma ABCFields(op: nat, a: nat, b: nat, c: nat, k: nat)
    requires op < 128 && a < 256 && b < 256 && c < 256 && k < 2
    ensures var w := MakeABC(op, a, b, c, k); Op(w) == op && A(w) == a && B(w) == b && C(w) == c && K(w) == k
  {
    var w := MakeABC(op, a, b, c, k);
    assert w / 128 == a + 256 * (k + 2 * b + 512 * c);
    assert w / 0x8000 == k + 2 * b + 512 * c;
    assert w / 0x1_0000 == b + 256 * c;
  }

  lemma VABCFields(op: nat, a: nat, vb: nat, vc: nat, k: nat)
    requires op < 128 && a < 256 && vb < 64 && vc < 1024 && k < 2
    ensures var w := MakeVABC(op, a, vb, vc, k); Op(w) == op && A(w) == a && VB(w) == vb && VC(w) == vc && K(w) == k
  {
    var w := MakeVABC(op, a, vb, vc, k);
    assert w / 128 == a + 256 * (k + 2 * vb + 128 * vc);
    assert w / 0x8000 == k + 2 * vb + 128 * vc;
    assert w / 0x1_0000 == vb + 64 * vc;
  }

  lemma ABxFields(op: nat, a: nat, bx: nat)
    requires op < 128 && a < 256 && bx <= MAX_ARG_BX
    ensures var w := MakeABx(op, a, bx); Op(w) == op && A(w) == a && Bx(w) == bx
  {
    var w := MakeABx(op, a, bx);
    assert w / 128 == a + 256 * bx;
  }

  lemma AxFields(op: nat, ax: nat)
    requires op < 128 && ax <= MAX_ARG_AX
    ensures var w := MakeAx(op, ax); Op(w) == op && Ax(w) == ax
  {
  }

  /** Patching a jump changes its offset and nothing else. */
  lemma SetSJFields(w: Word, sj: int)
    requires -OFFSET_SJ <= sj <= OFFSET_SJ + 1
    ensures SJ(SetSJ(w, sj)) == sj && Op(SetSJ(w, sj)) == Op(w)
  {
    AxFields(Op(w), sj + OFFSET_SJ);
  }
}
