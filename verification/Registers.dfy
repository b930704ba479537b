/**
 The stack a function asks for is large enough: no instruction of an expression
 names a register at or above the high-water mark, and without an error the mark
 stays within the register limit.
*/
module Registers {
  import opened Wrappers
  import opened LuaValues
  import opened LuaSource
  import opened Machine
  import opened ExprSpec

  /** Every register i reads or writes is below n. */
  predicate Uses(i: Instr, n: nat) {
    match i
    case Move(a, b) => a < n && b < n
    case LoadNil(a, b) => a + b < n
    case SetUpval(a, _) => a < n
    case GetTable(a, b, c) => a < n && b < n && c < n
    case GetI(a, b, _) => a < n && b < n
    case GetField(a, b, _) => a < n && b < n
    case SetTabUp(_, _, c, k) => k == 0 ==> c < n
    case SetTable(a, b, c, k) => a < n && b < n && (k == 0 ==> c < n)
    case SetI(a, _, c, k) => a < n && (k == 0 ==> c < n)
    case SetField(a, _, c, k) => a < n && (k == 0 ==> c < n)
    case AddI(a, b, _) => a < n && b < n
    case Arith(_, a, b, c) => a < n && b < n && c < n
    case MmBin(a, b, _) => a < n && b < n
    case Unary(_, a, b) => a < n && b < n
    case EqR(a, b, _) => a < n && b < n
    case LtR(a, b, _) => a < n && b < n
    case LeR(a, b, _) => a < n && b < n
    case TestSet(a, b, _) => a < n && b < n
    case Jmp(_) => true
    case ExtraArg(_) => true
    case Close(_) => true
    case _ => i.a < n
  }

  /** Every other operand i names fits the field it is stored in: eight bits, or seventeen, with 127 or 65535 added to a signed one, or a flag. */
  predicate Narrow(i: Instr) {
    match i
    case LoadI(_, n) => 0 <= n + 65535 < 131072
    case LoadK(_, bx) => bx < 131072
    case GetUpval(_, b) => b < 256
    case SetUpval(_, b) => b < 256
    case GetTabUp(_, b, c) => b < 256 && c < 256
    case GetI(_, _, c) => c < 256
    case GetField(_, _, c) => c < 256
    case SetTabUp(a, b, c, k) => a < 256 && b < 256 && Chosen(c, k)
    case SetTable(_, _, c, k) => Chosen(c, k)
    case SetI(_, b, c, k) => b < 256 && Chosen(c, k)
    case SetField(_, b, c, k) => b < 256 && Chosen(c, k)
    case AddI(_, _, sc) => Small(sc)
    case MmBinI(_, sb, _, k) => Small(sb) && k < 2
    case EqR(_, _, k) => k < 2
    case LtR(_, _, k) => k < 2
    case LeR(_, _, k) => k < 2
    case EqK(_, b, k) => b < 256 && k < 2
    case EqI(_, sb, k) => Small(sb) && k < 2
    case LtI(_, sb, k) => Small(sb) && k < 2
    case LeI(_, sb, k) => Small(sb) && k < 2
    case GtI(_, sb, k) => Small(sb) && k < 2
    case GeI(_, sb, k) => Small(sb) && k < 2
    case Test(_, k) => k < 2
    case TestSet(_, _, k) => k < 2
    case _ => true
  }

  predicate Small(n: int) {
    0 <= n + 127 < 256
  }

  /** A stored value: a register, or a constant the field can name. */
  predicate Chosen(c: nat, k: nat) {
    k < 2 && (k == 1 ==> c < 256)
  }

  predicate Fits(i: Instr, n: nat) {
    Uses(i, n) && Narrow(i)
  }

  predicate AllUse(code: seq<Instr>, n: nat) {
    forall j :: 0 <= j < |code| ==> Fits(code[j], n)
  }

  /** Without an error the high-water mark is within the limit. */
  predicate Limited(cs: CS) {
    cs.err == NoError ==> cs.maxr <= cs.lim
  }

  /** From allocator state cs: accepted code stays below its own high-water mark, which stays within the limit. */
  predicate Contained(f: Frag, cs: CS) {
    && (f.cs.err == NoError ==> cs.err == NoError && AllUse(f.code, f.cs.maxr))
    && (Limited(cs) ==> Limited(f.cs)) && cs.maxr <= f.cs.maxr
  }

  /** Locals are below the mark, and so is the target unless it is still to be allocated. */
  predicate Target(sc: Scope, reg: nat, cs: CS) {
    RegTop(sc) <= cs.maxr && (reg < cs.maxr || cs.free <= reg)
  }

  lemma Wider(code: seq<Instr>, n: nat, m: nat)
    requires AllUse(code, n) && n <= m
    ensures AllUse(code, m)
  {
    forall j | 0 <= j < |code| ensures Fits(code[j], m) {
      assert Fits(code[j], n);
    }
  }

  lemma Both(a: seq<Instr>, b: seq<Instr>, n: nat)
    requires AllUse(a, n) && AllUse(b, n)
    ensures AllUse(a + b, n)
  {
    hide Fits;
  }

  /** One fragment after another. */
  lemma Chained(f: Frag, g: Frag, cs: CS, cs1: CS)
    requires Contained(f, cs) && Contained(g, cs1) && cs1 == f.cs.(free := cs1.free)
    ensures Contained(Then(f, g), cs)
  {
    hide AllUse;
    if g.cs.err == NoError {
      Wider(f.code, f.cs.maxr, g.cs.maxr);
      Both(f.code, g.code, g.cs.maxr);
    }
  }

  /** A fragment compiled after some registers were reserved. */
  lemma After(f: Frag, cs: CS, cs1: CS)
    requires Contained(f, cs1) && cs.maxr <= cs1.maxr && (Limited(cs) ==> Limited(cs1)) && (cs1.err == NoError ==> cs.err == NoError)
    ensures Contained(f, cs)
  {
  }

  /** More instructions at the end, and registers released. */
  lemma Ended(f: Frag, tail: seq<Instr>, free: nat, cs: CS)
    requires Contained(f, cs) && (f.cs.err == NoError ==> AllUse(tail, f.cs.maxr))
    ensures Contained(Frag(f.code + tail, f.cs.(free := free)), cs)
  {
    hide Fits;
    if f.cs.err == NoError { Both(f.code, tail, f.cs.maxr); }
  }

  lemma {:induction false} LocalBelow(sc: Scope, x: string)
    requires LookupLocal(sc, x).Some?
    ensures LookupLocal(sc, x).value < RegTop(sc)
  {
    if sc[|sc| - 1].name != x {
      LocalBelow(sc[..|sc| - 1], x);
    }
  }

  lemma {:induction false} PlainBelow(sc: Scope, e: Expr)
    requires PlainLocal(sc, e).Some?
    ensures PlainLocal(sc, e).value < RegTop(sc)
  {
    hide FindLocal, RegTop;
    LocalBelow(sc, Unparen(e).name);
  }

  // -- one lemma for each function of the compiler --------------------------------------

  lemma {:induction false} NameContained(sc: Scope, x: string, reg: nat, cs: CS)
    requires RegTop(sc) <= cs.maxr && reg < cs.maxr
    ensures Contained(CName(sc, x, reg, cs), cs)
  {
    hide FindLocal, RegTop, CGetField, CGetTabUp, CInlined, LookupLocal, LookupInlined;
    if LookupInlined(sc, x).Some? { InlinedContained(LookupInlined(sc, x).value, reg, cs); }
    if LookupLocal(sc, x).Some? { LocalBelow(sc, x); }
    if LookupLocal(sc, ENV).Some? {
      LocalBelow(sc, ENV);
      GetFieldContained(reg, LookupLocal(sc, ENV).value, x, cs);
    }
    GetTabUpContained(reg, x, cs);
  }

  lemma InlinedContained(v: Value, reg: nat, cs: CS)
    requires reg < cs.maxr
    ensures Contained(CInlined(v, reg, cs), cs)
  {
    hide IndexOf;
  }

  lemma GetFieldContained(reg: nat, tableReg: nat, x: string, cs: CS)
    requires reg < cs.maxr && tableReg < cs.maxr
    ensures Contained(CGetField(reg, tableReg, x, cs), cs)
  {
    hide IndexOf;
  }

  lemma GetTabUpContained(reg: nat, x: string, cs: CS)
    requires reg < cs.maxr
    ensures Contained(CGetTabUp(reg, x, cs), cs)
  {
    hide IndexOf;
  }

  lemma {:induction false} ToRegContained(sc: Scope, e: Expr, reg: nat, d: nat, cs: CS)
    requires Target(sc, reg, cs)
    ensures Contained(CToReg(sc, e, reg, d, cs), cs) && (CToReg(sc, e, reg, d, cs).cs.err == NoError ==> reg < CToReg(sc, e, reg, d, cs).cs.maxr)
    decreases e, 4
  {
    hide CStep, Fits;
    StepContained(sc, e, reg, d + 1, cs);
  }

  lemma {:induction false} LeftContained(sc: Scope, e: Expr, reg: nat, d: nat, cs: CS)
    requires Target(sc, reg, cs)
    ensures Contained(CLeft(sc, e, reg, d, cs), cs) && (CLeft(sc, e, reg, d, cs).cs.err == NoError ==> reg < CLeft(sc, e, reg, d, cs).cs.maxr)
    decreases e, 5
  {
    hide CStep, CToReg, Contained;
    if SpineLink(e) { StepContained(sc, e, reg, d, cs); } else { ToRegContained(sc, e, reg, d, cs); }
  }

  /** A fresh temporary: the next free register is below the mark once reserved. */
  lemma {:induction false} Reserved(sc: Scope, cs: CS)
    requires RegTop(sc) <= cs.maxr
    ensures Target(sc, cs.free, Reserve(cs)) && cs.free < Reserve(cs).maxr && cs.maxr <= Reserve(cs).maxr && (Limited(cs) ==> Limited(Reserve(cs)))
  {
    hide RegTop;
  }

  lemma {:induction false} OperandContained(sc: Scope, e: Expr, d: nat, cs: CS)
    requires RegTop(sc) <= cs.maxr
    ensures Contained(COperand(sc, e, d, cs), cs) && OperandReg(sc, e, cs) < COperand(sc, e, d, cs).cs.maxr
    decreases e, 5
  {
    hide CToReg, RegTop, Fits, FindLocal;
    if PlainLocal(sc, e).Some? {
      PlainBelow(sc, e);
    } else {
      Reserved(sc, cs);
      ToRegContained(sc, e, cs.free, d, Reserve(cs));
    }
  }

  lemma {:induction false} StepContained(sc: Scope, e: Expr, reg: nat, d: nat, cs0: CS)
    requires Target(sc, reg, cs0)
    ensures Contained(CStep(sc, e, reg, d, cs0), cs0) && reg < CStep(sc, e, reg, d, cs0).cs.maxr
    decreases e, 3
  {
    hide CToReg, CLeft, RegTop, FindLocal, IndexOf, COperand, CLogical, CCompareTest, CArith, FinishIndex, FinishField, CUnop, CName, CConst, CInt;
    var cs := Preamble(reg, cs0);
    assert reg < cs.maxr && RegTop(sc) <= cs.maxr && (Limited(cs0) ==> Limited(cs));
    match e
    case Paren(x) => ToRegContained(sc, x, reg, d, cs);
    case Un(op, x) => UnopContained(sc, op, x, reg, d, cs);
    case Field(t, f) => FieldContained(sc, t, f, reg, d, cs);
    case Index(t, k) => IndexContained(sc, t, k, reg, d, cs);
    case Bin(_, _, _) => StepBinContained(sc, e, reg, d, cs);
    case Name(x) => NameContained(sc, x, reg, cs);
    case _ => LeafContained(sc, e, reg, d, cs0);
  }

  /** Expressions without parts. */
  lemma {:induction false} LeafContained(sc: Scope, e: Expr, reg: nat, d: nat, cs: CS)
    requires Target(sc, reg, cs) && (e.NilE? || e.TrueE? || e.FalseE? || e.IntE? || e.StrE?)
    ensures Contained(CStep(sc, e, reg, d, cs), cs)
  {
    hide RegTop, IndexOf;
  }

  lemma {:induction false} UnopContained(sc: Scope, op: UnOp, x: Expr, reg: nat, d: nat, cs: CS)
    requires RegTop(sc) <= cs.maxr && reg < cs.maxr
    ensures Contained(CUnop(sc, op, x, reg, d, cs), cs)
    decreases x, 6
  {
    hide CToReg, RegTop, FindLocal, AllUse;
    if PlainLocal(sc, x).Some? {
      PlainBelow(sc, x);
      OneUse(Unary(op, reg, PlainLocal(sc, x).value), cs.maxr);
    } else if reg < RegTop(sc) {
      var g := CToReg(sc, x, cs.free, d, Reserve(cs));
      Reserved(sc, cs);
      ToRegContained(sc, x, cs.free, d, Reserve(cs));
      OneUse(Unary(op, reg, cs.free), g.cs.maxr);
      Ended(g, [Unary(op, reg, cs.free)], cs.free, Reserve(cs));
      After(Frag(g.code + [Unary(op, reg, cs.free)], g.cs.(free := cs.free)), cs, Reserve(cs));
    } else {
      var g := CToReg(sc, x, reg, d, cs);
      ToRegContained(sc, x, reg, d, cs);
      OneUse(Unary(op, reg, reg), g.cs.maxr);
      Ended(g, [Unary(op, reg, reg)], g.cs.free, cs);
    }
  }

  lemma {:induction false} StepBinContained(sc: Scope, e: Expr, reg: nat, d: nat, cs: CS)
    requires e.Bin? && RegTop(sc) <= cs.maxr && reg < cs.maxr && reg < cs.free
    ensures Contained(CStep(sc, e, reg, d, cs), cs)
    decreases e, 2
  {
    hide CToReg, CLeft, RegTop, FindLocal, CCompareTest, CArith, CLogical, Contained;
    if e.op.And? || e.op.Or? { LogicalContained(sc, e, reg, d, cs); }
    else if IsComparison(e.op) { CompareContained(sc, e, reg, d, cs); }
    else { ArithContained(sc, e, reg, d, cs); }
  }

  lemma FinishFieldContained(x: string, reg: nat, tableReg: nat, needFree: bool, cs: CS)
    requires reg < cs.maxr && tableReg < cs.maxr
    ensures Contained(FinishField(x, reg, tableReg, needFree, cs), cs)
  {
    hide IndexOf;
  }

  lemma {:induction false} FieldContained(sc: Scope, t: Expr, f: string, reg: nat, d: nat, cs: CS)
    requires RegTop(sc) <= cs.maxr && reg < cs.maxr && reg < cs.free
    ensures Contained(CStep(sc, Field(t, f), reg, d, cs), cs)
    decreases t, 6
  {
    hide CLeft, RegTop, FindLocal, FinishField, Fits;
    Reserved(sc, cs);
    if PlainLocal(sc, t).Some? {
      PlainBelow(sc, t);
      FinishFieldContained(f, reg, PlainLocal(sc, t).value, false, cs);
    } else if reg < |sc| {
      var g := CLeft(sc, t, cs.free, d, Reserve(cs));
      LeftContained(sc, t, cs.free, d, Reserve(cs));
      FinishFieldContained(f, reg, cs.free, true, g.cs);
      Chained(g, FinishField(f, reg, cs.free, true, g.cs), Reserve(cs), g.cs);
    } else {
      var g := CLeft(sc, t, reg, d, cs);
      LeftContained(sc, t, reg, d, cs);
      FinishFieldContained(f, reg, reg, false, g.cs);
      Chained(g, FinishField(f, reg, reg, false, g.cs), cs, g.cs);
    }
  }

  lemma {:induction false} FinishIndexContained(sc: Scope, k: Expr, reg: nat, tableReg: nat, needFree: bool, d: nat, cs: CS)
    requires RegTop(sc) <= cs.maxr && reg < cs.maxr && tableReg < cs.maxr
    ensures Contained(FinishIndex(sc, k, reg, tableReg, needFree, d, cs), cs)
    decreases k, 6
  {
    hide CToReg, RegTop;
    Reserved(sc, cs);
    ToRegContained(sc, k, cs.free, d, Reserve(cs));
  }

  lemma {:induction false} IndexContained(sc: Scope, t: Expr, k: Expr, reg: nat, d: nat, cs: CS)
    requires RegTop(sc) <= cs.maxr && reg < cs.maxr && reg < cs.free
    ensures Contained(CStep(sc, Index(t, k), reg, d, cs), cs)
    decreases Index(t, k), 2
  {
    hide CLeft, RegTop, FindLocal, FinishIndex, Fits;
    Reserved(sc, cs);
    if PlainLocal(sc, t).Some? {
      PlainBelow(sc, t);
      FinishIndexContained(sc, k, reg, PlainLocal(sc, t).value, false, d, cs);
    } else if reg < |sc| {
      var g := CLeft(sc, t, cs.free, d, Reserve(cs));
      LeftContained(sc, t, cs.free, d, Reserve(cs));
      FinishIndexContained(sc, k, reg, cs.free, true, d, g.cs);
      Chained(g, FinishIndex(sc, k, reg, cs.free, true, d, g.cs), Reserve(cs), g.cs);
    } else {
      var g := CLeft(sc, t, reg, d, cs);
      LeftContained(sc, t, reg, d, cs);
      FinishIndexContained(sc, k, reg, reg, false, d, g.cs);
      Chained(g, FinishIndex(sc, k, reg, reg, false, d, g.cs), cs, g.cs);
    }
  }

  lemma {:induction false} BinopContained(sc: Scope, op: BinOp, r: Expr, reg: nat, base: nat, leftReg: nat, d: nat, cs: CS)
    requires RegTop(sc) <= cs.maxr && reg < cs.maxr && leftReg < cs.maxr
    ensures Contained(FinishBinop(sc, op, r, reg, base, leftReg, d, cs), cs)
    decreases r, 6
  {
    hide CToReg, RegTop, FindLocal;
    if PlainLocal(sc, r).Some? { PlainBelow(sc, r); }
    ToRegContained(sc, r, cs.free, d, cs);
  }

  lemma {:induction false} ArithContained(sc: Scope, e: Expr, reg: nat, d: nat, cs: CS)
    requires e.Bin? && RegTop(sc) <= cs.maxr && reg < cs.maxr && reg < cs.free
    ensures Contained(CArith(sc, e, reg, d, cs), cs)
    decreases e, 1
  {
    hide CLeft, RegTop, FindLocal, FinishBinop, COperand, NumericValue, IndexOf, AllUse;
    var (op, l, r) := (e.op, e.l, e.r);
    Reserved(sc, cs);
    if NumericValue(e).Some? {
      FoldedContained(reg, cs, NumericValue(e).value);
    } else if (op.Add? || op.Sub?) && SmallIntConst(r).Some? {
      ImmediateContained(sc, op, l, SmallIntConst(r).value, reg, d, cs);
    } else if op.Add? && SmallIntConst(l).Some? {
      var (imm, rr, g) := (SmallIntConst(l).value, OperandReg(sc, r, cs), COperand(sc, r, d, cs));
      OperandContained(sc, r, d, cs);
      PairUses(Add, reg, rr, imm, 1, g.cs.maxr);
      Ended(g, [AddI(reg, rr, imm), MmBinI(rr, imm, Add, 1)], if PlainLocal(sc, r).Some? then g.cs.free else rr, cs);
    } else {
      RegistersContained(sc, op, l, r, reg, d, cs);
    }
  }

  lemma FoldedContained(reg: nat, cs: CS, n: Int64)
    requires reg < cs.maxr && reg < cs.free
    ensures Contained(CInt(n, reg, Preamble(reg, cs)), cs)
  {
    hide IndexOf;
  }

  lemma PairUses(tm: BinOp, reg: nat, left: nat, imm: int, k: nat, n: nat)
    requires reg < n && left < n && -127 <= imm <= 127 && k < 2
    ensures AllUse([AddI(reg, left, imm), MmBinI(left, imm, tm, k)], n) && AllUse(ImmediatePair(tm, reg, left, imm), n)
  {
  }

  lemma {:induction false} ImmediateContained(sc: Scope, op: BinOp, l: Expr, imm: int, reg: nat, d: nat, cs: CS)
    requires RegTop(sc) <= cs.maxr && reg < cs.maxr && -127 <= imm <= 127
    ensures PlainLocal(sc, l).Some? ==> Contained(Frag(ImmediatePair(op, reg, PlainLocal(sc, l).value, imm), cs), cs)
    ensures var g := CLeft(sc, l, cs.free, d, Reserve(cs)); Contained(Then(g, FinishImmediate(op, reg, cs.free, imm, g.cs)), cs)
    decreases l, 6
  {
    hide CLeft, RegTop, FindLocal, AllUse;
    Reserved(sc, cs);
    if PlainLocal(sc, l).Some? {
      PlainBelow(sc, l);
      PairUses(op, reg, PlainLocal(sc, l).value, imm, 0, cs.maxr);
    }
    var g := CLeft(sc, l, cs.free, d, Reserve(cs));
    LeftContained(sc, l, cs.free, d, Reserve(cs));
    if g.cs.err == NoError { PairUses(op, reg, cs.free, imm, 0, g.cs.maxr); }
    Ended(g, ImmediatePair(op, reg, cs.free, imm), cs.free, Reserve(cs));
    After(Then(g, FinishImmediate(op, reg, cs.free, imm, g.cs)), cs, Reserve(cs));
  }

  lemma {:induction false} RegistersContained(sc: Scope, op: BinOp, l: Expr, r: Expr, reg: nat, d: nat, cs: CS)
    requires RegTop(sc) <= cs.maxr && reg < cs.maxr
    ensures var base := Max(cs.free, |sc|);
            && (PlainLocal(sc, l).Some? ==> Contained(FinishBinop(sc, op, r, reg, base, PlainLocal(sc, l).value, d, cs), cs))
            && (var g := CLeft(sc, l, cs.free, d, Reserve(cs)); Contained(Then(g, FinishBinop(sc, op, r, reg, base, cs.free, d, g.cs.(free := cs.free + 1))), cs))
            && (var g := CLeft(sc, l, reg, d, cs); Contained(Then(g, FinishBinop(sc, op, r, reg, base, reg, d, g.cs.(free := base))), cs))
    decreases Bin(op, l, r), 0
  {
    hide CLeft, RegTop, FindLocal, FinishBinop, AllUse;
    var base := Max(cs.free, |sc|);
    Reserved(sc, cs);
    if PlainLocal(sc, l).Some? {
      PlainBelow(sc, l);
      BinopContained(sc, op, r, reg, base, PlainLocal(sc, l).value, d, cs);
    }
    TempLeft(sc, op, l, r, reg, d, cs, base);
    var g := CLeft(sc, l, reg, d, cs);
    LeftContained(sc, l, reg, d, cs);
    var cs1 := g.cs.(free := base);
    BinopContained(sc, op, r, reg, base, reg, d, cs1);
    Chained(g, FinishBinop(sc, op, r, reg, base, reg, d, cs1), cs, cs1);
  }

  lemma {:induction false} TempLeft(sc: Scope, op: BinOp, l: Expr, r: Expr, reg: nat, d: nat, cs: CS, base: nat)
    requires RegTop(sc) <= cs.maxr && reg < cs.maxr
    ensures var g := CLeft(sc, l, cs.free, d, Reserve(cs)); Contained(Then(g, FinishBinop(sc, op, r, reg, base, cs.free, d, g.cs.(free := cs.free + 1))), cs)
    decreases Bin(op, l, r), 0, 0
  {
    hide CLeft, RegTop, FindLocal, FinishBinop, AllUse;
    Reserved(sc, cs);
    var g := CLeft(sc, l, cs.free, d, Reserve(cs));
    LeftContained(sc, l, cs.free, d, Reserve(cs));
    var cs1 := g.cs.(free := cs.free + 1);
    var h := FinishBinop(sc, op, r, reg, base, cs.free, d, cs1);
    BinopContained(sc, op, r, reg, base, cs.free, d, cs1);
    Chained(g, h, Reserve(cs), cs1);
    After(Then(g, h), cs, Reserve(cs));
  }

  lemma {:induction false} CompareContained(sc: Scope, e: Expr, reg: nat, d: nat, cs: CS)
    requires e.Bin? && RegTop(sc) <= cs.maxr && reg < cs.maxr
    ensures Contained(CCompare(sc, e, reg, d, cs), cs)
    decreases e, 1, 1
  {
    hide CCompareTest, RegTop;
    TestContained(sc, e, false, d, cs);
    var g := CCompareTest(sc, e, false, d, cs);
    Ended(g, [Jmp(2), LoadTrue(reg), Jmp(1), LoadFalse(reg)], cs.free, cs);
  }

  /** One instruction on an operand. */
  lemma {:induction false} OperandTest(sc: Scope, x: Expr, d: nat, cs: CS, i: Instr, free: nat)
    requires RegTop(sc) <= cs.maxr && forall n :: OperandReg(sc, x, cs) < n ==> Fits(i, n)
    ensures var g := COperand(sc, x, d, cs); Contained(Frag(g.code + [i], g.cs.(free := free)), cs)
    decreases x, 6
  {
    hide COperand, RegTop, Fits;
    OperandContained(sc, x, d, cs);
    Ended(COperand(sc, x, d, cs), [i], free, cs);
  }

  lemma Pooled(f: Frag, cs: CS, v: Value)
    requires Contained(f, AddConst(cs, v))
    ensures Contained(f, cs)
  {
    hide AllUse, IndexOf;
  }

  lemma {:induction false} TestContained(sc: Scope, e: Expr, inv: bool, d: nat, cs: CS)
    requires e.Bin? && RegTop(sc) <= cs.maxr
    ensures Contained(CCompareTest(sc, e, inv, d, cs), cs)
    decreases e, 1, 0
  {
    hide COperand, CRegisterTest, RegTop, FindLocal, IndexOf, Contained, OperandReg;
    var (op, l, r) := (e.op, e.l, e.r);
    RegisterTestContained(sc, e, inv, d, cs);
    if op.Eq? || op.Ne? {
      var k := KFlag(op.Ne? != inv);
      var (x, c) := if IsImmediateEqConst(r) then (l, r) else (r, l);
      if SmallIntConst(c).Some? {
        OperandTest(sc, x, d, cs, EqI(OperandReg(sc, x, cs), SmallIntConst(c).value, k), cs.free);
      } else if c.StrE? {
        var (v, cs1) := (Str(c.text), AddConst(cs, Str(c.text)));
        if ConstIndex(cs, v) <= MAX_ARG_B {
          OperandTest(sc, x, d, cs1, EqK(OperandReg(sc, x, cs1), ConstIndex(cs, v), k), cs.free);
          Pooled(Frag(COperand(sc, x, d, cs1).code + [EqK(OperandReg(sc, x, cs1), ConstIndex(cs, v), k)], COperand(sc, x, d, cs1).cs.(free := cs.free)), cs, v);
        }
        RegisterTestContained(sc, e, inv, d, cs1);
        Pooled(CRegisterTest(sc, e, inv, d, cs1), cs, v);
      }
    } else if SmallIntConst(r).Some? {
      OperandTest(sc, l, d, cs, OrderImmediate(op, OperandReg(sc, l, cs), SmallIntConst(r).value, KFlag(inv)), cs.free);
    } else if SmallIntConst(l).Some? {
      OperandTest(sc, r, d, cs, OrderImmediate(Mirror(op), OperandReg(sc, r, cs), SmallIntConst(l).value, KFlag(inv)), cs.free);
    }
  }

  lemma {:induction false} RegisterTestContained(sc: Scope, e: Expr, inv: bool, d: nat, cs: CS)
    requires e.Bin? && RegTop(sc) <= cs.maxr
    ensures Contained(CRegisterTest(sc, e, inv, d, cs), cs)
    decreases e, 0
  {
    hide COperand, RegTop, AllUse, OperandReg;
    var g := COperand(sc, e.l, d, cs);
    var h := COperand(sc, e.r, d, g.cs);
    OperandContained(sc, e.l, d, cs);
    OperandContained(sc, e.r, d, g.cs);
    Chained(g, h, cs, g.cs);
    var i := RegisterCompare(e.op, OperandReg(sc, e.l, cs), OperandReg(sc, e.r, g.cs), inv);
    OneUse(i, h.cs.maxr);
    Ended(Then(g, h), [i], cs.free, cs);
  }

  lemma OneUse(i: Instr, n: nat)
    ensures Fits(i, n) ==> AllUse([i], n)
  {
  }

  lemma {:induction false} LogicalContained(sc: Scope, e: Expr, reg: nat, d: nat, cs: CS)
    requires e.Bin? && RegTop(sc) <= cs.maxr && reg < cs.maxr && reg < cs.free
    ensures Contained(CLogical(sc, e, reg, d, cs), cs)
    decreases e, 1, 1
  {
    hide CLeft, CToReg, CCompareTest, RegTop, AllUse, FinishTest, FinishTestSet;
    var isOr := e.op.Or?;
    if e.l.Bin? && IsComparison(e.l.op) {
      FusedContained(sc, e, reg, d, cs);
    } else if reg < |sc| {
      var g := CLeft(sc, e.l, cs.free, d, Reserve(cs));
      Reserved(sc, cs);
      LeftContained(sc, e.l, cs.free, d, Reserve(cs));
      var h := FinishTestSet(sc, e.r, reg, cs.free, KFlag(isOr), d, g.cs);
      TestSetContained(sc, e.r, reg, cs.free, KFlag(isOr), d, g.cs);
      Chained(g, h, Reserve(cs), g.cs);
      After(Then(g, h), cs, Reserve(cs));
    } else {
      var g := CLeft(sc, e.l, reg, d, cs);
      LeftContained(sc, e.l, reg, d, cs);
      FinishTestContained(sc, e.r, reg, KFlag(isOr), d, g.cs);
      Chained(g, FinishTest(sc, e.r, reg, KFlag(isOr), d, g.cs), cs, g.cs);
    }
  }

  lemma {:induction false} FusedContained(sc: Scope, e: Expr, reg: nat, d: nat, cs: CS)
    requires e.Bin? && e.l.Bin? && RegTop(sc) <= cs.maxr && reg < cs.maxr
    ensures var isOr := e.op.Or?;
            var g := CCompareTest(sc, e.l, isOr, d, cs);
            var h := CToReg(sc, e.r, reg, d, g.cs);
            Contained(Frag(g.code + [Jmp(|h.code| + 1)] + h.code + [Jmp(1), if isOr then LoadTrue(reg) else LoadFalse(reg)], h.cs), cs)
    decreases e, 1, 0
  {
    hide CToReg, CCompareTest, RegTop, AllUse;
    var isOr := e.op.Or?;
    var g := CCompareTest(sc, e.l, isOr, d, cs);
    var h := CToReg(sc, e.r, reg, d, g.cs);
    TestContained(sc, e.l, isOr, d, cs);
    ToRegContained(sc, e.r, reg, d, g.cs);
    var jump := [Jmp(|h.code| + 1)];
    var last := [Jmp(1), if isOr then LoadTrue(reg) else LoadFalse(reg)];
    FewUse(jump, last, reg, h.cs.maxr, g.cs.maxr);
    Ended(g, jump, g.cs.free, cs);
    var g1 := Frag(g.code + jump, g.cs);
    Chained(g1, h, cs, g.cs);
    Ended(Then(g1, h), last, h.cs.free, cs);
  }

  lemma FewUse(jump: seq<Instr>, last: seq<Instr>, reg: nat, n: nat, m: nat)
    requires |jump| == 1 && jump[0].Jmp? && |last| == 2 && last[0].Jmp? && (last[1] == LoadTrue(reg) || last[1] == LoadFalse(reg))
    ensures AllUse(jump, m) && (reg < n ==> AllUse(last, n))
  {
  }

  /** Two instructions before the right operand. */
  lemma Led(head: seq<Instr>, h: Frag, cs: CS, free: nat)
    requires Contained(h, cs) && AllUse(head, cs.maxr)
    ensures Contained(Frag(head + h.code, h.cs.(free := free)), cs)
  {
    hide Fits;
    if h.cs.err == NoError {
      Wider(head, cs.maxr, h.cs.maxr);
      Both(head, h.code, h.cs.maxr);
    }
  }

  lemma {:induction false} TestSetContained(sc: Scope, r: Expr, reg: nat, tmp: nat, k: nat, d: nat, cs: CS)
    requires RegTop(sc) <= cs.maxr && reg < cs.maxr && (cs.err == NoError ==> tmp < cs.maxr) && k < 2
    ensures Contained(FinishTestSet(sc, r, reg, tmp, k, d, cs), cs)
    decreases r, 6
  {
    hide CToReg, RegTop;
    var h := CToReg(sc, r, reg, d, cs);
    ToRegContained(sc, r, reg, d, cs);
    if cs.err == NoError { Led([TestSet(reg, tmp, k), Jmp(|h.code|)], h, cs, tmp); }
  }

  lemma {:induction false} FinishTestContained(sc: Scope, r: Expr, reg: nat, k: nat, d: nat, cs: CS)
    requires RegTop(sc) <= cs.maxr && reg < cs.maxr && k < 2
    ensures Contained(FinishTest(sc, r, reg, k, d, cs), cs)
    decreases r, 6
  {
    hide CToReg, RegTop;
    var cs1 := cs.(free := reg + 1);
    var h := CToReg(sc, r, reg, d, cs1);
    ToRegContained(sc, r, reg, d, cs1);
    Led([Test(reg, k), Jmp(|h.code|)], h, cs1, h.cs.free);
  }
}
