/**
 How deep the compiler recurses: the left spine of an expression costs nothing,
 only operands that are not on it add a level.
*/
module Nesting {
  import opened Wrappers
  import opened LuaValues
  import opened LuaSource
  import opened Machine
  import opened ExprSpec

  /** Levels CStep needs below its own. */
  function StepDepth(e: Expr): nat
    decreases e, 0
  {
    match e
    case Paren(x) => ToRegDepth(x)
    case Un(_, x) => ToRegDepth(x)
    case Field(t, _) => LeftDepth(t)
    case Index(t, k) => Max(LeftDepth(t), ToRegDepth(k))
    case Bin(op, l, r) => Max(if IsComparison(op) then ToRegDepth(l) else LeftDepth(l), ToRegDepth(r))
    case _ => 0
  }

  function ToRegDepth(e: Expr): nat
    decreases e, 1
  {
    1 + StepDepth(e)
  }

  function LeftDepth(e: Expr): nat
    decreases e, 2
  {
    if SpineLink(e) then StepDepth(e) else ToRegDepth(e)
  }

  predicate Fits(d: nat, need: nat) {
    d + need <= 10000
  }

  /** Below the limit an expression is compiled one level deeper, at it the compiler gives up. */
  lemma {:induction false} LimitIs(sc: Scope, e: Expr, reg: nat, d: nat, cs: CS)
    ensures CToReg(sc, e, reg, d, cs) == if d >= 10000 then Frag([], Fail(cs, StackOverflow)) else CStep(sc, e, reg, d + 1, cs)
  {
    hide CStep;
  }

  predicate Overflows(cs: CS) {
    cs.err == StackOverflow
  }

  lemma {:induction false} ToRegFits(sc: Scope, e: Expr, reg: nat, d: nat, cs: CS)
    requires Fits(d, ToRegDepth(e)) && !Overflows(cs)
    ensures !Overflows(CToReg(sc, e, reg, d, cs).cs)
    decreases e, 4
  {
    hide CStep;
    StepFits(sc, e, reg, d + 1, cs);
  }

  lemma {:induction false} LeftFits(sc: Scope, e: Expr, reg: nat, d: nat, cs: CS)
    requires Fits(d, LeftDepth(e)) && !Overflows(cs)
    ensures !Overflows(CLeft(sc, e, reg, d, cs).cs)
    decreases e, 5
  {
    hide CStep, CToReg;
    if SpineLink(e) { StepFits(sc, e, reg, d, cs); } else { ToRegFits(sc, e, reg, d, cs); }
  }

  lemma {:induction false} OperandFits(sc: Scope, e: Expr, d: nat, cs: CS)
    requires Fits(d, ToRegDepth(e)) && !Overflows(cs)
    ensures !Overflows(COperand(sc, e, d, cs).cs)
    decreases e, 5
  {
    hide CToReg;
    ToRegFits(sc, e, cs.free, d, Reserve(cs));
  }

  lemma {:induction false} StepFits(sc: Scope, e: Expr, reg: nat, d: nat, cs0: CS)
    requires Fits(d, StepDepth(e)) && !Overflows(cs0)
    ensures !Overflows(CStep(sc, e, reg, d, cs0).cs)
    decreases e, 3
  {
    hide CToReg, CLeft, RegTop, FindLocal, IndexOf, COperand, CLogical, CCompareTest, CArith, FinishIndex, FinishField, CUnop, CName;
    var cs := Preamble(reg, cs0);
    match e
    case Paren(x) => ToRegFits(sc, x, reg, d, cs);
    case Un(op, x) => UnopFits(sc, op, x, reg, d, cs);
    case Field(t, f) => FieldFits(sc, t, f, reg, d, cs);
    case Index(t, k) => IndexFits(sc, t, k, reg, d, cs);
    case Bin(_, _, _) => StepBinFits(sc, e, reg, d, cs);
    case Name(x) => NameFits(sc, x, reg, cs);
    case _ =>
  }

  lemma NameFits(sc: Scope, x: string, reg: nat, cs: CS)
    requires !Overflows(cs)
    ensures !Overflows(CName(sc, x, reg, cs).cs)
  {
    hide FindLocal, IndexOf;
  }

  lemma {:induction false} UnopFits(sc: Scope, op: UnOp, x: Expr, reg: nat, d: nat, cs: CS)
    requires Fits(d, ToRegDepth(x)) && !Overflows(cs)
    ensures !Overflows(CUnop(sc, op, x, reg, d, cs).cs)
    decreases x, 6
  {
    hide CToReg, RegTop, FindLocal;
    ToRegFits(sc, x, cs.free, d, Reserve(cs));
    ToRegFits(sc, x, reg, d, cs);
  }

  lemma {:induction false} StepBinFits(sc: Scope, e: Expr, reg: nat, d: nat, cs: CS)
    requires e.Bin? && Fits(d, StepDepth(e)) && !Overflows(cs) && cs.free > reg
    ensures !Overflows(CStep(sc, e, reg, d, cs).cs)
    decreases e, 2
  {
    hide CToReg, CLeft, RegTop, FindLocal, CCompareTest, CArith, CLogical;
    if e.op.And? || e.op.Or? { LogicalFits(sc, e, reg, d, cs); }
    else if IsComparison(e.op) { CompareFits(sc, e, false, d, cs); }
    else { ArithFits(sc, e, reg, d, cs); }
  }

  lemma FinishFieldFits(x: string, reg: nat, tableReg: nat, needFree: bool, cs: CS)
    requires !Overflows(cs)
    ensures !Overflows(FinishField(x, reg, tableReg, needFree, cs).cs)
  {
    hide IndexOf;
  }

  lemma {:induction false} FieldFits(sc: Scope, t: Expr, f: string, reg: nat, d: nat, cs: CS)
    requires Fits(d, LeftDepth(t)) && !Overflows(cs) && cs.free > reg
    ensures !Overflows(CStep(sc, Field(t, f), reg, d, cs).cs)
    decreases t, 6
  {
    hide CLeft, RegTop, FindLocal, FinishField;
    LeftFits(sc, t, cs.free, d, Reserve(cs));
    LeftFits(sc, t, reg, d, cs);
    var g := CLeft(sc, t, cs.free, d, Reserve(cs));
    var h := CLeft(sc, t, reg, d, cs);
    FinishFieldFits(f, reg, cs.free, true, g.cs);
    FinishFieldFits(f, reg, reg, false, h.cs);
    if PlainLocal(sc, t).Some? { FinishFieldFits(f, reg, PlainLocal(sc, t).value, false, cs); }
  }

  lemma {:induction false} FinishIndexFits(sc: Scope, k: Expr, reg: nat, tableReg: nat, needFree: bool, d: nat, cs: CS)
    requires Fits(d, ToRegDepth(k)) && !Overflows(cs)
    ensures !Overflows(FinishIndex(sc, k, reg, tableReg, needFree, d, cs).cs)
    decreases k, 6
  {
    hide CToReg;
    ToRegFits(sc, k, cs.free, d, Reserve(cs));
  }

  lemma {:induction false} IndexFits(sc: Scope, t: Expr, k: Expr, reg: nat, d: nat, cs: CS)
    requires Fits(d, LeftDepth(t)) && Fits(d, ToRegDepth(k)) && !Overflows(cs) && cs.free > reg
    ensures !Overflows(CStep(sc, Index(t, k), reg, d, cs).cs)
    decreases Index(t, k), 2
  {
    hide CLeft, RegTop, FindLocal, FinishIndex;
    LeftFits(sc, t, cs.free, d, Reserve(cs));
    LeftFits(sc, t, reg, d, cs);
    var g := CLeft(sc, t, cs.free, d, Reserve(cs));
    var h := CLeft(sc, t, reg, d, cs);
    FinishIndexFits(sc, k, reg, cs.free, true, d, g.cs);
    FinishIndexFits(sc, k, reg, reg, false, d, h.cs);
    if PlainLocal(sc, t).Some? { FinishIndexFits(sc, k, reg, PlainLocal(sc, t).value, false, d, cs); }
  }

  lemma {:induction false} BinopFits(sc: Scope, op: BinOp, r: Expr, reg: nat, base: nat, leftReg: nat, d: nat, cs: CS)
    requires Fits(d, ToRegDepth(r)) && !Overflows(cs)
    ensures !Overflows(FinishBinop(sc, op, r, reg, base, leftReg, d, cs).cs)
    decreases r, 6
  {
    hide CToReg;
    ToRegFits(sc, r, cs.free, d, cs);
  }

  lemma {:induction false} ArithFits(sc: Scope, e: Expr, reg: nat, d: nat, cs: CS)
    requires e.Bin? && Fits(d, LeftDepth(e.l)) && Fits(d, ToRegDepth(e.r)) && !Overflows(cs)
    ensures !Overflows(CArith(sc, e, reg, d, cs).cs)
    decreases e, 1
  {
    hide CLeft, RegTop, FindLocal, FinishBinop, COperand, NumericValue, IndexOf;
    var (op, l, r) := (e.op, e.l, e.r);
    var base := Max(cs.free, |sc|);
    LeftFits(sc, l, cs.free, d, Reserve(cs));
    LeftFits(sc, l, reg, d, cs);
    OperandFits(sc, r, d, cs);
    BinopFits(sc, op, r, reg, base, cs.free, d, CLeft(sc, l, cs.free, d, Reserve(cs)).cs.(free := cs.free + 1));
    BinopFits(sc, op, r, reg, base, reg, d, CLeft(sc, l, reg, d, cs).cs.(free := base));
    if PlainLocal(sc, l).Some? { BinopFits(sc, op, r, reg, base, PlainLocal(sc, l).value, d, cs); }
  }

  lemma {:induction false} CompareFits(sc: Scope, e: Expr, inv: bool, d: nat, cs: CS)
    requires e.Bin? && Fits(d, ToRegDepth(e.l)) && Fits(d, ToRegDepth(e.r)) && !Overflows(cs)
    ensures !Overflows(CCompareTest(sc, e, inv, d, cs).cs)
    decreases e, 1
  {
    hide COperand, CRegisterTest, RegTop, FindLocal, IndexOf;
    var (l, r) := (e.l, e.r);
    OperandFits(sc, l, d, cs);
    OperandFits(sc, r, d, cs);
    RegistersFit(sc, e, inv, d, cs);
    var (x, c) := if IsImmediateEqConst(r) then (l, r) else (r, l);
    if c.StrE? {
      OperandFits(sc, x, d, AddConst(cs, Str(c.text)));
      RegistersFit(sc, e, inv, d, AddConst(cs, Str(c.text)));
    }
  }

  lemma {:induction false} RegistersFit(sc: Scope, e: Expr, inv: bool, d: nat, cs: CS)
    requires e.Bin? && Fits(d, ToRegDepth(e.l)) && Fits(d, ToRegDepth(e.r)) && !Overflows(cs)
    ensures !Overflows(CRegisterTest(sc, e, inv, d, cs).cs)
    decreases e, 0
  {
    hide COperand;
    OperandFits(sc, e.l, d, cs);
    OperandFits(sc, e.r, d, COperand(sc, e.l, d, cs).cs);
  }

  lemma {:induction false} LogicalFits(sc: Scope, e: Expr, reg: nat, d: nat, cs: CS)
    requires e.Bin? && Fits(d, LeftDepth(e.l)) && Fits(d, ToRegDepth(e.r)) && !Overflows(cs)
    ensures !Overflows(CLogical(sc, e, reg, d, cs).cs)
    decreases e, 1
  {
    hide CLeft, CToReg, CCompareTest;
    var isOr := e.op.Or?;
    if e.l.Bin? && IsComparison(e.l.op) {
      CompareFits(sc, e.l, isOr, d, cs);
      ToRegFits(sc, e.r, reg, d, CCompareTest(sc, e.l, isOr, d, cs).cs);
    } else if reg < |sc| {
      LeftFits(sc, e.l, cs.free, d, Reserve(cs));
      ToRegFits(sc, e.r, reg, d, CLeft(sc, e.l, cs.free, d, Reserve(cs)).cs);
    } else {
      LeftFits(sc, e.l, reg, d, cs);
      ToRegFits(sc, e.r, reg, d, CLeft(sc, e.l, reg, d, cs).cs.(free := reg + 1));
    }
  }

  // -- left spines ------------------------------------------------------------------------

  /** x op1 y1 op2 y2 ..., grouped to the left. */
  function LeftChain(x: Expr, links: seq<(BinOp, Expr)>): (e: Expr) {
    if links == [] then x
    else Bin(links[|links| - 1].0, LeftChain(x, links[..|links| - 1]), links[|links| - 1].1)
  }

  /** No operator of a chain but a comparison makes its left operand deeper. */
  lemma {:induction false} ChainDepth(x: Expr, links: seq<(BinOp, Expr)>, n: nat)
    requires LeftDepth(x) <= n && forall i | 0 <= i < |links| :: ToRegDepth(links[i].1) <= n && !IsComparison(links[i].0)
    ensures LeftDepth(LeftChain(x, links)) <= n
  {
    if links != [] {
      ChainDepth(x, links[..|links| - 1], n);
    }
  }

  /** A chain of any length compiles at the depth of its deepest operand. */
  lemma {:induction false} ChainFits(sc: Scope, x: Expr, links: seq<(BinOp, Expr)>, reg: nat, d: nat, cs: CS, n: nat)
    requires LeftDepth(x) <= n && forall i | 0 <= i < |links| :: ToRegDepth(links[i].1) <= n && !IsComparison(links[i].0)
    requires Fits(d, n + 1) && !Overflows(cs)
    ensures !Overflows(CToReg(sc, LeftChain(x, links), reg, d, cs).cs)
  {
    ChainDepth(x, links, n);
    ToRegFits(sc, LeftChain(x, links), reg, d, cs);
  }
}
