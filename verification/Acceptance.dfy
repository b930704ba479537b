/**
 Why the compiler refuses an expression: only for registers beyond the limit or for
 nesting beyond the limit.
*/
module Acceptance {
  import opened Wrappers
  import opened LuaValues
  import opened LuaSource
  import opened Machine
  import opened ExprSpec
  import Nesting

  /** The first error stays; a new one is that the register mark is over the limit or, if it does not fit, the nesting. */
  predicate Only(cs: CS, cs': CS, fits: bool) {
    && cs'.lim == cs.lim && cs'.varLim == cs.varLim && cs.maxr <= cs'.maxr
    && (cs'.err == cs.err ||
        (cs.err == NoError && ((cs'.err == TooManyRegisters && cs'.maxr > cs'.lim) || (cs'.err == StackOverflow && !fits))))
  }

  predicate Fits(d: nat, e: Expr) {
    Nesting.Fits(d, Nesting.ToRegDepth(e))
  }

  predicate LeftFits(d: nat, e: Expr) {
    Nesting.Fits(d, Nesting.LeftDepth(e))
  }

  lemma {:induction false} ToRegOnly(sc: Scope, e: Expr, reg: nat, d: nat, cs: CS)
    ensures Only(cs, CToReg(sc, e, reg, d, cs).cs, Fits(d, e))
    decreases e, 4
  {
    hide CStep;
    StepOnly(sc, e, reg, d + 1, cs);
  }

  lemma {:induction false} LeftOnly(sc: Scope, e: Expr, reg: nat, d: nat, cs: CS)
    ensures Only(cs, CLeft(sc, e, reg, d, cs).cs, LeftFits(d, e))
    decreases e, 5
  {
    hide CStep, CToReg;
    if SpineLink(e) { StepOnly(sc, e, reg, d, cs); } else { ToRegOnly(sc, e, reg, d, cs); }
  }

  lemma {:induction false} OperandOnly(sc: Scope, e: Expr, d: nat, cs: CS)
    ensures Only(cs, COperand(sc, e, d, cs).cs, Fits(d, e))
    decreases e, 5
  {
    hide CToReg, Fits, FindLocal;
    ToRegOnly(sc, e, cs.free, d, Reserve(cs));
  }

  lemma {:induction false} StepOnly(sc: Scope, e: Expr, reg: nat, d: nat, cs0: CS)
    ensures Only(cs0, CStep(sc, e, reg, d, cs0).cs, Nesting.Fits(d, Nesting.StepDepth(e)))
    decreases e, 3
  {
    hide CToReg, CLeft, RegTop, FindLocal, IndexOf, COperand, CLogical, CCompareTest, CArith, FinishIndex, FinishField, CUnop, CName;
    var cs := Preamble(reg, cs0);
    match e
    case Paren(x) => ToRegOnly(sc, x, reg, d, cs);
    case Un(op, x) => UnopOnly(sc, op, x, reg, d, cs);
    case Field(t, f) => FieldOnly(sc, t, f, reg, d, cs);
    case Index(t, k) => IndexOnly(sc, t, k, reg, d, cs);
    case Bin(_, _, _) => StepBinOnly(sc, e, reg, d, cs);
    case Name(x) => NameOnly(sc, x, reg, cs);
    case _ =>
  }

  lemma NameOnly(sc: Scope, x: string, reg: nat, cs: CS)
    ensures Only(cs, CName(sc, x, reg, cs).cs, true)
  {
    hide FindLocal, IndexOf;
  }

  lemma {:induction false} UnopOnly(sc: Scope, op: UnOp, x: Expr, reg: nat, d: nat, cs: CS)
    ensures Only(cs, CUnop(sc, op, x, reg, d, cs).cs, Fits(d, x))
    decreases x, 6
  {
    hide CToReg, RegTop, FindLocal, Fits;
    ToRegOnly(sc, x, cs.free, d, Reserve(cs));
    ToRegOnly(sc, x, reg, d, cs);
  }

  lemma {:induction false} StepBinOnly(sc: Scope, e: Expr, reg: nat, d: nat, cs: CS)
    requires e.Bin? && cs.free > reg
    ensures Only(cs, CStep(sc, e, reg, d, cs).cs, Nesting.Fits(d, Nesting.StepDepth(e)))
    decreases e, 2
  {
    hide CToReg, CLeft, RegTop, FindLocal, CCompareTest, CArith, CLogical;
    if IsComparison(e.op) { CompareFits(d, e); }
    if e.op.And? || e.op.Or? { LogicalOnly(sc, e, reg, d, cs); }
    else if IsComparison(e.op) { CompareOnly(sc, e, false, d, cs); }
    else { ArithOnly(sc, e, reg, d, cs); }
  }

  lemma FinishFieldOnly(x: string, reg: nat, tableReg: nat, needFree: bool, cs: CS)
    ensures Only(cs, FinishField(x, reg, tableReg, needFree, cs).cs, true)
  {
    hide IndexOf;
  }

  lemma {:induction false} FieldOnly(sc: Scope, t: Expr, f: string, reg: nat, d: nat, cs: CS)
    requires cs.free > reg
    ensures Only(cs, CStep(sc, Field(t, f), reg, d, cs).cs, LeftFits(d, t))
    decreases t, 6
  {
    hide CLeft, RegTop, FindLocal, FinishField, LeftFits;
    LeftOnly(sc, t, cs.free, d, Reserve(cs));
    LeftOnly(sc, t, reg, d, cs);
    var g := CLeft(sc, t, cs.free, d, Reserve(cs));
    var h := CLeft(sc, t, reg, d, cs);
    FinishFieldOnly(f, reg, cs.free, true, g.cs);
    FinishFieldOnly(f, reg, reg, false, h.cs);
    if PlainLocal(sc, t).Some? { FinishFieldOnly(f, reg, PlainLocal(sc, t).value, false, cs); }
  }

  lemma {:induction false} FinishIndexOnly(sc: Scope, k: Expr, reg: nat, tableReg: nat, needFree: bool, d: nat, cs: CS)
    ensures Only(cs, FinishIndex(sc, k, reg, tableReg, needFree, d, cs).cs, Fits(d, k))
    decreases k, 6
  {
    hide CToReg, Fits;
    ToRegOnly(sc, k, cs.free, d, Reserve(cs));
  }

  lemma {:induction false} IndexOnly(sc: Scope, t: Expr, k: Expr, reg: nat, d: nat, cs: CS)
    requires cs.free > reg
    ensures Only(cs, CStep(sc, Index(t, k), reg, d, cs).cs, LeftFits(d, t) && Fits(d, k))
    decreases Index(t, k), 2
  {
    hide CLeft, RegTop, FindLocal, FinishIndex, LeftFits, Fits;
    LeftOnly(sc, t, cs.free, d, Reserve(cs));
    LeftOnly(sc, t, reg, d, cs);
    var g := CLeft(sc, t, cs.free, d, Reserve(cs));
    var h := CLeft(sc, t, reg, d, cs);
    FinishIndexOnly(sc, k, reg, cs.free, true, d, g.cs);
    FinishIndexOnly(sc, k, reg, reg, false, d, h.cs);
    if PlainLocal(sc, t).Some? { FinishIndexOnly(sc, k, reg, PlainLocal(sc, t).value, false, d, cs); }
  }

  lemma {:induction false} BinopOnly(sc: Scope, op: BinOp, r: Expr, reg: nat, base: nat, leftReg: nat, d: nat, cs: CS)
    ensures Only(cs, FinishBinop(sc, op, r, reg, base, leftReg, d, cs).cs, Fits(d, r))
    decreases r, 6
  {
    hide CToReg, Fits;
    ToRegOnly(sc, r, cs.free, d, cs);
  }

  lemma {:induction false} ArithOnly(sc: Scope, e: Expr, reg: nat, d: nat, cs: CS)
    requires e.Bin?
    ensures Only(cs, CArith(sc, e, reg, d, cs).cs, LeftFits(d, e.l) && Fits(d, e.r))
    decreases e, 1
  {
    hide CLeft, RegTop, FindLocal, FinishBinop, COperand, NumericValue, IndexOf, Fits, LeftFits;
    var (op, l, r) := (e.op, e.l, e.r);
    SomeFit(d, r);
    if NumericValue(e).Some? {
    } else if (op.Add? || op.Sub?) && SmallIntConst(r).Some? {
      TempLeftOnly(sc, l, d, cs);
    } else if op.Add? && SmallIntConst(l).Some? {
      OperandOnly(sc, r, d, cs);
    } else {
      BothOnly(sc, op, l, r, reg, d, cs);
    }
  }

  lemma {:induction false} TempLeftOnly(sc: Scope, l: Expr, d: nat, cs: CS)
    ensures Only(cs, CLeft(sc, l, cs.free, d, Reserve(cs)).cs, LeftFits(d, l))
    decreases l, 6
  {
    hide CLeft, LeftFits;
    LeftOnly(sc, l, cs.free, d, Reserve(cs));
  }

  lemma {:induction false} BothOnly(sc: Scope, op: BinOp, l: Expr, r: Expr, reg: nat, d: nat, cs: CS)
    ensures var (base, fits) := (Max(cs.free, |sc|), LeftFits(d, l) && Fits(d, r));
            && (PlainLocal(sc, l).Some? ==> Only(cs, FinishBinop(sc, op, r, reg, base, PlainLocal(sc, l).value, d, cs).cs, fits))
            && (var g := CLeft(sc, l, cs.free, d, Reserve(cs)); Only(cs, FinishBinop(sc, op, r, reg, base, cs.free, d, g.cs.(free := cs.free + 1)).cs, fits))
            && (var g := CLeft(sc, l, reg, d, cs); Only(cs, FinishBinop(sc, op, r, reg, base, reg, d, g.cs.(free := base)).cs, fits))
    decreases Bin(op, l, r), 0
  {
    hide CLeft, RegTop, FindLocal, FinishBinop, Fits, LeftFits, Only, PlainLocal, Reserve;
    var base := Max(cs.free, |sc|);
    var g, h := CLeft(sc, l, cs.free, d, Reserve(cs)), CLeft(sc, l, reg, d, cs);
    TempLeftOnly(sc, l, d, cs);
    LeftOnly(sc, l, reg, d, cs);
    BinopOnly(sc, op, r, reg, base, cs.free, d, g.cs.(free := cs.free + 1));
    InTurn(cs, g.cs, cs.free + 1, FinishBinop(sc, op, r, reg, base, cs.free, d, g.cs.(free := cs.free + 1)).cs, LeftFits(d, l), Fits(d, r));
    BinopOnly(sc, op, r, reg, base, reg, d, h.cs.(free := base));
    InTurn(cs, h.cs, base, FinishBinop(sc, op, r, reg, base, reg, d, h.cs.(free := base)).cs, LeftFits(d, l), Fits(d, r));
    if PlainLocal(sc, l).Some? {
      BinopOnly(sc, op, r, reg, base, PlainLocal(sc, l).value, d, cs);
      Weaker(cs, FinishBinop(sc, op, r, reg, base, PlainLocal(sc, l).value, d, cs).cs, Fits(d, r), LeftFits(d, l) && Fits(d, r));
    }
  }

  lemma InTurn(cs: CS, cs1: CS, free: nat, cs2: CS, f: bool, g: bool)
    requires Only(cs, cs1, f) && Only(cs1.(free := free), cs2, g)
    ensures Only(cs, cs2, f && g)
  {
  }

  lemma Weaker(cs: CS, cs': CS, f: bool, g: bool)
    requires Only(cs, cs', f) && (g ==> f)
    ensures Only(cs, cs', g)
  {
  }

  lemma SomeFit(d: nat, e: Expr)
    ensures Fits(d, e) ==> d < 10000
  {
  }

  lemma {:induction false} CompareOnly(sc: Scope, e: Expr, inv: bool, d: nat, cs: CS)
    requires e.Bin?
    ensures Only(cs, CCompareTest(sc, e, inv, d, cs).cs, Fits(d, e.l) && Fits(d, e.r))
    decreases e, 1
  {
    hide COperand, CRegisterTest, RegTop, FindLocal, IndexOf, Fits;
    var (l, r) := (e.l, e.r);
    OperandOnly(sc, l, d, cs);
    OperandOnly(sc, r, d, cs);
    RegistersOnly(sc, e, inv, d, cs);
    var (x, c) := if IsImmediateEqConst(r) then (l, r) else (r, l);
    if c.StrE? {
      OperandOnly(sc, x, d, AddConst(cs, Str(c.text)));
      RegistersOnly(sc, e, inv, d, AddConst(cs, Str(c.text)));
    }
  }

  lemma {:induction false} RegistersOnly(sc: Scope, e: Expr, inv: bool, d: nat, cs: CS)
    requires e.Bin?
    ensures Only(cs, CRegisterTest(sc, e, inv, d, cs).cs, Fits(d, e.l) && Fits(d, e.r))
    decreases e, 0
  {
    hide COperand, Fits;
    OperandOnly(sc, e.l, d, cs);
    OperandOnly(sc, e.r, d, COperand(sc, e.l, d, cs).cs);
  }

  lemma {:induction false} LogicalOnly(sc: Scope, e: Expr, reg: nat, d: nat, cs: CS)
    requires e.Bin?
    ensures Only(cs, CLogical(sc, e, reg, d, cs).cs, LeftFits(d, e.l) && Fits(d, e.r))
    decreases e, 1
  {
    hide CLeft, CToReg, CCompareTest, Fits, LeftFits;
    var isOr := e.op.Or?;
    if e.l.Bin? && IsComparison(e.l.op) {
      CompareFits(d, e.l);
      CompareOnly(sc, e.l, isOr, d, cs);
      ToRegOnly(sc, e.r, reg, d, CCompareTest(sc, e.l, isOr, d, cs).cs);
    } else if reg < |sc| {
      LeftOnly(sc, e.l, cs.free, d, Reserve(cs));
      ToRegOnly(sc, e.r, reg, d, CLeft(sc, e.l, cs.free, d, Reserve(cs)).cs);
    } else {
      LeftOnly(sc, e.l, reg, d, cs);
      ToRegOnly(sc, e.r, reg, d, CLeft(sc, e.l, reg, d, cs).cs.(free := reg + 1));
    }
  }

  lemma CompareFits(d: nat, e: Expr)
    requires e.Bin? && IsComparison(e.op)
    ensures LeftFits(d, e) <==> Fits(d, e.l) && Fits(d, e.r)
  {
    assert Nesting.LeftDepth(e) == Nesting.StepDepth(e) == Max(Nesting.ToRegDepth(e.l), Nesting.ToRegDepth(e.r));
  }
}
