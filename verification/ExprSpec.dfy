/**
 What the expression compiler emits, as a recursive function: the code fragment
 and the allocator state after it. Jumps are relative, so a fragment does not
 depend on where it is placed.
*/
module ExprSpec {
  import opened Wrappers
  import opened LuaValues
  import opened LuaSource
  import opened Machine

  const MAX_ARG_B: nat := 255
  const MAX_ARG_C: nat := 255
  const MAX_ARG_BX: nat := 131071
  const OFFSET_SBX: int := 65535
  const OFFSET_SC: int := 127
  const MAX_EXPR_DEPTH: nat := 10000

  // -- locals ------------------------------------------------------------------

  datatype Loc = InReg(r: nat) | Inlined(v: Value)

  datatype LocalVar = LocalVar(name: string, loc: Loc, isConst: bool)

  /** The active locals, oldest first. Inlined constants count here but own no register. */
  type Scope = seq<LocalVar>

  function FindLocal(sc: Scope, x: string): (i: int)
    ensures -1 <= i < |sc|
    ensures i >= 0 ==> sc[i].name == x
  {
    if sc == [] then -1
    else if sc[|sc| - 1].name == x then |sc| - 1
    else FindLocal(sc[..|sc| - 1], x)
  }

  function LookupLocal(sc: Scope, x: string): Option<nat> {
    var i := FindLocal(sc, x);
    if i >= 0 && sc[i].loc.InReg? then Some(sc[i].loc.r) else None
  }

  function LookupInlined(sc: Scope, x: string): Option<Value> {
    var i := FindLocal(sc, x);
    if i >= 0 && sc[i].loc.Inlined? then Some(sc[i].loc.v) else None
  }

  /** The first register past every local that lives in one. */
  function RegTop(sc: Scope): nat {
    if sc == [] then 0
    else
      var top := RegTop(sc[..|sc| - 1]);
      match sc[|sc| - 1].loc
      case InReg(r) => if r + 1 > top then r + 1 else top
      case Inlined(_) => top
  }

  function Unparen(e: Expr): (u: Expr)
    ensures !u.Paren?
  {
    if e.Paren? then Unparen(e.inner) else e
  }

  /** The register of an expression that is a bare local, readable in place. */
  function PlainLocal(sc: Scope, e: Expr): Option<nat> {
    var u := Unparen(e);
    if u.Name? then LookupLocal(sc, u.name) else None
  }

  // -- constant folding ----------------------------------------------------------

  /** Division of machine integers: truncated toward zero, wrapping at the minimum. */
  function TruncDiv(a: int, b: int): int
    requires b != 0
  {
    if a >= 0 then (if b > 0 then a / b else -(a / -b))
    else (if b > 0 then -((-a) / b) else (-a) / (-b))
  }

  function FoldIntOp(op: BinOp, a: Int64, b: Int64): Option<Int64> {
    match op
    case Add => Some(Wrap(a + b))
    case Sub => Some(Wrap(a - b))
    case Mul => Some(Wrap(a * b))
    case IDiv =>
      if b == 0 then None
      else
        var q := Wrap(TruncDiv(a, b));
        if (a < 0) != (b < 0) && Wrap(q * b) != a then Some(Wrap(q - 1)) else Some(q)
    case Mod =>
      if b == 0 then None
      else
        var r := Wrap(a - b * TruncDiv(a, b));
        if r != 0 && (r < 0) != (b < 0) then Some(Wrap(r + b)) else Some(r)
    case BAnd => Some(Wrap(AndBits(Bits(a), Bits(b))))
    case BOr => Some(Wrap(OrBits(Bits(a), Bits(b))))
    case BXor => Some(Wrap(XorBits(Bits(a), Bits(b))))
    case Shl =>
      if b >= 64 || b <= -64 then Some(0)
      else if b < 0 then Some(Wrap(Bits(a) / Pow2(0 - b)))
      else Some(Wrap(Bits(a) * Pow2(b)))
    case Shr =>
      if b >= 64 || b <= -64 then Some(0)
      else if b < 0 then Some(Wrap(Bits(a) * Pow2(0 - b)))
      else Some(Wrap(Bits(a) / Pow2(b)))
    case _ => None
  }

  /** The integer an expression folds to at compile time. Parentheses stop folding. */
  function NumericValue(e: Expr): Option<Int64> {
    match e
    case IntE(n) => Some(n)
    case Bin(op, l, r) =>
      (match (NumericValue(l), NumericValue(r))
       case (Some(a), Some(b)) => FoldIntOp(op, a, b)
       case _ => None)
    case Un(op, x) =>
      (match NumericValue(x)
       case Some(a) =>
         if op.Neg? then Some(Wrap(0 - a)) else if op.BNot? then Some(Wrap(0 - a - 1)) else None
       case None => None)
    case _ => None
  }

  /** A literal that fits the signed 8-bit operand field. */
  function SmallIntConst(e: Expr): Option<int> {
    if e.IntE? && -OFFSET_SC <= e.n <= OFFSET_SC then Some(e.n) else None
  }

  predicate IsImmediateEqConst(e: Expr) {
    SmallIntConst(e).Some? || e.StrE?
  }

  predicate SpineLink(e: Expr) {
    e.Bin? || e.Field? || e.Index? || e.Paren?
  }

  // -- allocator state ---------------------------------------------------------------

  datatype CompileError = NoError | TooManyRegisters | StackOverflow | AssignToConst | InvalidTarget
                        | BreakOutsideLoop | TooManyLocals

  /** Register allocator, constant pool and first error; `lim` and `varLim` are MaxRegs and MaxVars. */
  datatype CS = CS(free: nat, maxr: nat, consts: seq<Value>, err: CompileError, lim: nat, varLim: nat)

  /** Nothing already decided is taken back: constants keep their index, the first error stays. */
  ghost predicate Grows(cs: CS, cs': CS) {
    cs.consts <= cs'.consts && cs.maxr <= cs'.maxr && cs.lim == cs'.lim && cs.varLim == cs'.varLim && (cs'.err == NoError ==> cs.err == NoError)
  }

  /**
   Every live local is below freeReg, and a target that is not treated as a named
   local is the top register. Inlined constants make |sc| exceed RegTop(sc).
  */
  ghost predicate Room(sc: Scope, reg: nat, cs: CS) {
    RegTop(sc) <= |sc| && RegTop(sc) <= cs.free && (reg < |sc| || cs.free <= reg + 1)
  }

  /** What compiling into reg promises about the allocator. */
  ghost predicate Allocates(sc: Scope, reg: nat, cs: CS, cs': CS) {
    Grows(cs, cs') && (Room(sc, reg, cs) && cs'.err == NoError ==> cs'.free >= cs.free && cs'.free > reg)
  }

  datatype Frag = Frag(code: seq<Instr>, cs: CS)

  function Then(f: Frag, g: Frag): Frag {
    Frag(f.code + g.code, g.cs)
  }

  function Fail(cs: CS, e: CompileError): CS {
    if cs.err == NoError then cs.(err := e) else cs
  }

  function Max(a: nat, b: nat): nat {
    if a > b then a else b
  }

  /** Assign freeReg directly and keep the high-water mark. */
  function SetFree(cs: CS, f: nat): CS {
    cs.(free := f, maxr := Max(cs.maxr, f))
  }

  function CheckLimit(cs: CS): CS {
    if cs.free > cs.lim then Fail(cs, TooManyRegisters) else cs
  }

  function Reserve(cs: CS): CS {
    CheckLimit(SetFree(cs, cs.free + 1))
  }

  /** compileExprStep's preamble: the target register is allocated. */
  function Preamble(reg: nat, cs: CS): CS {
    if reg >= cs.free then CheckLimit(SetFree(cs, reg + 1)) else cs
  }

  function IndexOf(s: seq<Value>, v: Value): (i: nat)
    ensures i <= |s| && v !in s[..i] && (i < |s| ==> s[i] == v)
  {
    if s == [] || s[0] == v then 0 else 1 + IndexOf(s[1..], v)
  }

  /** The pool index of v after addConstant. */
  function ConstIndex(cs: CS, v: Value): nat {
    IndexOf(cs.consts, v)
  }

  function AddConst(cs: CS, v: Value): (cs': CS)
    ensures cs.consts <= cs'.consts
    ensures ConstIndex(cs, v) < |cs'.consts| && cs'.consts[ConstIndex(cs, v)] == v
  {
    if ConstIndex(cs, v) < |cs.consts| then cs else cs.(consts := cs.consts + [v])
  }

  // -- leaves ----------------------------------------------------------------------------

  function LoadConst(reg: nat, k: nat): seq<Instr> {
    if k <= MAX_ARG_BX then [LoadK(reg, k)] else [LoadKX(reg), ExtraArg(k)]
  }

  function CConst(v: Value, reg: nat, cs: CS): (f: Frag)
    ensures Grows(cs, f.cs) && f.cs.free == cs.free
  {
    Frag(LoadConst(reg, ConstIndex(cs, v)), AddConst(cs, v))
  }

  function CInt(n: Int64, reg: nat, cs: CS): (f: Frag)
    ensures Grows(cs, f.cs) && f.cs.free == cs.free
  {
    if -OFFSET_SBX <= n <= OFFSET_SBX then Frag([LoadI(reg, n)], cs) else CConst(Int(n), reg, cs)
  }

  function CInlined(v: Value, reg: nat, cs: CS): (f: Frag)
    ensures Grows(cs, f.cs) && f.cs.free == cs.free
  {
    match v
    case Nil => Frag([LoadNil(reg, 0)], cs)
    case Bool(b) => Frag([if b then LoadTrue(reg) else LoadFalse(reg)], cs)
    case Int(n) => CInt(n, reg, cs)
    case Str(_) => CConst(v, reg, cs)
    case Other(_) => Frag([LoadNil(reg, 0)], cs)
  }

  function CGetField(reg: nat, tableReg: nat, x: string, cs: CS): (f: Frag)
    ensures Grows(cs, f.cs) && f.cs.free == cs.free
  {
    var k := ConstIndex(cs, Str(x));
    var cs1 := AddConst(cs, Str(x));
    if k <= MAX_ARG_C then Frag([GetField(reg, tableReg, k)], cs1)
    else
      var key := cs1.free;
      Frag(LoadConst(key, k) + [GetTable(reg, tableReg, key)], Reserve(cs1).(free := cs1.free))
  }

  function CGetTabUp(reg: nat, x: string, cs: CS): (f: Frag)
    ensures Grows(cs, f.cs) && f.cs.free == cs.free
  {
    var k := ConstIndex(cs, Str(x));
    var cs1 := AddConst(cs, Str(x));
    if k <= MAX_ARG_C then Frag([GetTabUp(reg, 0, k)], cs1)
    else
      var env := cs1.free;
      var key := env + 1;
      Frag([GetUpval(env, 0)] + LoadConst(key, k) + [GetTable(reg, env, key)],
           Reserve(Reserve(cs1)).(free := cs1.free))
  }

  function CName(sc: Scope, x: string, reg: nat, cs: CS): (f: Frag)
    ensures Grows(cs, f.cs) && f.cs.free == cs.free
  {
    match LookupInlined(sc, x)
    case Some(v) => CInlined(v, reg, cs)
    case None =>
      match LookupLocal(sc, x)
      case Some(r) => Frag(if r != reg then [Move(reg, r)] else [], cs)
      case None =>
        if x == ENV then Frag([GetUpval(reg, 0)], cs)
        else
          match LookupLocal(sc, ENV)
          case Some(env) => CGetField(reg, env, x, cs)
          case None => CGetTabUp(reg, x, cs)
  }

  // -- the compiler -------------------------------------------------------------------------

  /** compileExprToReg: one more level of nesting. */
  function CToReg(sc: Scope, e: Expr, reg: nat, d: nat, cs: CS): (f: Frag)
    ensures Allocates(sc, reg, cs, f.cs)
    decreases e, 4
  {
    if d >= MAX_EXPR_DEPTH then Frag([], Fail(cs, StackOverflow)) else CStep(sc, e, reg, d + 1, cs)
  }

  /** The leading operand of a spine link: queued, so it stays on this nesting level. */
  function CLeft(sc: Scope, e: Expr, reg: nat, d: nat, cs: CS): (f: Frag)
    ensures Allocates(sc, reg, cs, f.cs)
    decreases e, 5
  {
    if SpineLink(e) then CStep(sc, e, reg, d, cs) else CToReg(sc, e, reg, d, cs)
  }

  /** operandToReg: a bare local is read in place, anything else goes to a fresh register. */
  function OperandReg(sc: Scope, e: Expr, cs: CS): nat {
    match PlainLocal(sc, e)
    case Some(r) => r
    case None => cs.free
  }

  function COperand(sc: Scope, e: Expr, d: nat, cs: CS): (f: Frag)
    ensures Grows(cs, f.cs)
    ensures RegTop(sc) <= |sc| && RegTop(sc) <= cs.free && f.cs.err == NoError ==> f.cs.free >= cs.free && (PlainLocal(sc, e).None? ==> f.cs.free > cs.free)
    decreases e, 5
  {
    if PlainLocal(sc, e).Some? then Frag([], cs) else CToReg(sc, e, cs.free, d, Reserve(cs))
  }

  function CStep(sc: Scope, e: Expr, reg: nat, d: nat, cs0: CS): (f: Frag)
    ensures Allocates(sc, reg, cs0, f.cs)
    decreases e, 3
  {
    var cs := Preamble(reg, cs0);
    match e
    case NilE => Frag([LoadNil(reg, 0)], cs)
    case TrueE => Frag([LoadTrue(reg)], cs)
    case FalseE => Frag([LoadFalse(reg)], cs)
    case IntE(n) => CInt(n, reg, cs)
    case StrE(s) => CConst(Str(s), reg, cs)
    case Name(x) => CName(sc, x, reg, cs)
    case Paren(inner) => CToReg(sc, inner, reg, d, cs)
    case Un(op, x) => CUnop(sc, op, x, reg, d, cs)
    case Field(t, f) =>
      (match PlainLocal(sc, t)
       case Some(r) => FinishField(f, reg, r, false, cs)
       case None =>
         if reg < |sc| then
           var g := CLeft(sc, t, cs.free, d, Reserve(cs));
           Then(g, FinishField(f, reg, cs.free, true, g.cs))
         else
           var g := CLeft(sc, t, reg, d, cs);
           Then(g, FinishField(f, reg, reg, false, g.cs)))
    case Index(t, k) =>
      (match PlainLocal(sc, t)
       case Some(r) => FinishIndex(sc, k, reg, r, false, d, cs)
       case None =>
         if reg < |sc| then
           var g := CLeft(sc, t, cs.free, d, Reserve(cs));
           Then(g, FinishIndex(sc, k, reg, cs.free, true, d, g.cs))
         else
           var g := CLeft(sc, t, reg, d, cs);
           Then(g, FinishIndex(sc, k, reg, reg, false, d, g.cs)))
    case Bin(op, l, r) =>
      if op.And? || op.Or? then CLogical(sc, e, reg, d, cs)
      else if IsComparison(op) then CCompare(sc, e, reg, d, cs)
      else CArith(sc, e, reg, d, cs)
  }

  function CUnop(sc: Scope, op: UnOp, x: Expr, reg: nat, d: nat, cs: CS): (f: Frag)
    ensures cs.free > reg ==> Allocates(sc, reg, cs, f.cs)
    decreases x, 6
  {
    match PlainLocal(sc, x)
    case Some(r) => Frag([Unary(op, reg, r)], cs)
    case None =>
      if reg < RegTop(sc) then
        var g := CToReg(sc, x, cs.free, d, Reserve(cs));
        Frag(g.code + [Unary(op, reg, cs.free)], g.cs.(free := cs.free))
      else
        var g := CToReg(sc, x, reg, d, cs);
        Frag(g.code + [Unary(op, reg, reg)], g.cs)
  }

  function FinishField(x: string, reg: nat, tableReg: nat, needFree: bool, cs: CS): (f: Frag)
    ensures Grows(cs, f.cs) && f.cs.free == if needFree then tableReg else cs.free
  {
    var g := CGetField(reg, tableReg, x, cs);
    if needFree then Frag(g.code, g.cs.(free := tableReg)) else g
  }

  function FinishIndex(sc: Scope, k: Expr, reg: nat, tableReg: nat, needFree: bool, d: nat, cs: CS): (f: Frag)
    ensures Grows(cs, f.cs)
    ensures f.cs.free == if needFree then tableReg else cs.free
    decreases k, 6
  {
    if k.IntE? && 0 <= k.n <= MAX_ARG_C then
      Frag([GetI(reg, tableReg, k.n)], if needFree then cs.(free := tableReg) else cs)
    else
      var key := cs.free;
      var g := CToReg(sc, k, key, d, Reserve(cs));
      Frag(g.code + [GetTable(reg, tableReg, key)], g.cs.(free := if needFree then tableReg else key))
  }

  /** The ADDI/MMBINI pair of a + imm and a - imm; MMBINI keeps the immediate as written. */
  function ImmediatePair(tm: BinOp, reg: nat, leftReg: nat, imm: int): seq<Instr> {
    [AddI(reg, leftReg, if tm.Sub? then 0 - imm else imm), MmBinI(leftReg, imm, tm, 0)]
  }

  function FinishImmediate(tm: BinOp, reg: nat, leftReg: nat, imm: int, cs: CS): (f: Frag)
    ensures Grows(cs, f.cs) && f.cs.free == leftReg
  {
    Frag(ImmediatePair(tm, reg, leftReg, imm), cs.(free := leftReg))
  }

  function CArith(sc: Scope, e: Expr, reg: nat, d: nat, cs: CS): (f: Frag)
    ensures cs.free > reg ==> Allocates(sc, reg, cs, f.cs)
    requires e.Bin?
    decreases e, 2
  {
    var (op, l, r) := (e.op, e.l, e.r);
    if NumericValue(e).Some? then
      (if d >= MAX_EXPR_DEPTH then Frag([], Fail(cs, StackOverflow))
       else CInt(NumericValue(e).value, reg, Preamble(reg, cs)))
    else if (op.Add? || op.Sub?) && SmallIntConst(r).Some? then
      (match PlainLocal(sc, l)
       case Some(lr) => Frag(ImmediatePair(op, reg, lr, SmallIntConst(r).value), cs)
       case None =>
         var g := CLeft(sc, l, cs.free, d, Reserve(cs));
         Then(g, FinishImmediate(op, reg, cs.free, SmallIntConst(r).value, g.cs)))
    else if op.Add? && SmallIntConst(l).Some? then
      var imm := SmallIntConst(l).value;
      var rr := OperandReg(sc, r, cs);
      var g := COperand(sc, r, d, cs);
      Frag(g.code + [AddI(reg, rr, imm), MmBinI(rr, imm, Add, 1)],
           if PlainLocal(sc, r).Some? then g.cs else g.cs.(free := rr))
    else
      var base := Max(cs.free, |sc|);
      match PlainLocal(sc, l)
      case Some(lr) => FinishBinop(sc, op, r, reg, base, lr, d, cs)
      case None =>
        if reg < |sc| then
          var g := CLeft(sc, l, cs.free, d, Reserve(cs));
          Then(g, FinishBinop(sc, op, r, reg, base, cs.free, d, g.cs.(free := cs.free + 1)))
        else
          var g := CLeft(sc, l, reg, d, cs);
          Then(g, FinishBinop(sc, op, r, reg, base, reg, d, g.cs.(free := base)))
  }

  /** The right operand and the operation; the left operand already sits in leftReg. */
  function FinishBinop(sc: Scope, op: BinOp, r: Expr, reg: nat, base: nat, leftReg: nat, d: nat, cs: CS): (f: Frag)
    ensures Grows(cs, f.cs) && f.cs.free == base
    decreases r, 6
  {
    var (g, rr) := match PlainLocal(sc, r)
      case Some(x) => (Frag([], cs), x)
      case None => (CToReg(sc, r, cs.free, d, cs), cs.free);
    Frag(g.code + [Arith(op, reg, leftReg, rr), MmBin(leftReg, rr, op)], g.cs.(free := base))
  }

  // -- comparisons ------------------------------------------------------------------

  function KFlag(b: bool): nat {
    if b then 1 else 0
  }

  function OrderImmediate(op: BinOp, a: nat, imm: int, k: nat): Instr {
    match op
    case Lt => LtI(a, imm, k)
    case Le => LeI(a, imm, k)
    case Gt => GtI(a, imm, k)
    case _ => GeI(a, imm, k)
  }

  /** K < x is x > K, and so on. */
  function Mirror(op: BinOp): BinOp {
    match op
    case Lt => Gt
    case Le => Ge
    case Gt => Lt
    case Ge => Le
    case _ => op
  }

  function RegisterCompare(op: BinOp, a: nat, b: nat, inv: bool): Instr {
    match op
    case Eq => EqR(a, b, KFlag(inv))
    case Ne => EqR(a, b, KFlag(!inv))
    case Lt => LtR(a, b, KFlag(inv))
    case Le => LeR(a, b, KFlag(inv))
    case Gt => LtR(b, a, KFlag(inv))
    case _ => LeR(b, a, KFlag(inv))
  }

  /** The operands and one compare instruction; freeReg ends where it started. */
  function CCompareTest(sc: Scope, e: Expr, inv: bool, d: nat, cs: CS): (f: Frag)
    ensures Grows(cs, f.cs) && f.cs.free == cs.free
    requires e.Bin?
    decreases e, 1
  {
    var (op, l, r) := (e.op, e.l, e.r);
    if op.Eq? || op.Ne? then
      var k := KFlag(op.Ne? != inv);
      var (x, c) := if IsImmediateEqConst(r) then (l, r) else (r, l);
      if SmallIntConst(c).Some? then
        var g := COperand(sc, x, d, cs);
        Frag(g.code + [EqI(OperandReg(sc, x, cs), SmallIntConst(c).value, k)], g.cs.(free := cs.free))
      else if c.StrE? && ConstIndex(cs, Str(c.text)) <= MAX_ARG_B then
        var cs1 := AddConst(cs, Str(c.text));
        var g := COperand(sc, x, d, cs1);
        Frag(g.code + [EqK(OperandReg(sc, x, cs1), ConstIndex(cs, Str(c.text)), k)], g.cs.(free := cs.free))
      else CRegisterTest(sc, e, inv, d, if c.StrE? then AddConst(cs, Str(c.text)) else cs)
    else if SmallIntConst(r).Some? then
      var g := COperand(sc, l, d, cs);
      Frag(g.code + [OrderImmediate(op, OperandReg(sc, l, cs), SmallIntConst(r).value, KFlag(inv))], g.cs.(free := cs.free))
    else if SmallIntConst(l).Some? then
      var g := COperand(sc, r, d, cs);
      Frag(g.code + [OrderImmediate(Mirror(op), OperandReg(sc, r, cs), SmallIntConst(l).value, KFlag(inv))], g.cs.(free := cs.free))
    else CRegisterTest(sc, e, inv, d, cs)
  }

  function CRegisterTest(sc: Scope, e: Expr, inv: bool, d: nat, cs: CS): (f: Frag)
    ensures Grows(cs, f.cs) && f.cs.free == cs.free
    requires e.Bin?
    decreases e, 0
  {
    var g := COperand(sc, e.l, d, cs);
    var h := COperand(sc, e.r, d, g.cs);
    Frag(g.code + h.code + [RegisterCompare(e.op, OperandReg(sc, e.l, cs), OperandReg(sc, e.r, g.cs), inv)],
         h.cs.(free := cs.free))
  }

  /** A comparison as a value: the test and two loads. */
  function CCompare(sc: Scope, e: Expr, reg: nat, d: nat, cs: CS): (f: Frag)
    ensures cs.free > reg ==> Allocates(sc, reg, cs, f.cs)
    requires e.Bin?
    decreases e, 2
  {
    var g := CCompareTest(sc, e, false, d, cs);
    Frag(g.code + [Jmp(2), LoadTrue(reg), Jmp(1), LoadFalse(reg)], g.cs.(free := cs.free))
  }

  // -- and / or --------------------------------------------------------------------------

  function CLogical(sc: Scope, e: Expr, reg: nat, d: nat, cs: CS): (f: Frag)
    ensures cs.free > reg ==> Allocates(sc, reg, cs, f.cs)
    requires e.Bin?
    decreases e, 2
  {
    var isOr := e.op.Or?;
    if e.l.Bin? && IsComparison(e.l.op) then
      var g := CCompareTest(sc, e.l, isOr, d, cs);
      var h := CToReg(sc, e.r, reg, d, g.cs);
      Frag(g.code + [Jmp(|h.code| + 1)] + h.code + [Jmp(1), if isOr then LoadTrue(reg) else LoadFalse(reg)], h.cs)
    else if reg < |sc| then
      var g := CLeft(sc, e.l, cs.free, d, Reserve(cs));
      Then(g, FinishTestSet(sc, e.r, reg, cs.free, KFlag(isOr), d, g.cs))
    else
      var g := CLeft(sc, e.l, reg, d, cs);
      Then(g, FinishTest(sc, e.r, reg, KFlag(isOr), d, g.cs))
  }

  function FinishTestSet(sc: Scope, r: Expr, reg: nat, tmp: nat, k: nat, d: nat, cs: CS): (f: Frag)
    ensures Grows(cs, f.cs) && f.cs.free == tmp
    decreases r, 6
  {
    var h := CToReg(sc, r, reg, d, cs);
    Frag([TestSet(reg, tmp, k), Jmp(|h.code|)] + h.code, h.cs.(free := tmp))
  }

  function FinishTest(sc: Scope, r: Expr, reg: nat, k: nat, d: nat, cs: CS): (f: Frag)
    ensures Grows(cs, f.cs)
    ensures RegTop(sc) <= |sc| <= reg && f.cs.err == NoError ==> f.cs.free > reg
    decreases r, 6
  {
    var h := CToReg(sc, r, reg, d, cs.(free := reg + 1));
    Frag([Test(reg, k), Jmp(|h.code|)] + h.code, h.cs)
  }
}
