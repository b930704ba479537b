/**
 What the statement compiler emits, as functions over the expression compiler.
 The jump of a break is a hole until its loop has ended.
*/
module StmtSpec {
  import opened Wrappers
  import opened LuaValues
  import opened LuaSource
  import opened LuaStmts
  import opened Machine
  import opened ExprSpec

  datatype Slot = Op(i: Instr) | BreakJump

  function Lift(code: seq<Instr>): (s: seq<Slot>)
    ensures |s| == |code| && forall k | 0 <= k < |s| :: s[k] == Op(code[k])
  {
    seq(|code|, k requires 0 <= k < |code| => Op(code[k]))
  }

  /** A compiled statement: its code, the scope after it and the allocator state. */
  datatype SFrag = SFrag(code: seq<Slot>, sc: Scope, cs: CS)

  /** All breaks of a loop body go to the end of the loop. */
  function ResolveBreaks(code: seq<Slot>): (s: seq<Slot>)
    ensures |s| == |code|
    ensures forall k | 0 <= k < |s| :: s[k] == if code[k].BreakJump? then Op(Jmp(|code| - (k + 1))) else code[k]
  {
    seq(|code|, k requires 0 <= k < |code| => if code[k].BreakJump? then Op(Jmp(|code| - (k + 1))) else code[k])
  }

  // -- conditions ------------------------------------------------------------------

  /** A test that skips the jump after it when the condition's truth differs from `flag`. */
  function CCond(sc: Scope, cond: Expr, flag: bool, cs: CS): (f: Frag)
    ensures Grows(cs, f.cs)
    ensures f.cs.free == cs.free
  {
    if cond.Paren? then CCond(sc, cond.inner, flag, cs)
    else if cond.Un? && cond.uop.Not? then CCond(sc, cond.operand, !flag, cs)
    else if cond.Bin? && IsComparison(cond.op) then CCompareTest(sc, cond, flag, 0, cs)
    else if PlainLocal(sc, cond).Some? then Frag([Test(PlainLocal(sc, cond).value, KFlag(flag))], cs)
    else
      var g := CToReg(sc, cond, cs.free, 0, cs);
      Frag(g.code + [Test(cs.free, KFlag(flag))], g.cs.(free := cs.free))
  }

  // -- local declarations -----------------------------------------------------------

  /** The scalar an initializer folds to; parentheses are looked through here. */
  function TryFoldScalar(e: Expr): (v: Option<Value>)
    ensures v.Some? ==> !v.value.Other?
  {
    match e
    case NilE => Some(Nil)
    case TrueE => Some(Bool(true))
    case FalseE => Some(Bool(false))
    case IntE(n) => Some(Int(n))
    case StrE(s) => Some(Str(s))
    case Paren(inner) => TryFoldScalar(inner)
    case Un(_, _) => if NumericValue(e).Some? then Some(Int(NumericValue(e).value)) else None
    case Bin(_, _, _) => if NumericValue(e).Some? then Some(Int(NumericValue(e).value)) else None
    case _ => None
  }

  /** The constant the last variable of a declaration is replaced by, if it is. */
  function InlineLast(names: seq<string>, consts: seq<bool>, values: seq<Expr>): (v: Option<Value>)
    ensures v.Some? ==> !v.value.Other? && |names| == |values| > 0 && names[|names| - 1] != ENV
                        && v == TryFoldScalar(values[|values| - 1])
  {
    var last := |names| - 1;
    if |names| == |values| && |names| > 0 && last < |consts| && consts[last] && names[last] != ENV
    then TryFoldScalar(values[last]) else None
  }

  /** The first n initializers, each in its own register; surplus ones are computed and dropped. */
  function CLocalValues(sc: Scope, values: seq<Expr>, n: nat, nNames: nat, base: nat, nReg: nat, cs: CS): (f: Frag)
    requires n <= |values|
    ensures Grows(cs, f.cs)
  {
    if n == 0 then Frag([], cs)
    else
      var prev := CLocalValues(sc, values, n - 1, nNames, base, nReg, cs);
      if n <= nNames then
        var g := CToReg(sc, values[n - 1], base + n - 1, 0, prev.cs);
        Frag(prev.code + g.code, SetFree(g.cs, base + n))
      else
        var g := CToReg(sc, values[n - 1], prev.cs.free, 0, prev.cs);
        Frag(prev.code + g.code, g.cs.(free := base + nReg))
  }

  function NewLocals(names: seq<string>, consts: seq<bool>, base: nat, inl: Option<Value>): (ls: seq<LocalVar>)
    ensures |ls| == |names|
  {
    seq(|names|, i requires 0 <= i < |names| =>
      LocalVar(names[i],
               if inl.Some? && i == |names| - 1 then Inlined(inl.value) else InReg(base + i),
               i < |consts| && consts[i]))
  }

  function NilFill(base: nat, nValues: nat, nNames: nat): seq<Instr> {
    if nValues < nNames then [LoadNil(base + nValues, nNames - nValues - 1)] else []
  }

  function CheckVars(cs: CS, n: nat): CS {
    if n > cs.varLim then Fail(cs, TooManyLocals) else cs
  }

  function CLocal(sc: Scope, names: seq<string>, consts: seq<bool>, values: seq<Expr>, cs: CS): (f: SFrag)
    requires |names| > 0
    ensures Grows(cs, f.cs)
  {
    var base := cs.free;
    var inl := InlineLast(names, consts, values);
    var nReg := if inl.Some? then |names| - 1 else |names|;
    var g := CLocalValues(sc, values, if inl.Some? then |values| - 1 else |values|, |names|, base, nReg, cs);
    var cs1 := CheckVars(CheckLimit(SetFree(g.cs, base + nReg)), base + nReg);
    SFrag(Lift(g.code + NilFill(base, |values|, |names|)), sc + NewLocals(names, consts, base, inl), cs1)
  }

  // -- assignment -----------------------------------------------------------------------

  predicate IsConstLocal(sc: Scope, x: string) {
    var i := FindLocal(sc, x);
    i >= 0 && (sc[i].loc.Inlined? || sc[i].isConst)
  }

  /** The C operand of a store: a pool constant (k = 1) or a register (k = 0). */
  datatype StoreOp = StoreOp(f: Frag, c: nat, k: nat)

  function CStoreValue(sc: Scope, value: Expr, cs: CS): (s: StoreOp)
    ensures Grows(cs, s.f.cs)
  {
    match TryFoldScalar(value)
    case Some(v) =>
      var cs1 := AddConst(cs, v);
      if ConstIndex(cs, v) <= MAX_ARG_C then StoreOp(Frag([], cs1), ConstIndex(cs, v), 1)
      else StoreOp(COperand(sc, value, 0, cs1), OperandReg(sc, value, cs1), 0)
    case None => StoreOp(COperand(sc, value, 0, cs), OperandReg(sc, value, cs), 0)
  }

  function CSetField(tableReg: nat, k: nat, v: nat, vk: nat, cs: CS): (f: Frag)
    ensures Grows(cs, f.cs) && f.cs.free == cs.free
  {
    if k <= MAX_ARG_C then Frag([SetField(tableReg, k, v, vk)], cs)
    else
      var key := cs.free;
      Frag(LoadConst(key, k) + [SetTable(tableReg, key, v, vk)], Reserve(cs).(free := cs.free))
  }

  function CSetTabUp(k: nat, v: nat, vk: nat, cs: CS): (f: Frag)
    ensures Grows(cs, f.cs) && f.cs.free == cs.free
  {
    if k <= MAX_ARG_C then Frag([SetTabUp(0, k, v, vk)], cs)
    else
      var env := cs.free;
      var key := env + 1;
      Frag([GetUpval(env, 0)] + LoadConst(key, k) + [SetTable(env, key, v, vk)],
           Reserve(Reserve(cs)).(free := cs.free))
  }

  /** A store to a global name: through a local _ENV or through the upvalue. */
  function CSetGlobal(sc: Scope, x: string, v: nat, vk: nat, k: nat, cs: CS): (f: Frag)
    ensures Grows(cs, f.cs) && f.cs.free == cs.free
  {
    match LookupLocal(sc, ENV)
    case Some(env) => CSetField(env, k, v, vk, cs)
    case None => CSetTabUp(k, v, vk, cs)
  }

  predicate SmallKey(k: Expr) {
    k.IntE? && 0 <= k.n <= MAX_ARG_C
  }

  function CSingle(sc: Scope, target: Expr, value: Expr, cs: CS): (f: Frag)
    ensures Grows(cs, f.cs)
  {
    match target
    case Name(x) =>
      if IsConstLocal(sc, x) then Frag([], Fail(cs, AssignToConst))
      else if LookupLocal(sc, x).Some? then CToReg(sc, value, LookupLocal(sc, x).value, 0, cs)
      else if x == ENV then
        var g := CToReg(sc, value, cs.free, 0, Reserve(cs));
        Frag(g.code + [SetUpval(cs.free, 0)], g.cs.(free := cs.free))
      else
        var cs1 := AddConst(cs, Str(x));
        var s := CStoreValue(sc, value, cs1);
        var g := CSetGlobal(sc, x, s.c, s.k, ConstIndex(cs, Str(x)), s.f.cs);
        Frag(s.f.code + g.code, g.cs.(free := cs.free))
    case Field(t, x) =>
      var g := COperand(sc, t, 0, cs);
      var s := CStoreValue(sc, value, g.cs);
      var h := CSetField(OperandReg(sc, t, cs), ConstIndex(s.f.cs, Str(x)), s.c, s.k, AddConst(s.f.cs, Str(x)));
      Frag(g.code + s.f.code + h.code, h.cs.(free := cs.free))
    case Index(t, k) =>
      var g := COperand(sc, t, 0, cs);
      var tr := OperandReg(sc, t, cs);
      if SmallKey(k) then
        var s := CStoreValue(sc, value, g.cs);
        Frag(g.code + s.f.code + [SetI(tr, k.n, s.c, s.k)], s.f.cs.(free := cs.free))
      else
        var h := COperand(sc, k, 0, g.cs);
        var s := CStoreValue(sc, value, h.cs);
        Frag(g.code + h.code + s.f.code + [SetTable(tr, OperandReg(sc, k, g.cs), s.c, s.k)], s.f.cs.(free := cs.free))
    case _ => Frag([], Fail(cs, InvalidTarget))
  }

  /** The part of t[k] = value after the table operand. */
  function IndexStoreCode(sc: Scope, tr: nat, ke: Expr, value: Expr, cs: CS): seq<Instr> {
    if SmallKey(ke) then
      var s := CStoreValue(sc, value, cs);
      s.f.code + [SetI(tr, ke.n, s.c, s.k)]
    else
      var h := COperand(sc, ke, 0, cs);
      var s := CStoreValue(sc, value, h.cs);
      h.code + s.f.code + [SetTable(tr, OperandReg(sc, ke, cs), s.c, s.k)]
  }

  /** The allocator after the value of t[k] = value. */
  function IndexStoreEnd(sc: Scope, ke: Expr, value: Expr, cs: CS): CS {
    CStoreValue(sc, value, if SmallKey(ke) then cs else COperand(sc, ke, 0, cs).cs).f.cs
  }

  /** The code of t[k] = value is that of the table operand and of the rest. */
  lemma {:induction false} IndexSplit(sc: Scope, t: Expr, ke: Expr, value: Expr, cs: CS)
    ensures var f := CSingle(sc, Index(t, ke), value, cs);
            var g := COperand(sc, t, 0, cs);
            && f.code == g.code + IndexStoreCode(sc, OperandReg(sc, t, cs), ke, value, g.cs)
            && f.cs == IndexStoreEnd(sc, ke, value, g.cs).(free := cs.free)
  {
    hide COperand, CStoreValue, OperandReg, Grows, FindLocal, IndexOf, RegTop;
    var g := COperand(sc, t, 0, cs);
    var tr := OperandReg(sc, t, cs);
    if SmallKey(ke) {
      var s := CStoreValue(sc, value, g.cs);
      Associate(g.code, [], s.f.code, [SetI(tr, ke.n, s.c, s.k)]);
    } else {
      var h := COperand(sc, ke, 0, g.cs);
      var s := CStoreValue(sc, value, h.cs);
      Associate(g.code, h.code, s.f.code, [SetTable(tr, OperandReg(sc, ke, g.cs), s.c, s.k)]);
    }
  }

  lemma Associate(a: seq<Instr>, b: seq<Instr>, c: seq<Instr>, d: seq<Instr>)
    ensures a + b + c + d == a + (b + c + d) && a + c + d == a + (c + d)
  {
  }

  /** The register a bare-local target reassigns. */
  function AssignedReg(sc: Scope, target: Expr): Option<nat> {
    if target.Name? then LookupLocal(sc, target.name) else None
  }

  /** A later target of the statement reassigns register r. */
  predicate Conflicts(sc: Scope, targets: seq<Expr>, after: nat, r: nat) {
    exists j :: after < j < |targets| && AssignedReg(sc, targets[j]) == Some(r)
  }

  predicate EnvTargeted(targets: seq<Expr>) {
    exists j :: 0 <= j < |targets| && targets[j] == Name(ENV)
  }

  predicate RebindsEnv(sc: Scope, target: Expr) {
    target == Name(ENV) && LookupInlined(sc, ENV).None?
  }

  predicate IsGlobal(sc: Scope, x: string) {
    FindLocal(sc, x) < 0 && x != ENV
  }

  /** An operand of an indexed target: in place unless a later target overwrites the local. */
  function TargetReg(sc: Scope, targets: seq<Expr>, i: nat, e: Expr, cs: CS): nat {
    var l := PlainLocal(sc, e);
    if l.Some? && !Conflicts(sc, targets, i, l.value) then l.value else cs.free
  }

  function CTargetOperand(sc: Scope, targets: seq<Expr>, i: nat, e: Expr, cs: CS): (f: Frag)
    ensures Grows(cs, f.cs)
  {
    var l := PlainLocal(sc, e);
    if l.Some? && !Conflicts(sc, targets, i, l.value) then Frag([], cs) else CToReg(sc, e, cs.free, 0, Reserve(cs))
  }

  /** The operands of one target, resolved before the values. */
  datatype Operand = NoOperand | ByInt(t: nat, n: nat) | ByReg(t: nat, k: nat) | ByField(t: nat, f: nat) | EnvCopy(t: nat)

  datatype Targets = Targets(f: Frag, ops: seq<Operand>, pending: set<nat>)

  /** Point every pending global at the copy of the environment in `snap`. */
  function Settle(ops: seq<Operand>, pending: set<nat>, snap: nat): (r: seq<Operand>)
    ensures |r| == |ops|
    ensures forall i | 0 <= i < |ops| :: r[i] == if i in pending then EnvCopy(snap) else ops[i]
  {
    seq(|ops|, i requires 0 <= i < |ops| => if i in pending then EnvCopy(snap) else ops[i])
  }

  /** The operands of the first n targets, left to right. */
  function CTargets(sc: Scope, targets: seq<Expr>, n: nat, cs: CS): (r: Targets)
    requires n <= |targets|
    ensures |r.ops| == n && Grows(cs, r.f.cs)
  {
    if n == 0 then Targets(Frag([], cs), [], {})
    else
      var prev := CTargets(sc, targets, n - 1, cs);
      var i := n - 1;
      var cs1 := prev.f.cs;
      match targets[i]
      case Index(t, k) =>
        var g := CTargetOperand(sc, targets, i, t, cs1);
        var tr := TargetReg(sc, targets, i, t, cs1);
        if SmallKey(k) then Targets(Frag(prev.f.code + g.code, g.cs), prev.ops + [ByInt(tr, k.n)], prev.pending)
        else
          var h := CTargetOperand(sc, targets, i, k, g.cs);
          Targets(Frag(prev.f.code + g.code + h.code, h.cs), prev.ops + [ByReg(tr, TargetReg(sc, targets, i, k, g.cs))], prev.pending)
      case Field(t, x) =>
        var g := CTargetOperand(sc, targets, i, t, cs1);
        Targets(Frag(prev.f.code + g.code, AddConst(g.cs, Str(x))),
                prev.ops + [ByField(TargetReg(sc, targets, i, t, cs1), ConstIndex(g.cs, Str(x)))], prev.pending)
      case Name(x) =>
        if !EnvTargeted(targets) then Targets(prev.f, prev.ops + [NoOperand], prev.pending)
        else if RebindsEnv(sc, targets[i]) then
          if prev.pending == {} then Targets(prev.f, prev.ops + [NoOperand], {})
          else
            var snap := cs1.free;
            var copy := match LookupLocal(sc, ENV) case Some(env) => Move(snap, env) case None => GetUpval(snap, 0);
            Targets(Frag(prev.f.code + [copy], Reserve(cs1)), Settle(prev.ops, prev.pending, snap) + [NoOperand], {})
        else if IsGlobal(sc, x) then Targets(prev.f, prev.ops + [NoOperand], prev.pending + {i})
        else Targets(prev.f, prev.ops + [NoOperand], prev.pending)
      case _ => Targets(prev.f, prev.ops + [NoOperand], prev.pending)
  }

  /** The first n values, value i in register valBase + i. */
  function CValues(sc: Scope, values: seq<Expr>, n: nat, valBase: nat, cs: CS): (f: Frag)
    requires n <= |values|
    ensures Grows(cs, f.cs)
  {
    if n == 0 then Frag([], cs)
    else
      var prev := CValues(sc, values, n - 1, valBase, cs);
      var g := CToReg(sc, values[n - 1], valBase + n - 1, 0, prev.cs);
      Frag(prev.code + g.code, SetFree(g.cs, valBase + n))
  }

  function NilEach(valBase: nat, i: nat, n: nat): (code: seq<Instr>)
    decreases n - i
  {
    if i >= n then [] else [LoadNil(valBase + i, 0)] + NilEach(valBase, i + 1, n)
  }

  /** The store of one target from register v. */
  function CStoreTarget(sc: Scope, target: Expr, op: Operand, v: nat, cs: CS): (f: Frag)
    ensures Grows(cs, f.cs) && f.cs.free == cs.free
  {
    match op
    case ByInt(t, n) => Frag([SetI(t, n, v, 0)], cs)
    case ByReg(t, k) => Frag([SetTable(t, k, v, 0)], cs)
    case ByField(t, f) => CSetField(t, f, v, 0, cs)
    case _ =>
      if !target.Name? then Frag([], Fail(cs, InvalidTarget))
      else
        var x := target.name;
        if IsConstLocal(sc, x) then Frag([], Fail(cs, AssignToConst))
        else
          match LookupLocal(sc, x)
          case Some(r) => Frag(if r != v then [Move(r, v)] else [], cs)
          case None =>
            if x == ENV then Frag([SetUpval(v, 0)], cs)
            else
              var cs1 := AddConst(cs, Str(x));
              var k := ConstIndex(cs, Str(x));
              if op.EnvCopy? then CSetField(op.t, k, v, 0, cs1) else CSetGlobal(sc, x, v, 0, k, cs1)
  }

  /** The stores of the first n targets, right to left. */
  function CStores(sc: Scope, targets: seq<Expr>, ops: seq<Operand>, n: nat, valBase: nat, cs: CS): (f: Frag)
    requires n <= |targets| == |ops|
    ensures Grows(cs, f.cs)
  {
    if n == 0 then Frag([], cs)
    else
      var g := CStoreTarget(sc, targets[n - 1], ops[n - 1], valBase + n - 1, cs);
      var h := CStores(sc, targets, ops, n - 1, valBase, g.cs);
      Frag(g.code + h.code, h.cs)
  }

  /** checkRegsAt. */
  function CheckRegsAt(cs: CS, top: nat): CS {
    var cs1 := cs.(maxr := Max(cs.maxr, top));
    if top > cs.lim then Fail(cs1, TooManyRegisters) else cs1
  }

  function CMulti(sc: Scope, targets: seq<Expr>, values: seq<Expr>, cs: CS): (f: Frag)
    ensures Grows(cs, f.cs)
  {
    var ts := CTargets(sc, targets, |targets|, cs);
    var valBase := ts.f.cs.free;
    var vs := CValues(sc, values, |values|, valBase, CheckRegsAt(ts.f.cs, valBase + |targets|));
    var nils := NilEach(valBase, |values|, |targets|);
    var cs2 := if |values| < |targets| then SetFree(vs.cs, valBase + |targets|) else vs.cs;
    var ss := CStores(sc, targets, ts.ops, |targets|, valBase, cs2);
    Frag(ts.f.code + vs.code + nils + ss.code, ss.cs.(free := cs.free))
  }

  function CAssign(sc: Scope, targets: seq<Expr>, values: seq<Expr>, cs: CS): (f: Frag)
    ensures Grows(cs, f.cs)
  {
    if |targets| == 1 && |values| == 1 then CSingle(sc, targets[0], values[0], cs)
    else CMulti(sc, targets, values, cs)
  }

  // -- control flow ---------------------------------------------------------------------------

  predicate IsConstTrue(e: Expr) {
    e.TrueE?
  }

  predicate IsConstFalsy(e: Expr) {
    e.FalseE? || e.NilE?
  }

  /** Leave a scope: its locals are dropped and their registers freed. */
  function LeaveScope(sc: Scope, f: SFrag): SFrag {
    SFrag(f.code, sc, f.cs.(free := RegTop(sc)))
  }

  /** `ln` is the number of active locals where the innermost loop began, None outside loops. */
  function CBlock(sc: Scope, b: Block, ln: Option<nat>, cs: CS): (f: SFrag)
    requires Parsed(b)
    ensures Grows(cs, f.cs) && sc <= f.sc
    decreases b, 0
  {
    match b
    case BNil => SFrag([], sc, cs)
    case BCons(s, rest) =>
      if cs.err != NoError then SFrag([], sc, cs)
      else
        var g := CStmt(sc, s, ln, cs);
        var h := CBlock(g.sc, rest, ln, g.cs.(free := RegTop(g.sc)));
        SFrag(g.code + h.code, h.sc, h.cs)
  }

  function CScope(sc: Scope, b: Block, ln: Option<nat>, cs: CS): (f: SFrag)
    requires Parsed(b)
    ensures Grows(cs, f.cs) && f.sc == sc && f.cs.free == RegTop(sc)
    decreases b, 1
  {
    LeaveScope(sc, CBlock(sc, b, ln, cs))
  }

  function CTail(sc: Scope, t: Tail, ln: Option<nat>, cs: CS): (f: SFrag)
    requires ParsedTail(t)
    ensures Grows(cs, f.cs) && f.sc == sc
    ensures cs.free == RegTop(sc) ==> f.cs.free == RegTop(sc)
    decreases t, 0
  {
    match t
    case NoElse => SFrag([], sc, cs)
    case Else(body) => CScope(sc, body, ln, cs)
    case ElseIf(cond, body, rest) =>
      var g := CCond(sc, cond, false, cs);
      var h := CScope(sc, body, ln, g.cs);
      var k := CTail(sc, rest, ln, h.cs);
      SFrag(Lift(g.code + [Jmp(|h.code| + 1)]) + h.code + Lift([Jmp(|k.code|)]) + k.code, sc, k.cs)
  }

  function CStmt(sc: Scope, s: Stmt, ln: Option<nat>, cs: CS): (f: SFrag)
    requires ParsedStmt(s)
    ensures Grows(cs, f.cs) && sc <= f.sc
    decreases s, 1
  {
    match s
    case Local(names, consts, values) => CLocal(sc, names, consts, values, cs)
    case Assign(targets, values) =>
      var g := CAssign(sc, targets, values, cs);
      SFrag(Lift(g.code), sc, g.cs)
    case Do(body) => CScope(sc, body, ln, cs)
    case Empty => SFrag([], sc, cs)
    case Break =>
      if ln.None? then SFrag([], sc, Fail(cs, BreakOutsideLoop))
      else SFrag([BreakJump] + (if |sc| > ln.value then [Op(Close(RegTop(sc)))] else []), sc, cs)
    case If(_, _, _) => CIf(sc, s, ln, cs)
    case While(cond, body) =>
      if IsConstTrue(cond) then
        var h := CScope(sc, body, Some(|sc|), cs);
        SFrag(ResolveBreaks(h.code + [Op(Jmp(-(|h.code| + 1)))]), sc, h.cs)
      else
        var g := CCond(sc, cond, false, cs);
        var h := CScope(sc, body, Some(|sc|), g.cs);
        SFrag(ResolveBreaks(Lift(g.code + [Jmp(|h.code| + 1)]) + h.code + [Op(Jmp(-(|g.code| + |h.code| + 2)))]), sc, h.cs)
    case Repeat(body, cond) =>
      var h := CBlock(sc, body, Some(|sc|), cs);
      if IsConstTrue(cond) then LeaveScope(sc, SFrag(ResolveBreaks(h.code), sc, h.cs))
      else if IsConstFalsy(cond) then
        LeaveScope(sc, SFrag(ResolveBreaks(h.code + [Op(Jmp(-(|h.code| + 1)))]), sc, h.cs))
      else
        var g := CCond(h.sc, cond, false, h.cs);
        LeaveScope(sc, SFrag(ResolveBreaks(h.code + Lift(g.code + [Jmp(-(|h.code| + |g.code| + 1))])), sc, g.cs))
  }

  /** The code that decides whether the then-block runs; skip is how far to jump over it. */
  function CGuard(sc: Scope, cond: Expr, skip: nat, cs: CS): (f: Frag)
    ensures Grows(cs, f.cs) && f.cs.free == cs.free
  {
    if IsConstTrue(cond) then Frag([], cs)
    else if IsConstFalsy(cond) then Frag([Jmp(skip)], cs)
    else
      var g := CCond(sc, cond, false, cs);
      Frag(g.code + [Jmp(skip)], g.cs)
  }

  function CIf(sc: Scope, s: Stmt, ln: Option<nat>, cs: CS): (f: SFrag)
    requires s.If? && ParsedStmt(s)
    ensures Grows(cs, f.cs) && f.sc == sc
    decreases s, 0
  {
    var h := CScope(sc, s.thn, ln, CGuard(sc, s.cond, 0, cs).cs);
    var k := CTail(sc, s.tail, ln, h.cs);
    var exit := if s.tail.NoElse? then [] else [Jmp(|k.code|)];
    var g := CGuard(sc, s.cond, |h.code| + |exit|, cs);
    SFrag(Lift(g.code) + h.code + Lift(exit) + k.code, sc, k.cs)
  }
}
