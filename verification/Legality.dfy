/**
 Which blocks are legal, said of the source alone, and that the compiler refuses
 exactly the others: a legal block is refused only for a limit it exceeds.
*/
module Legality {
  import opened Wrappers
  import opened LuaValues
  import opened LuaSource
  import opened LuaStmts
  import opened Machine
  import opened ExprSpec
  import opened StmtSpec
  import opened Acceptance
  import AssignSim

  /** A declaration in sight, with the attribute it was written with. */
  datatype Declared = Declared(name: string, constant: bool)

  /** Whether the innermost declaration of a name is a constant one. */
  predicate IsConstant(env: seq<Declared>, x: string) {
    env != [] && if env[|env| - 1].name == x then env[|env| - 1].constant else IsConstant(env[..|env| - 1], x)
  }

  predicate LegalTarget(env: seq<Declared>, t: Expr) {
    match t
    case Name(x) => !IsConstant(env, x)
    case Field(_, _) => true
    case Index(_, _) => true
    case _ => false
  }

  function DeclaredBy(s: Stmt): (ds: seq<Declared>)
    ensures s.Local? ==> |ds| == |s.names|
  {
    if s.Local? then seq(|s.names|, i requires 0 <= i < |s.names| => Declared(s.names[i], i < |s.consts| && s.consts[i])) else []
  }

  /** Nothing constant is assigned, every target is a name, a field or an index, and every break is in a loop. */
  predicate LegalBlock(env: seq<Declared>, inLoop: bool, b: Block)
    decreases b, 0
  {
    b.BCons? ==> LegalStmt(env, inLoop, b.s) && LegalBlock(env + DeclaredBy(b.s), inLoop, b.rest)
  }

  predicate LegalStmt(env: seq<Declared>, inLoop: bool, s: Stmt)
    decreases s, 0
  {
    match s
    case Assign(targets, _) => forall i :: 0 <= i < |targets| ==> LegalTarget(env, targets[i])
    case If(_, thn, tail) => LegalBlock(env, inLoop, thn) && LegalTail(env, inLoop, tail)
    case While(_, body) => LegalBlock(env, true, body)
    case Repeat(body, _) => LegalBlock(env, true, body)
    case Do(body) => LegalBlock(env, inLoop, body)
    case Break => inLoop
    case _ => true
  }

  predicate LegalTail(env: seq<Declared>, inLoop: bool, t: Tail)
    decreases t, 0
  {
    match t
    case NoElse => true
    case Else(body) => LegalBlock(env, inLoop, body)
    case ElseIf(_, body, rest) => LegalBlock(env, inLoop, body) && LegalTail(env, inLoop, rest)
  }

  // -- what counts for the limits --------------------------------------------------------------

  /** No expression of a block is nested beyond the limit. */
  predicate Shallow(b: Block)
    decreases b, 0
  {
    b.BCons? ==> ShallowStmt(b.s) && Shallow(b.rest)
  }

  predicate AllFit(es: seq<Expr>) {
    forall i :: 0 <= i < |es| ==> Fits(0, es[i])
  }

  /** The operands of a target. */
  predicate TargetFits(t: Expr) {
    match t
    case Field(e, _) => Fits(0, e)
    case Index(e, k) => Fits(0, e) && Fits(0, k)
    case _ => true
  }

  predicate ShallowStmt(s: Stmt)
    decreases s, 0
  {
    match s
    case Local(_, _, values) => AllFit(values)
    case Assign(targets, values) => AllFit(values) && forall i :: 0 <= i < |targets| ==> TargetFits(targets[i])
    case If(cond, thn, tail) => Fits(0, cond) && Shallow(thn) && ShallowTail(tail)
    case While(cond, body) => Fits(0, cond) && Shallow(body)
    case Repeat(body, cond) => Shallow(body) && Fits(0, cond)
    case Do(body) => Shallow(body)
    case _ => true
  }

  predicate ShallowTail(t: Tail)
    decreases t, 0
  {
    match t
    case NoElse => true
    case Else(body) => Shallow(body)
    case ElseIf(cond, body, rest) => Fits(0, cond) && Shallow(body) && ShallowTail(rest)
  }

  /** How many of the variables a statement declares get a register: all but a last one that stands for a constant. */
  function Kept(s: Stmt): nat {
    if s.Local? then |s.names| - (if InlineLast(s.names, s.consts, s.values).Some? then 1 else 0) else 0
  }

  /** The largest number of variables in registers at any declaration of a block that begins with n. */
  function Most(b: Block, n: nat): nat
    decreases b, 0
  {
    if b.BNil? then 0 else Max(MostIn(b.s, n), Most(b.rest, n + Kept(b.s)))
  }

  function MostIn(s: Stmt, n: nat): nat
    decreases s, 0
  {
    match s
    case Local(_, _, _) => n + Kept(s)
    case If(_, thn, tail) => Max(Most(thn, n), MostInTail(tail, n))
    case While(_, body) => Most(body, n)
    case Repeat(body, _) => Most(body, n)
    case Do(body) => Most(body, n)
    case _ => 0
  }

  function MostInTail(t: Tail, n: nat): nat
    decreases t, 0
  {
    match t
    case NoElse => 0
    case Else(body) => Most(body, n)
    case ElseIf(_, body, rest) => Max(Most(body, n), MostInTail(rest, n))
  }

  // -- the compiler's scope and the declarations -------------------------------------------------

  /** The same declarations. */
  predicate Known(sc: Scope, env: seq<Declared>) {
    && |sc| == |env|
    && forall i :: 0 <= i < |sc| ==> sc[i].name == env[i].name && ((sc[i].loc.Inlined? || sc[i].isConst) <==> env[i].constant)
  }

  lemma {:induction false} ConstantIs(sc: Scope, env: seq<Declared>, x: string)
    requires |sc| == |env| && forall i :: 0 <= i < |sc| ==> sc[i].name == env[i].name && ((sc[i].loc.Inlined? || sc[i].isConst) <==> env[i].constant)
    ensures IsConstLocal(sc, x) <==> IsConstant(env, x)
  {
    if sc != [] && sc[|sc| - 1].name != x {
      ConstantIs(sc[..|sc| - 1], env[..|sc| - 1], x);
    }
  }

  /** What may be the matter after compiling, when cs was before. */
  predicate Refuses(cs: CS, cs': CS, legal: bool, shallow: bool, most: nat) {
    && cs'.lim == cs.lim && cs'.varLim == cs.varLim && cs.maxr <= cs'.maxr
    && if cs.err != NoError then cs'.err == cs.err
       else
         match cs'.err
         case NoError => legal && most <= cs'.varLim
         case TooManyRegisters => cs'.maxr > cs'.lim
         case StackOverflow => !shallow
         case TooManyLocals => most > cs'.varLim
         case _ => !legal
  }

  lemma OnlyRefuses(cs: CS, cs': CS, fits: bool, shallow: bool)
    requires Only(cs, cs', fits) && (shallow ==> fits)
    ensures Refuses(cs, cs', true, shallow, 0)
  {
  }

  /** One part after another, with registers released in between. */
  lemma InOrder(cs: CS, cs1: CS, free: nat, cs2: CS, l1: bool, l2: bool, s1: bool, s2: bool, m1: nat, m2: nat)
    requires Refuses(cs, cs1, l1, s1, m1) && Refuses(cs1.(free := free), cs2, l2, s2, m2)
    ensures Refuses(cs, cs2, l1 && l2, s1 && s2, Max(m1, m2))
  {
  }

  lemma FreeOnly(cs: CS, cs': CS, legal: bool, shallow: bool, most: nat, free: nat)
    requires Refuses(cs, cs', legal, shallow, most)
    ensures Refuses(cs, cs'.(free := free), legal, shallow, most)
  {
  }

  // -- parts of statements --------------------------------------------------------------------------

  lemma {:induction false} CondOnly(sc: Scope, cond: Expr, flag: bool, cs: CS)
    ensures Only(cs, CCond(sc, cond, flag, cs).cs, Fits(0, cond))
  {
    hide CCompareTest, CToReg, FindLocal, Fits, Nesting.StepDepth;
    CondFits(cond);
    if cond.Paren? { CondOnly(sc, cond.inner, flag, cs); }
    else if cond.Un? && cond.uop.Not? { CondOnly(sc, cond.operand, !flag, cs); }
    else if cond.Bin? && IsComparison(cond.op) { CompareOnly(sc, cond, flag, 0, cs); }
    else { ToRegOnly(sc, cond, cs.free, 0, cs); }
  }

  /** What is below an expression fits if it does. */
  lemma CondFits(cond: Expr)
    ensures cond.Paren? && Fits(0, cond) ==> Fits(0, cond.inner)
    ensures cond.Un? && Fits(0, cond) ==> Fits(0, cond.operand)
    ensures cond.Bin? && IsComparison(cond.op) && Fits(0, cond) ==> Fits(0, cond.l) && Fits(0, cond.r)
  {
    assert Nesting.ToRegDepth(cond) == 1 + Nesting.StepDepth(cond);
    if cond.Bin? && IsComparison(cond.op) {
      assert Nesting.StepDepth(cond) == Max(Nesting.ToRegDepth(cond.l), Nesting.ToRegDepth(cond.r));
    }
  }

  lemma {:induction false} LocalValuesOnly(sc: Scope, values: seq<Expr>, n: nat, nNames: nat, base: nat, nReg: nat, cs: CS)
    requires n <= |values|
    ensures Only(cs, CLocalValues(sc, values, n, nNames, base, nReg, cs).cs, AllFit(values))
  {
    hide CToReg, Fits;
    if n > 0 {
      var prev := CLocalValues(sc, values, n - 1, nNames, base, nReg, cs);
      LocalValuesOnly(sc, values, n - 1, nNames, base, nReg, cs);
      ToRegOnly(sc, values[n - 1], if n <= nNames then base + n - 1 else prev.cs.free, 0, prev.cs);
    }
  }

  lemma {:induction false} ValuesOnly(sc: Scope, values: seq<Expr>, n: nat, valBase: nat, cs: CS)
    requires n <= |values|
    ensures Only(cs, CValues(sc, values, n, valBase, cs).cs, AllFit(values))
  {
    hide CToReg, Fits;
    if n > 0 {
      var prev := CValues(sc, values, n - 1, valBase, cs);
      ValuesOnly(sc, values, n - 1, valBase, cs);
      ToRegOnly(sc, values[n - 1], valBase + n - 1, 0, prev.cs);
    }
  }

  lemma {:induction false} StoreValueOnly(sc: Scope, value: Expr, cs: CS)
    ensures Only(cs, CStoreValue(sc, value, cs).f.cs, Fits(0, value))
  {
    hide COperand, FindLocal, IndexOf, TryFoldScalar, Fits;
    OperandOnly(sc, value, 0, cs);
    if TryFoldScalar(value).Some? { OperandOnly(sc, value, 0, AddConst(cs, TryFoldScalar(value).value)); }
  }

  lemma StoresToTable(sc: Scope, tableReg: nat, k: nat, v: nat, vk: nat, x: string, cs: CS)
    ensures Only(cs, CSetField(tableReg, k, v, vk, cs).cs, true) && Only(cs, CSetGlobal(sc, x, v, vk, k, cs).cs, true)
  {
    hide LookupLocal;
  }

  lemma {:induction false} LocalRefuses(sc: Scope, env: seq<Declared>, names: seq<string>, consts: seq<bool>, values: seq<Expr>, cs: CS)
    requires |names| > 0 && Known(sc, env) && cs.free == RegTop(sc)
    ensures var f := CLocal(sc, names, consts, values, cs);
            Refuses(cs, f.cs, true, AllFit(values), RegTop(sc) + Kept(Local(names, consts, values)))
            && Known(f.sc, env + DeclaredBy(Local(names, consts, values))) && RegTop(f.sc) == RegTop(sc) + Kept(Local(names, consts, values))
  {
    hide CLocalValues, InlineLast, AllFit, RegTop, NewLocals;
    var inl := InlineLast(names, consts, values);
    var nReg := if inl.Some? then |names| - 1 else |names|;
    LocalValuesOnly(sc, values, if inl.Some? then |values| - 1 else |values|, |names|, cs.free, nReg, cs);
    InlinedIsConst(names, consts, values);
    NewKnown(sc, env, names, consts, values, inl);
    TopOfNew(sc, names, consts, inl);
  }

  lemma {:induction false} NewKnown(sc: Scope, env: seq<Declared>, names: seq<string>, consts: seq<bool>, values: seq<Expr>, inl: Option<Value>)
    requires |names| > 0 && Known(sc, env) && (inl.Some? ==> |names| - 1 < |consts| && consts[|names| - 1])
    ensures Known(sc + NewLocals(names, consts, RegTop(sc), inl), env + DeclaredBy(Local(names, consts, values)))
  {
    hide RegTop;
  }

  lemma {:induction false} TopOfNew(sc: Scope, names: seq<string>, consts: seq<bool>, inl: Option<Value>)
    requires |names| > 0
    ensures RegTop(sc + NewLocals(names, consts, RegTop(sc), inl)) == RegTop(sc) + if inl.Some? then |names| - 1 else |names|
  {
    hide RegTop;
    AssignSim.NewLocalsTop(sc, names, consts, inl, |names|);
    var added := NewLocals(names, consts, RegTop(sc), inl);
    assert added[..|names|] == added;
  }

  lemma InlinedIsConst(names: seq<string>, consts: seq<bool>, values: seq<Expr>)
    requires |names| > 0
    ensures InlineLast(names, consts, values).Some? ==> |names| - 1 < |consts| && consts[|names| - 1]
  {
  }

  lemma {:induction false} SingleRefuses(sc: Scope, env: seq<Declared>, target: Expr, value: Expr, cs: CS)
    requires Known(sc, env)
    ensures Refuses(cs, CSingle(sc, target, value, cs).cs, LegalTarget(env, target), Fits(0, value) && TargetFits(target), 0)
  {
    hide CToReg, COperand, CStoreValue, CSetField, CSetGlobal, FindLocal, RegTop, IndexOf, OperandReg, LookupLocal, IsConstLocal, IsConstant, Fits, Known;
    match target
    case Name(x) =>
      NameTarget(sc, env, x);
      NameStores(sc, x, value, cs);
    case Field(t, x) => FieldStores(sc, t, x, value, cs);
    case Index(t, k) => IndexStores(sc, t, k, value, cs);
    case _ =>
  }

  lemma {:induction false} NameTarget(sc: Scope, env: seq<Declared>, x: string)
    requires Known(sc, env)
    ensures IsConstLocal(sc, x) <==> IsConstant(env, x)
  {
    ConstantIs(sc, env, x);
  }

  lemma {:induction false} NameStores(sc: Scope, x: string, value: Expr, cs: CS)
    ensures !IsConstLocal(sc, x) ==> Only(cs, CSingle(sc, Name(x), value, cs).cs, Fits(0, value))
    ensures IsConstLocal(sc, x) ==> CSingle(sc, Name(x), value, cs).cs == Fail(cs, AssignToConst)
  {
    hide CToReg, CStoreValue, CSetGlobal, FindLocal, IndexOf, LookupLocal, IsConstLocal, Fits;
    if LookupLocal(sc, x).Some? { ToRegOnly(sc, value, LookupLocal(sc, x).value, 0, cs); }
    ToRegOnly(sc, value, cs.free, 0, Reserve(cs));
    var cs1 := AddConst(cs, Str(x));
    StoreValueOnly(sc, value, cs1);
    var s := CStoreValue(sc, value, cs1);
    StoresToTable(sc, 0, ConstIndex(cs, Str(x)), s.c, s.k, x, s.f.cs);
  }

  lemma {:induction false} FieldStores(sc: Scope, t: Expr, x: string, value: Expr, cs: CS)
    ensures Only(cs, CSingle(sc, Field(t, x), value, cs).cs, Fits(0, value) && Fits(0, t))
  {
    hide COperand, CStoreValue, CSetField, IndexOf, OperandReg, Fits;
    var g := COperand(sc, t, 0, cs);
    OperandOnly(sc, t, 0, cs);
    StoreValueOnly(sc, value, g.cs);
    var s := CStoreValue(sc, value, g.cs);
    StoresToTable(sc, OperandReg(sc, t, cs), ConstIndex(s.f.cs, Str(x)), s.c, s.k, x, AddConst(s.f.cs, Str(x)));
  }

  lemma {:induction false} IndexStores(sc: Scope, t: Expr, k: Expr, value: Expr, cs: CS)
    ensures Only(cs, CSingle(sc, Index(t, k), value, cs).cs, Fits(0, value) && Fits(0, t) && Fits(0, k))
  {
    hide COperand, CStoreValue, IndexOf, OperandReg, Fits;
    var g := COperand(sc, t, 0, cs);
    OperandOnly(sc, t, 0, cs);
    StoreValueOnly(sc, value, g.cs);
    OperandOnly(sc, k, 0, g.cs);
    StoreValueOnly(sc, value, COperand(sc, k, 0, g.cs).cs);
  }

  // -- multiple assignment ----------------------------------------------------------------------------

  /** An operand is of the kind of its target. */
  predicate OfKind(t: Expr, op: Operand) {
    match t
    case Index(_, _) => op.ByInt? || op.ByReg?
    case Field(_, _) => op.ByField?
    case Name(_) => op.NoOperand? || op.EnvCopy?
    case _ => op.NoOperand?
  }

  predicate AllOfKind(targets: seq<Expr>, ops: seq<Operand>) {
    |ops| <= |targets| && forall i :: 0 <= i < |ops| ==> OfKind(targets[i], ops[i])
  }

  predicate AllTargetsFit(targets: seq<Expr>, n: nat) {
    forall i :: 0 <= i < n && i < |targets| ==> TargetFits(targets[i])
  }

  lemma {:induction false} TargetOperandOnly(sc: Scope, targets: seq<Expr>, i: nat, e: Expr, cs: CS)
    ensures Only(cs, CTargetOperand(sc, targets, i, e, cs).cs, Fits(0, e))
  {
    hide CToReg, FindLocal, Conflicts, Fits;
    ToRegOnly(sc, e, cs.free, 0, Reserve(cs));
  }

  lemma {:induction false} TargetsOnly(sc: Scope, targets: seq<Expr>, n: nat, cs: CS)
    requires n <= |targets|
    ensures var r := CTargets(sc, targets, n, cs);
            && Only(cs, r.f.cs, AllTargetsFit(targets, n)) && AllOfKind(targets, r.ops)
            && forall i :: i in r.pending ==> i < n && targets[i].Name?
  {
    hide CTargetOperand, FindLocal, TargetReg, IndexOf, EnvTargeted, RebindsEnv, IsGlobal, LookupLocal, Fits, Grows, Only, AllTargetsFit, AllOfKind, Settle;
    if n == 0 {
      NothingYet(targets, cs);
    } else {
      var prev := CTargets(sc, targets, n - 1, cs);
      var cs1 := prev.f.cs;
      TargetsOnly(sc, targets, n - 1, cs);
      match targets[n - 1] {
        case Index(t, k) =>
          var g := CTargetOperand(sc, targets, n - 1, t, cs1);
          var h := CTargetOperand(sc, targets, n - 1, k, g.cs);
          TargetOperandOnly(sc, targets, n - 1, t, cs1);
          TargetOperandOnly(sc, targets, n - 1, k, g.cs);
          OneFits(targets, n, cs, cs1, g.cs, Fits(0, t));
          InTurn(cs1, g.cs, g.cs.free, h.cs, Fits(0, t), Fits(0, k));
          OneFits(targets, n, cs, cs1, h.cs, Fits(0, t) && Fits(0, k));
          if SmallKey(k) { OneOfKind(targets, prev.ops, ByInt(TargetReg(sc, targets, n - 1, t, cs1), k.n)); }
          OneOfKind(targets, prev.ops, ByReg(TargetReg(sc, targets, n - 1, t, cs1), TargetReg(sc, targets, n - 1, k, g.cs)));
        case Field(t, x) =>
          var g := CTargetOperand(sc, targets, n - 1, t, cs1);
          TargetOperandOnly(sc, targets, n - 1, t, cs1);
          ConstantAdded(cs1, g.cs, Str(x), Fits(0, t));
          OneFits(targets, n, cs, cs1, AddConst(g.cs, Str(x)), Fits(0, t));
          OneOfKind(targets, prev.ops, ByField(TargetReg(sc, targets, n - 1, t, cs1), ConstIndex(g.cs, Str(x))));
        case Name(x) =>
          OneFits(targets, n, cs, cs1, cs1, true);
          SnapshotTaken(cs1);
          OneFits(targets, n, cs, cs1, Reserve(cs1), true);
          OneOfKind(targets, prev.ops, NoOperand);
          SettledKinds(targets, prev.ops, prev.pending, cs1.free);
          OneOfKind(targets, Settle(prev.ops, prev.pending, cs1.free), NoOperand);
        case _ =>
          OneFits(targets, n, cs, cs1, cs1, true);
          OneOfKind(targets, prev.ops, NoOperand);
      }
    }
  }

  lemma NothingYet(targets: seq<Expr>, cs: CS)
    ensures Only(cs, cs, AllTargetsFit(targets, 0)) && AllOfKind(targets, [])
  {
  }

  lemma SnapshotTaken(cs: CS)
    ensures Only(cs, Reserve(cs), true) && Only(cs, cs, true)
  {
  }

  lemma ConstantAdded(cs: CS, cs': CS, v: Value, fits: bool)
    requires Only(cs, cs', fits)
    ensures Only(cs, AddConst(cs', v), fits)
  {
    hide IndexOf;
  }

  lemma OneFits(targets: seq<Expr>, n: nat, cs: CS, cs1: CS, cs2: CS, fits: bool)
    requires 0 < n <= |targets| && Only(cs, cs1, AllTargetsFit(targets, n - 1)) && (Only(cs1, cs2, fits) || cs1 == cs2) && (TargetFits(targets[n - 1]) ==> fits)
    ensures Only(cs, cs2, AllTargetsFit(targets, n))
  {
    assert AllTargetsFit(targets, n) ==> AllTargetsFit(targets, n - 1) && TargetFits(targets[n - 1]);
  }

  lemma OneOfKind(targets: seq<Expr>, ops: seq<Operand>, op: Operand)
    requires AllOfKind(targets, ops) && |ops| < |targets| && OfKind(targets[|ops|], op)
    ensures AllOfKind(targets, ops + [op])
  {
  }

  lemma SettledKinds(targets: seq<Expr>, ops: seq<Operand>, pending: set<nat>, snap: nat)
    requires AllOfKind(targets, ops) && forall i :: i in pending ==> i < |ops| && targets[i].Name?
    ensures AllOfKind(targets, Settle(ops, pending, snap))
  {
  }

  lemma {:induction false} StoreTargetRefuses(sc: Scope, env: seq<Declared>, target: Expr, op: Operand, v: nat, cs: CS)
    requires Known(sc, env) && OfKind(target, op)
    ensures Refuses(cs, CStoreTarget(sc, target, op, v, cs).cs, LegalTarget(env, target), true, 0)
  {
    hide CSetField, CSetGlobal, FindLocal, IndexOf, LookupLocal, IsConstLocal, IsConstant, Known;
    match target
    case Name(x) =>
      NameTarget(sc, env, x);
      var cs1, k := AddConst(cs, Str(x)), ConstIndex(cs, Str(x));
      StoresToTable(sc, if op.EnvCopy? then op.t else 0, k, v, 0, x, cs1);
    case Field(_, _) => StoresToTable(sc, op.t, op.f, v, 0, "", cs);
    case _ =>
  }

  predicate LegalFrom(env: seq<Declared>, targets: seq<Expr>, n: nat) {
    forall i :: 0 <= i < n && i < |targets| ==> LegalTarget(env, targets[i])
  }

  lemma {:induction false} StoresRefuse(sc: Scope, env: seq<Declared>, targets: seq<Expr>, ops: seq<Operand>, n: nat, valBase: nat, cs: CS)
    requires Known(sc, env) && n <= |targets| == |ops| && AllOfKind(targets, ops)
    ensures Refuses(cs, CStores(sc, targets, ops, n, valBase, cs).cs, LegalFrom(env, targets, n), true, 0)
  {
    hide CStoreTarget, LegalTarget, Known, OfKind;
    if n > 0 {
      var g := CStoreTarget(sc, targets[n - 1], ops[n - 1], valBase + n - 1, cs);
      StoreTargetRefuses(sc, env, targets[n - 1], ops[n - 1], valBase + n - 1, cs);
      StoresRefuse(sc, env, targets, ops, n - 1, valBase, g.cs);
    }
  }

  lemma {:induction false} MultiRefuses(sc: Scope, env: seq<Declared>, targets: seq<Expr>, values: seq<Expr>, cs: CS)
    requires Known(sc, env)
    ensures Refuses(cs, CMulti(sc, targets, values, cs).cs, LegalFrom(env, targets, |targets|), AllFit(values) && AllTargetsFit(targets, |targets|), 0)
  {
    hide CTargets, CValues, CStores, LegalFrom, Known, AllFit, AllTargetsFit, AllOfKind, NilEach, Grows;
    var ts := CTargets(sc, targets, |targets|, cs);
    TargetsOnly(sc, targets, |targets|, cs);
    var valBase := ts.f.cs.free;
    var cs1 := CheckRegsAt(ts.f.cs, valBase + |targets|);
    ValuesOnly(sc, values, |values|, valBase, cs1);
    var vs := CValues(sc, values, |values|, valBase, cs1);
    var cs2 := if |values| < |targets| then SetFree(vs.cs, valBase + |targets|) else vs.cs;
    StoresRefuse(sc, env, targets, ts.ops, |targets|, valBase, cs2);
  }

  // -- blocks -----------------------------------------------------------------------------------------

  lemma {:induction false} AssignRefuses(sc: Scope, env: seq<Declared>, targets: seq<Expr>, values: seq<Expr>, inLoop: bool, cs: CS)
    requires Known(sc, env) && |targets| > 0 && |values| > 0
    ensures Refuses(cs, CAssign(sc, targets, values, cs).cs, LegalStmt(env, inLoop, Assign(targets, values)), ShallowStmt(Assign(targets, values)), 0)
  {
    hide CSingle, CMulti, LegalTarget, TargetFits, Fits, Known;
    if |targets| == 1 && |values| == 1 {
      SingleRefuses(sc, env, targets[0], values[0], cs);
    } else {
      MultiRefuses(sc, env, targets, values, cs);
    }
  }

  /** The guard of an if, whatever its jump. */
  lemma GuardOnly(sc: Scope, cond: Expr, skip: nat, cs: CS)
    ensures Only(cs, CGuard(sc, cond, skip, cs).cs, Fits(0, cond)) && CGuard(sc, cond, skip, cs).cs == CGuard(sc, cond, 0, cs).cs
  {
    hide CCond, Fits;
    CondOnly(sc, cond, false, cs);
  }

  lemma Still(cs: CS, shallow: bool)
    ensures Refuses(cs, cs, true, shallow, 0)
  {
  }

  /** The compiler refuses an illegal block, and a legal one only for a limit it exceeds. */
  lemma {:induction false} BlockRefuses(sc: Scope, env: seq<Declared>, b: Block, ln: Option<nat>, cs: CS)
    requires Parsed(b) && Known(sc, env) && cs.free == RegTop(sc)
    ensures var f := CBlock(sc, b, ln, cs);
            Refuses(cs, f.cs, LegalBlock(env, ln.Some?, b), Shallow(b), Most(b, RegTop(sc)))
    decreases b, 0
  {
    hide CStmt, RegTop, Known, Refuses, LegalStmt, ShallowStmt, MostIn;
    if b.BNil? {
      Still(cs, true);
    } else if cs.err != NoError {
      StaysRefused(cs, LegalBlock(env, ln.Some?, b), Shallow(b), Most(b, RegTop(sc)));
    } else {
      var g := CStmt(sc, b.s, ln, cs);
      var env' := env + DeclaredBy(b.s);
      StmtRefuses(sc, env, b.s, ln, cs);
        var cs1 := g.cs.(free := RegTop(g.sc));
      BlockRefuses(g.sc, env', b.rest, ln, cs1);
      InOrder(cs, g.cs, RegTop(g.sc), CBlock(g.sc, b.rest, ln, cs1).cs, LegalStmt(env, ln.Some?, b.s), LegalBlock(env', ln.Some?, b.rest),
              ShallowStmt(b.s), Shallow(b.rest), MostIn(b.s, RegTop(sc)), Most(b.rest, RegTop(g.sc)));
    }
  }

  lemma StaysRefused(cs: CS, legal: bool, shallow: bool, most: nat)
    requires cs.err != NoError
    ensures Refuses(cs, cs, legal, shallow, most)
  {
  }

  lemma {:induction false} ScopeRefuses(sc: Scope, env: seq<Declared>, b: Block, ln: Option<nat>, cs: CS)
    requires Parsed(b) && Known(sc, env) && cs.free == RegTop(sc)
    ensures Refuses(cs, CScope(sc, b, ln, cs).cs, LegalBlock(env, ln.Some?, b), Shallow(b), Most(b, RegTop(sc))) && CScope(sc, b, ln, cs).cs.free == RegTop(sc)
    decreases b, 1
  {
    hide CBlock, RegTop, Known, Refuses, LegalBlock, Shallow, Most;
    BlockRefuses(sc, env, b, ln, cs);
    FreeOnly(cs, CBlock(sc, b, ln, cs).cs, LegalBlock(env, ln.Some?, b), Shallow(b), Most(b, RegTop(sc)), RegTop(sc));
  }

  lemma {:induction false} TailRefuses(sc: Scope, env: seq<Declared>, t: Tail, ln: Option<nat>, cs: CS)
    requires ParsedTail(t) && Known(sc, env) && cs.free == RegTop(sc)
    ensures Refuses(cs, CTail(sc, t, ln, cs).cs, LegalTail(env, ln.Some?, t), ShallowTail(t), MostInTail(t, RegTop(sc)))
    decreases t, 0
  {
    hide CScope, CCond, Known, Refuses, LegalBlock, Shallow, Most, Fits, Only;
    match t
    case NoElse => Still(cs, true);
    case Else(body) => ScopeRefuses(sc, env, body, ln, cs);
    case ElseIf(cond, body, rest) =>
      var g := CCond(sc, cond, false, cs);
      var h := CScope(sc, body, ln, g.cs);
      CondOnly(sc, cond, false, cs);
      OnlyRefuses(cs, g.cs, Fits(0, cond), Fits(0, cond));
      ScopeRefuses(sc, env, body, ln, g.cs);
      InOrder(cs, g.cs, g.cs.free, h.cs, true, LegalBlock(env, ln.Some?, body), Fits(0, cond), Shallow(body), 0, Most(body, RegTop(sc)));
      TailRefuses(sc, env, rest, ln, h.cs);
      InOrder(cs, h.cs, h.cs.free, CTail(sc, rest, ln, h.cs).cs, LegalBlock(env, ln.Some?, body), LegalTail(env, ln.Some?, rest),
              Fits(0, cond) && Shallow(body), ShallowTail(rest), Most(body, RegTop(sc)), MostInTail(rest, RegTop(sc)));
  }

  /** A statement, and what is declared after it. */
  lemma {:induction false} StmtRefuses(sc: Scope, env: seq<Declared>, s: Stmt, ln: Option<nat>, cs: CS)
    requires ParsedStmt(s) && Known(sc, env) && cs.free == RegTop(sc)
    ensures var f := CStmt(sc, s, ln, cs);
            Refuses(cs, f.cs, LegalStmt(env, ln.Some?, s), ShallowStmt(s), MostIn(s, RegTop(sc))) && Known(f.sc, env + DeclaredBy(s)) && RegTop(f.sc) == RegTop(sc) + Kept(s)
    decreases s, 1
  {
    hide CLocal, CAssign, CScope, CCond, CBlock, CIf, Known, Refuses, LegalBlock, Shallow, Most, Fits, LegalTarget, TargetFits, AllFit;
    assert env + [] == env;
    match s
    case Local(names, consts, values) => LocalRefuses(sc, env, names, consts, values, cs);
    case Assign(targets, values) =>
      AssignRefuses(sc, env, targets, values, ln.Some?, cs);
    case Do(body) => ScopeRefuses(sc, env, body, ln, cs);
    case Empty => Still(cs, true);
    case Break => BreakRefuses(sc, env, ln, cs);
    case If(_, _, _) => IfRefuses(sc, env, s, ln, cs);
    case While(cond, body) => WhileRefuses(sc, env, cond, body, ln, cs);
    case Repeat(body, cond) => RepeatRefuses(sc, env, body, cond, ln, cs);
  }

  lemma {:induction false} BreakRefuses(sc: Scope, env: seq<Declared>, ln: Option<nat>, cs: CS)
    ensures Refuses(cs, CStmt(sc, Break, ln, cs).cs, ln.Some?, true, 0)
  {
    hide RegTop;
  }

  lemma {:induction false} IfRefuses(sc: Scope, env: seq<Declared>, s: Stmt, ln: Option<nat>, cs: CS)
    requires s.If? && ParsedStmt(s) && Known(sc, env) && cs.free == RegTop(sc)
    ensures Refuses(cs, CIf(sc, s, ln, cs).cs, LegalStmt(env, ln.Some?, s), ShallowStmt(s), MostIn(s, RegTop(sc)))
    decreases s, 0
  {
    hide CScope, CGuard, CTail, Known, Refuses, LegalBlock, Shallow, Most, Fits, Only, LegalTail, ShallowTail, MostInTail;
    var g := CGuard(sc, s.cond, 0, cs);
    var h := CScope(sc, s.thn, ln, g.cs);
    var k := CTail(sc, s.tail, ln, h.cs);
    GuardOnly(sc, s.cond, 0, cs);
    OnlyRefuses(cs, g.cs, Fits(0, s.cond), Fits(0, s.cond));
    ScopeRefuses(sc, env, s.thn, ln, g.cs);
    InOrder(cs, g.cs, g.cs.free, h.cs, true, LegalBlock(env, ln.Some?, s.thn), Fits(0, s.cond), Shallow(s.thn), 0, Most(s.thn, RegTop(sc)));
    TailRefuses(sc, env, s.tail, ln, h.cs);
    InOrder(cs, h.cs, h.cs.free, k.cs, LegalBlock(env, ln.Some?, s.thn), LegalTail(env, ln.Some?, s.tail),
            Fits(0, s.cond) && Shallow(s.thn), ShallowTail(s.tail), Most(s.thn, RegTop(sc)), MostInTail(s.tail, RegTop(sc)));
  }

  lemma {:induction false} WhileRefuses(sc: Scope, env: seq<Declared>, cond: Expr, body: Block, ln: Option<nat>, cs: CS)
    requires Parsed(body) && Known(sc, env) && cs.free == RegTop(sc)
    ensures Refuses(cs, CStmt(sc, While(cond, body), ln, cs).cs, LegalBlock(env, true, body), Fits(0, cond) && Shallow(body), Most(body, RegTop(sc)))
    ensures CStmt(sc, While(cond, body), ln, cs).sc == sc
    decreases body, 2
  {
    hide CScope, CCond, Known, Refuses, LegalBlock, Shallow, Most, Fits, Only;
    var g := if IsConstTrue(cond) then Frag([], cs) else CCond(sc, cond, false, cs);
    var h := CScope(sc, body, Some(|sc|), g.cs);
    if !IsConstTrue(cond) {
      CondOnly(sc, cond, false, cs);
      OnlyRefuses(cs, g.cs, Fits(0, cond), Fits(0, cond));
    } else {
      Still(cs, Fits(0, cond));
    }
    ScopeRefuses(sc, env, body, Some(|sc|), g.cs);
    InOrder(cs, g.cs, g.cs.free, h.cs, true, LegalBlock(env, true, body), Fits(0, cond), Shallow(body), 0, Most(body, RegTop(sc)));
  }

  lemma {:induction false} RepeatRefuses(sc: Scope, env: seq<Declared>, body: Block, cond: Expr, ln: Option<nat>, cs: CS)
    requires Parsed(body) && Known(sc, env) && cs.free == RegTop(sc)
    ensures Refuses(cs, CStmt(sc, Repeat(body, cond), ln, cs).cs, LegalBlock(env, true, body), Shallow(body) && Fits(0, cond), Most(body, RegTop(sc)))
    ensures CStmt(sc, Repeat(body, cond), ln, cs).sc == sc
    decreases body, 2
  {
    hide CBlock, CCond, RegTop, Known, Refuses, LegalBlock, Shallow, Most, Fits, Only;
    var h := CBlock(sc, body, Some(|sc|), cs);
    var g := if IsConstTrue(cond) || IsConstFalsy(cond) then Frag([], h.cs) else CCond(h.sc, cond, false, h.cs);
    BlockRefuses(sc, env, body, Some(|sc|), cs);
    if IsConstTrue(cond) || IsConstFalsy(cond) {
      Still(h.cs, Fits(0, cond));
    } else {
      CondOnly(h.sc, cond, false, h.cs);
      OnlyRefuses(h.cs, g.cs, Fits(0, cond), Fits(0, cond));
    }
    InOrder(cs, h.cs, h.cs.free, g.cs, LegalBlock(env, true, body), true, Shallow(body), Fits(0, cond), Most(body, RegTop(sc)), 0);
    FreeOnly(cs, g.cs, LegalBlock(env, true, body), Shallow(body) && Fits(0, cond), Most(body, RegTop(sc)), RegTop(sc));
  }
}
