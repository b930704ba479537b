/**
 The stack a chunk asks for is large enough: what holds of the registers of an
 expression holds of whole blocks, declarations and assignments included.
*/
module StmtRegisters {
  import opened Wrappers
  import opened LuaValues
  import opened LuaSource
  import opened LuaStmts
  import opened Machine
  import opened ExprSpec
  import opened StmtSpec
  import opened Registers

  predicate SlotsUse(code: seq<Slot>, n: nat) {
    forall j :: 0 <= j < |code| && code[j].Op? ==> Fits(code[j].i, n)
  }

  /** As Contained, for the code of statements; the locals they leave in scope are below the mark too. */
  predicate Holds(f: SFrag, cs: CS) {
    && (f.cs.err == NoError ==> cs.err == NoError && SlotsUse(f.code, f.cs.maxr))
    && (Limited(cs) ==> Limited(f.cs)) && cs.maxr <= f.cs.maxr && RegTop(f.sc) <= f.cs.maxr
  }

  // -- slots ----------------------------------------------------------------------------

  lemma LiftUse(code: seq<Instr>, n: nat)
    requires AllUse(code, n)
    ensures SlotsUse(Lift(code), n)
  {
    hide Fits;
  }

  lemma SlotsBoth(a: seq<Slot>, b: seq<Slot>, n: nat, m: nat)
    requires SlotsUse(a, n) && SlotsUse(b, m) && n <= m
    ensures SlotsUse(a + b, m)
  {
    forall j | 0 <= j < |a + b| && (a + b)[j].Op? ensures Fits((a + b)[j].i, m) {
      if j < |a| {
        assert Fits(a[j].i, n);
        UseWider(a[j].i, n, m);
      }
    }
  }

  lemma UseWider(i: Instr, n: nat, m: nat)
    requires Fits(i, n) && n <= m
    ensures Fits(i, m)
  {
  }

  lemma ResolveUse(code: seq<Slot>, n: nat)
    requires SlotsUse(code, n)
    ensures SlotsUse(ResolveBreaks(code), n)
  {
  }

  lemma JumpUse(j: int, n: nat)
    ensures SlotsUse([Op(Jmp(j))], n) && AllUse([Jmp(j)], n)
  {
  }

  // -- conditions --------------------------------------------------------------------------

  lemma {:induction false} CondContained(sc: Scope, cond: Expr, flag: bool, cs: CS)
    requires RegTop(sc) <= cs.maxr
    ensures Contained(CCond(sc, cond, flag, cs), cs)
  {
    hide CCompareTest, CToReg, RegTop, FindLocal, AllUse;
    if cond.Paren? { CondContained(sc, cond.inner, flag, cs); }
    else if cond.Un? && cond.uop.Not? { CondContained(sc, cond.operand, !flag, cs); }
    else if cond.Bin? && IsComparison(cond.op) { TestContained(sc, cond, flag, 0, cs); }
    else if PlainLocal(sc, cond).Some? {
      PlainBelow(sc, cond);
      OneTest(PlainLocal(sc, cond).value, KFlag(flag), cs.maxr);
    } else {
      var g := CToReg(sc, cond, cs.free, 0, cs);
      ToRegContained(sc, cond, cs.free, 0, cs);
      if g.cs.err == NoError { OneTest(cs.free, KFlag(flag), g.cs.maxr); }
      Ended(g, [Test(cs.free, KFlag(flag))], cs.free, cs);
    }
  }

  lemma OneTest(a: nat, k: nat, n: nat)
    requires a < n && k < 2
    ensures AllUse([Test(a, k)], n)
  {
  }

  // -- local declarations ----------------------------------------------------------------------

  lemma {:induction false} LocalValuesContained(sc: Scope, values: seq<Expr>, n: nat, nNames: nat, base: nat, nReg: nat, cs: CS)
    requires n <= |values| && RegTop(sc) <= cs.maxr && cs.free == base
    ensures var f := CLocalValues(sc, values, n, nNames, base, nReg, cs);
            Contained(f, cs) && (0 < n <= nNames || n == 0 ==> f.cs.free == base + n)
  {
    hide CToReg, RegTop, AllUse;
    if n == 0 {
      Nothing(cs);
    } else {
      var prev := CLocalValues(sc, values, n - 1, nNames, base, nReg, cs);
      LocalValuesContained(sc, values, n - 1, nNames, base, nReg, cs);
      var reg := if n <= nNames then base + n - 1 else prev.cs.free;
      var g := CToReg(sc, values[n - 1], reg, 0, prev.cs);
      ToRegContained(sc, values[n - 1], reg, 0, prev.cs);
      Chained(prev, g, cs, prev.cs);
      Released(Then(prev, g), cs, if n <= nNames then SetFree(g.cs, base + n) else g.cs.(free := base + nReg));
    }
  }

  lemma Nothing(cs: CS)
    ensures Contained(Frag([], cs), cs)
  {
  }

  /** Moving freeReg to a register that is already below the mark. */
  lemma Released(f: Frag, cs: CS, cs': CS)
    requires Contained(f, cs) && cs' == f.cs.(free := cs'.free, maxr := cs'.maxr) && cs'.maxr >= f.cs.maxr && (f.cs.err == NoError ==> cs'.maxr == f.cs.maxr)
    ensures Contained(Frag(f.code, cs'), cs)
  {
    hide AllUse;
  }

  lemma {:induction false} RegTopOf(sc: Scope, m: nat)
    requires forall i :: 0 <= i < |sc| && sc[i].loc.InReg? ==> sc[i].loc.r < m
    ensures RegTop(sc) <= m
  {
    if sc != [] { RegTopOf(sc[..|sc| - 1], m); }
  }

  lemma {:induction false} InRegBelow(sc: Scope, i: nat)
    requires i < |sc| && sc[i].loc.InReg?
    ensures sc[i].loc.r < RegTop(sc)
  {
    if i < |sc| - 1 { InRegBelow(sc[..|sc| - 1], i); }
  }

  lemma {:induction false} NewTop(sc: Scope, ls: seq<LocalVar>, m: nat)
    requires RegTop(sc) <= m && forall i :: 0 <= i < |ls| && ls[i].loc.InReg? ==> ls[i].loc.r < m
    ensures RegTop(sc + ls) <= m
  {
    hide RegTop;
    forall i | 0 <= i < |sc + ls| && (sc + ls)[i].loc.InReg? ensures (sc + ls)[i].loc.r < m {
      if i < |sc| { InRegBelow(sc, i); }
    }
    RegTopOf(sc + ls, m);
  }

  lemma {:induction false} LocalContained(sc: Scope, names: seq<string>, consts: seq<bool>, values: seq<Expr>, cs: CS)
    requires |names| > 0 && RegTop(sc) <= cs.maxr
    ensures Holds(CLocal(sc, names, consts, values, cs), cs)
  {
    hide CLocalValues, RegTop, AllUse, SlotsUse, InlineLast, NewLocals;
    var base, inl := cs.free, InlineLast(names, consts, values);
    var nReg := if inl.Some? then |names| - 1 else |names|;
    var n := if inl.Some? then |values| - 1 else |values|;
    var g := CLocalValues(sc, values, n, |names|, base, nReg, cs);
    LocalValuesContained(sc, values, n, |names|, base, nReg, cs);
    var f := CLocal(sc, names, consts, values, cs);
    if f.cs.err == NoError {
      Wider(g.code, g.cs.maxr, f.cs.maxr);
      NilUse(base, |values|, |names|, f.cs.maxr);
      Both(g.code, NilFill(base, |values|, |names|), f.cs.maxr);
      LiftUse(g.code + NilFill(base, |values|, |names|), f.cs.maxr);
    }
    NewBelow(names, consts, base, inl, f.cs.maxr);
    NewTop(sc, NewLocals(names, consts, base, inl), f.cs.maxr);
  }

  lemma NilUse(base: nat, nValues: nat, nNames: nat, m: nat)
    requires nValues < nNames ==> base + nNames <= m
    ensures AllUse(NilFill(base, nValues, nNames), m)
  {
  }

  lemma NewBelow(names: seq<string>, consts: seq<bool>, base: nat, inl: Option<Value>, m: nat)
    requires |names| > 0 && base + (if inl.Some? then |names| - 1 else |names|) <= m
    ensures var ls := NewLocals(names, consts, base, inl); forall i :: 0 <= i < |ls| && ls[i].loc.InReg? ==> ls[i].loc.r < m
  {
  }

  // -- assignment --------------------------------------------------------------------------------

  lemma {:induction false} StoreValueContained(sc: Scope, value: Expr, cs: CS)
    requires RegTop(sc) <= cs.maxr
    ensures var s := CStoreValue(sc, value, cs);
            Contained(s.f, cs) && (s.k == 0 ==> s.c < s.f.cs.maxr) && Chosen(s.c, s.k)
  {
    hide COperand, RegTop, OperandReg, FindLocal, IndexOf, AllUse, TryFoldScalar, Grows;
    OperandContained(sc, value, 0, cs);
    if TryFoldScalar(value).Some? {
      var v := TryFoldScalar(value).value;
      var cs1 := AddConst(cs, v);
      SameMark(cs, v);
      OperandContained(sc, value, 0, cs1);
      Pooled(COperand(sc, value, 0, cs1), cs, v);
      Nothing(cs1);
      Pooled(Frag([], cs1), cs, v);
    }
  }

  lemma SameMark(cs: CS, v: Value)
    ensures AddConst(cs, v) == cs.(consts := AddConst(cs, v).consts)
  {
    hide IndexOf;
  }

  lemma SetFieldContained(tableReg: nat, k: nat, v: nat, vk: nat, cs: CS)
    requires tableReg < cs.maxr && (vk == 0 ==> v < cs.maxr) && Chosen(v, vk)
    ensures Contained(CSetField(tableReg, k, v, vk, cs), cs)
  {
  }

  lemma SetTabUpContained(k: nat, v: nat, vk: nat, cs: CS)
    requires (vk == 0 ==> v < cs.maxr) && Chosen(v, vk)
    ensures Contained(CSetTabUp(k, v, vk, cs), cs)
  {
  }

  lemma {:induction false} SetGlobalContained(sc: Scope, x: string, v: nat, vk: nat, k: nat, cs: CS)
    requires RegTop(sc) <= cs.maxr && (vk == 0 ==> v < cs.maxr) && Chosen(v, vk)
    ensures Contained(CSetGlobal(sc, x, v, vk, k, cs), cs)
  {
    hide CSetField, CSetTabUp, LookupLocal, RegTop, Contained;
    if LookupLocal(sc, ENV).Some? {
      LocalBelow(sc, ENV);
      SetFieldContained(LookupLocal(sc, ENV).value, k, v, vk, cs);
    } else {
      SetTabUpContained(k, v, vk, cs);
    }
  }

  lemma StoreUse(tr: nat, k: nat, c: nat, ck: nat, n: nat)
    requires tr < n && (ck == 0 ==> c < n) && Chosen(c, ck)
    ensures (k < 256 ==> AllUse([SetI(tr, k, c, ck)], n)) && (k < n ==> AllUse([SetTable(tr, k, c, ck)], n)) && AllUse([SetUpval(tr, 0)], n)
  {
  }

  lemma {:induction false} SingleContained(sc: Scope, target: Expr, value: Expr, cs: CS)
    requires RegTop(sc) <= cs.maxr
    ensures Contained(CSingle(sc, target, value, cs), cs)
  {
    hide CToReg, COperand, CStoreValue, CSetField, CSetGlobal, FindLocal, RegTop, AllUse, IndexOf, OperandReg, LookupLocal, IsConstLocal, Grows;
    match target
    case Name(x) =>
      if IsConstLocal(sc, x) {
      } else if LookupLocal(sc, x).Some? {
        LocalBelow(sc, x);
        ToRegContained(sc, value, LookupLocal(sc, x).value, 0, cs);
      } else if x == ENV {
        EnvContained(sc, value, cs);
      } else {
        GlobalContained(sc, x, value, cs);
      }
    case Field(t, x) => FieldStoreContained(sc, t, x, value, cs);
    case Index(t, k) => IndexStoreContained(sc, t, k, value, cs);
    case _ =>
  }

  lemma {:induction false} EnvContained(sc: Scope, value: Expr, cs: CS)
    requires RegTop(sc) <= cs.maxr
    ensures var g := CToReg(sc, value, cs.free, 0, Reserve(cs)); Contained(Frag(g.code + [SetUpval(cs.free, 0)], g.cs.(free := cs.free)), cs)
  {
    hide CToReg, RegTop, AllUse;
    var g := CToReg(sc, value, cs.free, 0, Reserve(cs));
    Reserved(sc, cs);
    ToRegContained(sc, value, cs.free, 0, Reserve(cs));
    StoreUse(cs.free, 0, 0, 1, g.cs.maxr);
    Ended(g, [SetUpval(cs.free, 0)], cs.free, Reserve(cs));
    After(Frag(g.code + [SetUpval(cs.free, 0)], g.cs.(free := cs.free)), cs, Reserve(cs));
  }

  lemma {:induction false} GlobalContained(sc: Scope, x: string, value: Expr, cs: CS)
    requires RegTop(sc) <= cs.maxr
    ensures var cs1 := AddConst(cs, Str(x));
            var s := CStoreValue(sc, value, cs1);
            var g := CSetGlobal(sc, x, s.c, s.k, ConstIndex(cs, Str(x)), s.f.cs);
            Contained(Frag(s.f.code + g.code, g.cs.(free := cs.free)), cs)
  {
    hide CStoreValue, CSetGlobal, RegTop, AllUse, IndexOf;
    var cs1 := AddConst(cs, Str(x));
    SameMark(cs, Str(x));
    var s := CStoreValue(sc, value, cs1);
    StoreValueContained(sc, value, cs1);
    var g := CSetGlobal(sc, x, s.c, s.k, ConstIndex(cs, Str(x)), s.f.cs);
    SetGlobalContained(sc, x, s.c, s.k, ConstIndex(cs, Str(x)), s.f.cs);
    Chained(s.f, g, cs1, s.f.cs);
    Pooled(Then(s.f, g), cs, Str(x));
  }

  lemma {:induction false} FieldStoreContained(sc: Scope, t: Expr, x: string, value: Expr, cs: CS)
    requires RegTop(sc) <= cs.maxr
    ensures Contained(CSingle(sc, Field(t, x), value, cs), cs)
  {
    hide COperand, CStoreValue, CSetField, RegTop, AllUse, IndexOf, OperandReg, Grows;
    var g := COperand(sc, t, 0, cs);
    OperandContained(sc, t, 0, cs);
    var s := CStoreValue(sc, value, g.cs);
    StoreValueContained(sc, value, g.cs);
    Chained(g, s.f, cs, g.cs);
    var cs2 := AddConst(s.f.cs, Str(x));
    SameMark(s.f.cs, Str(x));
    var h := CSetField(OperandReg(sc, t, cs), ConstIndex(s.f.cs, Str(x)), s.c, s.k, cs2);
    SetFieldContained(OperandReg(sc, t, cs), ConstIndex(s.f.cs, Str(x)), s.c, s.k, cs2);
    Pooled(h, s.f.cs, Str(x));
    Chained(Then(g, s.f), h, cs, s.f.cs);
  }

  lemma {:induction false} IndexStoreContained(sc: Scope, t: Expr, k: Expr, value: Expr, cs: CS)
    requires RegTop(sc) <= cs.maxr
    ensures Contained(CSingle(sc, Index(t, k), value, cs), cs)
  {
    hide COperand, CStoreValue, RegTop, AllUse, IndexOf, OperandReg, Grows;
    var g := COperand(sc, t, 0, cs);
    var tr := OperandReg(sc, t, cs);
    OperandContained(sc, t, 0, cs);
    if SmallKey(k) {
      var s := CStoreValue(sc, value, g.cs);
      StoreValueContained(sc, value, g.cs);
      Chained(g, s.f, cs, g.cs);
      StoreUse(tr, k.n, s.c, s.k, s.f.cs.maxr);
      Ended(Then(g, s.f), [SetI(tr, k.n, s.c, s.k)], cs.free, cs);
    } else {
      var h := COperand(sc, k, 0, g.cs);
      OperandContained(sc, k, 0, g.cs);
      Chained(g, h, cs, g.cs);
      var s := CStoreValue(sc, value, h.cs);
      StoreValueContained(sc, value, h.cs);
      Chained(Then(g, h), s.f, cs, h.cs);
      var kr := OperandReg(sc, k, g.cs);
      StoreUse(tr, kr, s.c, s.k, s.f.cs.maxr);
      Ended(Then(Then(g, h), s.f), [SetTable(tr, kr, s.c, s.k)], cs.free, cs);
    }
  }

  // -- multiple assignment ----------------------------------------------------------------------------

  predicate OperandBelow(op: Operand, n: nat) {
    match op
    case NoOperand => true
    case ByInt(t, k) => t < n && k < 256
    case ByReg(t, k) => t < n && k < n
    case ByField(t, _) => t < n
    case EnvCopy(t) => t < n
  }

  predicate OperandsBelow(ops: seq<Operand>, n: nat) {
    forall i :: 0 <= i < |ops| ==> OperandBelow(ops[i], n)
  }

  lemma MoreOperands(ops: seq<Operand>, op: Operand, n: nat, m: nat)
    requires OperandsBelow(ops, n) && n <= m && OperandBelow(op, m)
    ensures OperandsBelow(ops + [op], m)
  {
    forall i | 0 <= i < |ops| ensures OperandBelow(ops[i], m) {
      assert OperandBelow(ops[i], n);
    }
  }

  lemma {:induction false} TargetOperandContained(sc: Scope, targets: seq<Expr>, i: nat, e: Expr, cs: CS)
    requires RegTop(sc) <= cs.maxr
    ensures Contained(CTargetOperand(sc, targets, i, e, cs), cs) && TargetReg(sc, targets, i, e, cs) < CTargetOperand(sc, targets, i, e, cs).cs.maxr
  {
    hide CToReg, RegTop, FindLocal, AllUse, Conflicts;
    if PlainLocal(sc, e).Some? { PlainBelow(sc, e); }
    Nothing(cs);
    Reserved(sc, cs);
    ToRegContained(sc, e, cs.free, 0, Reserve(cs));
    After(CToReg(sc, e, cs.free, 0, Reserve(cs)), cs, Reserve(cs));
  }

  lemma {:induction false} TargetsContained(sc: Scope, targets: seq<Expr>, n: nat, cs: CS)
    requires n <= |targets| && RegTop(sc) <= cs.maxr
    ensures var r := CTargets(sc, targets, n, cs); Contained(r.f, cs) && OperandsBelow(r.ops, r.f.cs.maxr)
  {
    hide CTargetOperand, RegTop, FindLocal, AllUse, TargetReg, IndexOf, OperandsBelow, EnvTargeted, RebindsEnv, IsGlobal, LookupLocal, Settle, Grows;
    if n == 0 {
      Nothing(cs);
      NoneBelow(cs.maxr);
    } else {
      var prev := CTargets(sc, targets, n - 1, cs);
      TargetsContained(sc, targets, n - 1, cs);
      var cs1 := prev.f.cs;
      match targets[n - 1] {
        case Index(t, k) => IndexTargetContained(sc, targets, n - 1, t, k, prev, cs);
        case Field(t, x) =>
          var g := CTargetOperand(sc, targets, n - 1, t, cs1);
          TargetOperandContained(sc, targets, n - 1, t, cs1);
          Chained(prev.f, g, cs, cs1);
          SameMark(g.cs, Str(x));
          Released(Then(prev.f, g), cs, g.cs);
          WithPool(Then(prev.f, g), cs, Str(x));
          MoreOperands(prev.ops, ByField(TargetReg(sc, targets, n - 1, t, cs1), ConstIndex(g.cs, Str(x))), cs1.maxr, g.cs.maxr);
        case Name(x) =>
          MoreOperands(prev.ops, NoOperand, cs1.maxr, cs1.maxr);
          SnapshotContained(sc, prev, cs);
        case _ => MoreOperands(prev.ops, NoOperand, cs1.maxr, cs1.maxr);
      }
    }
  }

  lemma NoneBelow(n: nat)
    ensures OperandsBelow([], n)
  {
  }

  /** One constant more in the pool. */
  lemma WithPool(f: Frag, cs: CS, v: Value)
    requires Contained(f, cs)
    ensures Contained(Frag(f.code, AddConst(f.cs, v)), cs)
  {
    hide AllUse, IndexOf;
  }

  lemma {:induction false} IndexTargetContained(sc: Scope, targets: seq<Expr>, i: nat, t: Expr, k: Expr, prev: Targets, cs: CS)
    requires RegTop(sc) <= cs.maxr && Contained(prev.f, cs) && OperandsBelow(prev.ops, prev.f.cs.maxr)
    ensures var g := CTargetOperand(sc, targets, i, t, prev.f.cs);
            var h := CTargetOperand(sc, targets, i, k, g.cs);
            var tr := TargetReg(sc, targets, i, t, prev.f.cs);
            && Contained(Frag(prev.f.code + g.code, g.cs), cs) && Contained(Frag(prev.f.code + g.code + h.code, h.cs), cs)
            && (SmallKey(k) ==> OperandsBelow(prev.ops + [ByInt(tr, k.n)], g.cs.maxr))
            && OperandsBelow(prev.ops + [ByReg(tr, TargetReg(sc, targets, i, k, g.cs))], h.cs.maxr)
  {
    hide CTargetOperand, RegTop, FindLocal, AllUse, TargetReg, OperandsBelow;
    var g := CTargetOperand(sc, targets, i, t, prev.f.cs);
    var h := CTargetOperand(sc, targets, i, k, g.cs);
    var tr := TargetReg(sc, targets, i, t, prev.f.cs);
    TargetOperandContained(sc, targets, i, t, prev.f.cs);
    TargetOperandContained(sc, targets, i, k, g.cs);
    Chained(prev.f, g, cs, prev.f.cs);
    Chained(Then(prev.f, g), h, cs, g.cs);
    if SmallKey(k) { MoreOperands(prev.ops, ByInt(tr, k.n), prev.f.cs.maxr, g.cs.maxr); }
    MoreOperands(prev.ops, ByReg(tr, TargetReg(sc, targets, i, k, g.cs)), prev.f.cs.maxr, h.cs.maxr);
  }

  function EnvMove(sc: Scope, snap: nat): Instr {
    match LookupLocal(sc, ENV)
    case Some(env) => Move(snap, env)
    case None => GetUpval(snap, 0)
  }

  /** The copy of the environment that pending globals are pointed at. */
  lemma {:induction false} SnapshotContained(sc: Scope, prev: Targets, cs: CS)
    requires RegTop(sc) <= cs.maxr && Contained(prev.f, cs) && OperandsBelow(prev.ops, prev.f.cs.maxr)
    ensures var snap := prev.f.cs.free;
            var copy := EnvMove(sc, snap);
            && Contained(Frag(prev.f.code + [copy], Reserve(prev.f.cs)), cs)
            && OperandsBelow(Settle(prev.ops, prev.pending, snap) + [NoOperand], Reserve(prev.f.cs).maxr)
  {
    hide RegTop, AllUse, LookupLocal, OperandsBelow;
    var snap := prev.f.cs.free;
    if LookupLocal(sc, ENV).Some? { LocalBelow(sc, ENV); }
    var copy := EnvMove(sc, snap);
    var cs2 := Reserve(prev.f.cs);
    if cs2.err == NoError {
      Wider(prev.f.code, prev.f.cs.maxr, cs2.maxr);
      OneUse(copy, cs2.maxr);
      Both(prev.f.code, [copy], cs2.maxr);
    }
    SettledBelow(prev.ops, prev.pending, snap, prev.f.cs.maxr, cs2.maxr);
    MoreOperands(Settle(prev.ops, prev.pending, snap), NoOperand, cs2.maxr, cs2.maxr);
  }

  lemma SettledBelow(ops: seq<Operand>, pending: set<nat>, snap: nat, n: nat, m: nat)
    requires OperandsBelow(ops, n) && n <= m && snap < m
    ensures OperandsBelow(Settle(ops, pending, snap), m)
  {
    forall i | 0 <= i < |ops| ensures OperandBelow(Settle(ops, pending, snap)[i], m) {
      assert OperandBelow(ops[i], n);
    }
  }

  lemma {:induction false} ValuesContained(sc: Scope, values: seq<Expr>, n: nat, valBase: nat, top: nat, cs: CS)
    requires n <= |values| && RegTop(sc) <= cs.maxr && cs.free == valBase && valBase <= top <= cs.maxr
    ensures var f := CValues(sc, values, n, valBase, cs); Contained(f, cs) && f.cs.free == valBase + n
  {
    hide CToReg, RegTop, AllUse;
    if n == 0 {
      Nothing(cs);
    } else {
      var prev := CValues(sc, values, n - 1, valBase, cs);
      ValuesContained(sc, values, n - 1, valBase, top, cs);
      var g := CToReg(sc, values[n - 1], valBase + n - 1, 0, prev.cs);
      ToRegContained(sc, values[n - 1], valBase + n - 1, 0, prev.cs);
      Chained(prev, g, cs, prev.cs);
      Released(Then(prev, g), cs, SetFree(g.cs, valBase + n));
    }
  }

  lemma {:induction false} NilEachUse(valBase: nat, i: nat, n: nat, m: nat)
    requires valBase + n <= m
    ensures AllUse(NilEach(valBase, i, n), m)
    decreases n - i
  {
    if i < n {
      NilEachUse(valBase, i + 1, n, m);
      OneUse(LoadNil(valBase + i, 0), m);
      Both([LoadNil(valBase + i, 0)], NilEach(valBase, i + 1, n), m);
    }
  }

  lemma {:induction false} StoreTargetContained(sc: Scope, target: Expr, op: Operand, v: nat, cs: CS)
    requires RegTop(sc) <= cs.maxr && v < cs.maxr && OperandBelow(op, cs.maxr)
    ensures Contained(CStoreTarget(sc, target, op, v, cs), cs)
  {
    hide CSetField, CSetGlobal, RegTop, FindLocal, IndexOf, LookupLocal, IsConstLocal, Grows;
    match op
    case ByInt(t, n) =>
    case ByReg(t, k) =>
    case ByField(t, f) => SetFieldContained(t, f, v, 0, cs);
    case EnvCopy(t) => if target.Name? { NameStoreContained(sc, target.name, t, v, cs); }
    case NoOperand => if target.Name? { NameStoreContained(sc, target.name, v, v, cs); }
  }

  /** The stores to a name: into its register, or into the table the name is a field of. */
  lemma {:induction false} NameStoreContained(sc: Scope, x: string, t: nat, v: nat, cs: CS)
    requires RegTop(sc) <= cs.maxr && v < cs.maxr && t < cs.maxr
    ensures var (k, cs1) := (ConstIndex(cs, Str(x)), AddConst(cs, Str(x)));
            && (LookupLocal(sc, x).Some? ==> LookupLocal(sc, x).value < cs.maxr)
            && Contained(CSetField(t, k, v, 0, cs1), cs) && Contained(CSetGlobal(sc, x, v, 0, k, cs1), cs)
  {
    hide CSetField, CSetGlobal, RegTop, FindLocal, IndexOf, LookupLocal;
    var (k, cs1) := (ConstIndex(cs, Str(x)), AddConst(cs, Str(x)));
    SameMark(cs, Str(x));
    if LookupLocal(sc, x).Some? { LocalBelow(sc, x); }
    SetFieldContained(t, k, v, 0, cs1);
    Pooled(CSetField(t, k, v, 0, cs1), cs, Str(x));
    SetGlobalContained(sc, x, v, 0, k, cs1);
    Pooled(CSetGlobal(sc, x, v, 0, k, cs1), cs, Str(x));
  }

  lemma {:induction false} StoresContained(sc: Scope, targets: seq<Expr>, ops: seq<Operand>, n: nat, valBase: nat, cs: CS)
    requires n <= |targets| == |ops| && RegTop(sc) <= cs.maxr && valBase + n <= cs.maxr && OperandsBelow(ops, cs.maxr)
    ensures Contained(CStores(sc, targets, ops, n, valBase, cs), cs)
  {
    hide CStoreTarget, RegTop, AllUse;
    if n == 0 {
      Nothing(cs);
    } else {
      var g := CStoreTarget(sc, targets[n - 1], ops[n - 1], valBase + n - 1, cs);
      StoreTargetContained(sc, targets[n - 1], ops[n - 1], valBase + n - 1, cs);
      StillBelow(ops, cs.maxr, g.cs.maxr);
      StoresContained(sc, targets, ops, n - 1, valBase, g.cs);
      Chained(g, CStores(sc, targets, ops, n - 1, valBase, g.cs), cs, g.cs);
    }
  }

  lemma StillBelow(ops: seq<Operand>, n: nat, m: nat)
    requires OperandsBelow(ops, n) && n <= m
    ensures OperandsBelow(ops, m)
  {
    forall i | 0 <= i < |ops| ensures OperandBelow(ops[i], m) {
      assert OperandBelow(ops[i], n);
    }
  }

  lemma {:induction false} MultiContained(sc: Scope, targets: seq<Expr>, values: seq<Expr>, cs: CS)
    requires RegTop(sc) <= cs.maxr
    ensures Contained(CMulti(sc, targets, values, cs), cs)
  {
    hide CTargets, CValues, CStores, RegTop, AllUse, OperandsBelow, NilEach, Grows;
    var ts := CTargets(sc, targets, |targets|, cs);
    TargetsContained(sc, targets, |targets|, cs);
    var valBase := ts.f.cs.free;
    var top := valBase + |targets|;
    var cs1 := CheckRegsAt(ts.f.cs, top);
    var vs := CValues(sc, values, |values|, valBase, cs1);
    ValuesContained(sc, values, |values|, valBase, top, cs1);
    After(vs, ts.f.cs, cs1);
    Chained(ts.f, vs, cs, ts.f.cs);
    var nils := NilEach(valBase, |values|, |targets|);
    NilEachUse(valBase, |values|, |targets|, vs.cs.maxr);
    Ended(Then(ts.f, vs), nils, vs.cs.free, cs);
    var cs2 := if |values| < |targets| then SetFree(vs.cs, top) else vs.cs;
    StillBelow(ts.ops, ts.f.cs.maxr, cs2.maxr);
    var ss := CStores(sc, targets, ts.ops, |targets|, valBase, cs2);
    StoresContained(sc, targets, ts.ops, |targets|, valBase, cs2);
    Chained(Frag(ts.f.code + vs.code + nils, vs.cs), ss, cs, cs2);
  }

  // -- blocks and control flow ------------------------------------------------------------------------

  lemma {:induction false} AssignHolds(sc: Scope, targets: seq<Expr>, values: seq<Expr>, cs: CS)
    requires RegTop(sc) <= cs.maxr
    ensures var g := CAssign(sc, targets, values, cs); Holds(SFrag(Lift(g.code), sc, g.cs), cs)
  {
    hide CSingle, CMulti, RegTop, AllUse, SlotsUse;
    if |targets| == 1 && |values| == 1 { SingleContained(sc, targets[0], values[0], cs); } else { MultiContained(sc, targets, values, cs); }
    Lifted(sc, CAssign(sc, targets, values, cs), cs);
  }

  lemma {:induction false} Lifted(sc: Scope, g: Frag, cs: CS)
    requires Contained(g, cs) && RegTop(sc) <= cs.maxr
    ensures Holds(SFrag(Lift(g.code), sc, g.cs), cs)
  {
    hide RegTop, AllUse, SlotsUse;
    if g.cs.err == NoError { LiftUse(g.code, g.cs.maxr); }
  }

  /** One statement after another. */
  lemma InTurn(g: SFrag, h: SFrag, cs: CS, cs1: CS)
    requires Holds(g, cs) && Holds(h, cs1) && cs1 == g.cs.(free := cs1.free)
    ensures Holds(SFrag(g.code + h.code, h.sc, h.cs), cs)
  {
    hide SlotsUse, RegTop;
    if h.cs.err == NoError { SlotsBoth(g.code, h.code, g.cs.maxr, h.cs.maxr); }
  }

  /** A jump at the end. */
  lemma JumpAfter(f: SFrag, j: int, cs: CS)
    requires Holds(f, cs)
    ensures Holds(SFrag(f.code + [Op(Jmp(j))], f.sc, f.cs), cs)
  {
    hide SlotsUse, RegTop;
    JumpUse(j, f.cs.maxr);
    if f.cs.err == NoError { SlotsBoth(f.code, [Op(Jmp(j))], f.cs.maxr, f.cs.maxr); }
  }

  /** The end of a loop: its breaks resolved, its variables gone. */
  lemma {:induction false} LoopLeft(f: SFrag, sc: Scope, cs: CS, free: nat)
    requires Holds(f, cs) && RegTop(sc) <= cs.maxr
    ensures Holds(SFrag(ResolveBreaks(f.code), sc, f.cs.(free := free)), cs) && Holds(SFrag(f.code, sc, f.cs.(free := free)), cs)
  {
    hide SlotsUse, RegTop;
    if f.cs.err == NoError { ResolveUse(f.code, f.cs.maxr); }
  }

  lemma {:induction false} NothingHolds(sc: Scope, cs: CS)
    requires RegTop(sc) <= cs.maxr
    ensures Holds(SFrag([], sc, cs), cs)
  {
    hide RegTop;
  }

  lemma {:induction false} GuardHolds(sc: Scope, cond: Expr, skip: nat, cs: CS)
    requires RegTop(sc) <= cs.maxr
    ensures var g := CGuard(sc, cond, skip, cs); Holds(SFrag(Lift(g.code), sc, g.cs), cs)
    ensures var g := CCond(sc, cond, false, cs); Contained(Frag(g.code + [Jmp(skip)], g.cs), cs)
  {
    hide CCond, RegTop, AllUse, SlotsUse;
    var g := CCond(sc, cond, false, cs);
    CondContained(sc, cond, false, cs);
    JumpUse(skip, g.cs.maxr);
    JumpUse(skip, cs.maxr);
    Ended(g, [Jmp(skip)], g.cs.free, cs);
    Nothing(cs);
    Lifted(sc, CGuard(sc, cond, skip, cs), cs);
  }

  lemma {:induction false} BreakHolds(sc: Scope, ln: Option<nat>, cs: CS)
    requires RegTop(sc) <= cs.maxr
    ensures Holds(CStmt(sc, Break, ln, cs), cs)
  {
    hide RegTop;
  }

  /** Whatever the block: every register its code names is below the mark, and the mark within the limit. */
  lemma {:induction false} BlockHolds(sc: Scope, b: Block, ln: Option<nat>, cs: CS)
    requires Parsed(b) && RegTop(sc) <= cs.maxr
    ensures Holds(CBlock(sc, b, ln, cs), cs)
    decreases b, 0
  {
    hide CStmt, RegTop, SlotsUse, Holds;
    NothingHolds(sc, cs);
    if b.BCons? && cs.err == NoError {
      var g := CStmt(sc, b.s, ln, cs);
      StmtHolds(sc, b.s, ln, cs);
      var cs1 := g.cs.(free := RegTop(g.sc));
      AfterStmt(g, cs);
      BlockHolds(g.sc, b.rest, ln, cs1);
      InTurn(g, CBlock(g.sc, b.rest, ln, cs1), cs, cs1);
    }
  }

  lemma AfterStmt(g: SFrag, cs: CS)
    requires Holds(g, cs)
    ensures RegTop(g.sc) <= g.cs.maxr && cs.maxr <= g.cs.maxr
  {
    hide RegTop, SlotsUse;
  }

  lemma {:induction false} ScopeHolds(sc: Scope, b: Block, ln: Option<nat>, cs: CS)
    requires Parsed(b) && RegTop(sc) <= cs.maxr
    ensures Holds(CScope(sc, b, ln, cs), cs)
    decreases b, 1
  {
    hide CBlock, RegTop, SlotsUse, Holds;
    BlockHolds(sc, b, ln, cs);
    LoopLeft(CBlock(sc, b, ln, cs), sc, cs, RegTop(sc));
  }

  lemma {:induction false} TailHolds(sc: Scope, t: Tail, ln: Option<nat>, cs: CS)
    requires ParsedTail(t) && RegTop(sc) <= cs.maxr
    ensures Holds(CTail(sc, t, ln, cs), cs)
    decreases t, 0
  {
    hide CScope, CCond, RegTop, SlotsUse, Holds, Contained;
    NothingHolds(sc, cs);
    match t
    case NoElse =>
    case Else(body) => ScopeHolds(sc, body, ln, cs);
    case ElseIf(cond, body, rest) =>
      var g := CCond(sc, cond, false, cs);
      var h := CScope(sc, body, ln, g.cs);
      var k := CTail(sc, rest, ln, h.cs);
      var first := Frag(g.code + [Jmp(|h.code| + 1)], g.cs);
      GuardHolds(sc, cond, |h.code| + 1, cs);
      Lifted(sc, first, cs);
      var a := SFrag(Lift(first.code), sc, g.cs);
      AfterStmt(a, cs);
      ScopeHolds(sc, body, ln, g.cs);
      InTurn(a, h, cs, g.cs);
      var c := SFrag(a.code + h.code, sc, h.cs);
      JumpAfter(c, |k.code|, cs);
      AfterStmt(c, cs);
      TailHolds(sc, rest, ln, h.cs);
      assert Lift([Jmp(|k.code|)]) == [Op(Jmp(|k.code|))];
      InTurn(SFrag(c.code + [Op(Jmp(|k.code|))], sc, h.cs), k, cs, h.cs);
  }

  lemma {:induction false} StmtHolds(sc: Scope, s: Stmt, ln: Option<nat>, cs: CS)
    requires ParsedStmt(s) && RegTop(sc) <= cs.maxr
    ensures Holds(CStmt(sc, s, ln, cs), cs)
    decreases s, 1
  {
    hide CLocal, CAssign, CScope, CCond, CBlock, CIf, RegTop, SlotsUse, Holds, Contained;
    match s
    case Local(names, consts, values) => LocalContained(sc, names, consts, values, cs);
    case Assign(targets, values) => AssignHolds(sc, targets, values, cs);
    case Do(body) => ScopeHolds(sc, body, ln, cs);
    case Empty => NothingHolds(sc, cs);
    case Break => BreakHolds(sc, ln, cs);
    case If(_, _, _) => IfHolds(sc, s, ln, cs);
    case While(cond, body) => WhileHolds(sc, cond, body, ln, cs);
    case Repeat(body, cond) => RepeatHolds(sc, body, cond, ln, cs);
  }

  lemma {:induction false} IfHolds(sc: Scope, s: Stmt, ln: Option<nat>, cs: CS)
    requires s.If? && ParsedStmt(s) && RegTop(sc) <= cs.maxr
    ensures Holds(CIf(sc, s, ln, cs), cs)
    decreases s, 0
  {
    hide CScope, CGuard, CTail, RegTop, SlotsUse, Holds, Contained;
    var g0 := CGuard(sc, s.cond, 0, cs);
    var h := CScope(sc, s.thn, ln, g0.cs);
    var k := CTail(sc, s.tail, ln, h.cs);
    var exit := if s.tail.NoElse? then [] else [Jmp(|k.code|)];
    var g := CGuard(sc, s.cond, |h.code| + |exit|, cs);
    SkipSame(sc, s.cond, 0, |h.code| + |exit|, cs);
    GuardHolds(sc, s.cond, |h.code| + |exit|, cs);
    var a := SFrag(Lift(g.code), sc, g.cs);
    AfterStmt(a, cs);
    ScopeHolds(sc, s.thn, ln, g.cs);
    InTurn(a, h, cs, g.cs);
    var c := SFrag(a.code + h.code, sc, h.cs);
    AfterStmt(c, cs);
    JumpAfter(c, |k.code|, cs);
    assert Lift([]) == [] && c.code + [] == c.code && Lift([Jmp(|k.code|)]) == [Op(Jmp(|k.code|))];
    TailHolds(sc, s.tail, ln, h.cs);
    InTurn(SFrag(c.code + Lift(exit), sc, h.cs), k, cs, h.cs);
  }

  /** How far the guard jumps does not matter to the allocator. */
  lemma SkipSame(sc: Scope, cond: Expr, m: nat, n: nat, cs: CS)
    ensures CGuard(sc, cond, m, cs).cs == CGuard(sc, cond, n, cs).cs
  {
    hide CCond;
  }

  lemma {:induction false} WhileHolds(sc: Scope, cond: Expr, body: Block, ln: Option<nat>, cs: CS)
    requires Parsed(body) && RegTop(sc) <= cs.maxr
    ensures Holds(CStmt(sc, While(cond, body), ln, cs), cs)
    decreases body, 2
  {
    hide CScope, CCond, RegTop, SlotsUse, Holds, Contained;
    if IsConstTrue(cond) {
      var h := CScope(sc, body, Some(|sc|), cs);
      ScopeHolds(sc, body, Some(|sc|), cs);
      JumpAfter(h, -(|h.code| + 1), cs);
      LoopLeft(SFrag(h.code + [Op(Jmp(-(|h.code| + 1)))], sc, h.cs), sc, cs, h.cs.free);
    } else {
      var g := CCond(sc, cond, false, cs);
      var h := CScope(sc, body, Some(|sc|), g.cs);
      var first := Frag(g.code + [Jmp(|h.code| + 1)], g.cs);
      GuardHolds(sc, cond, |h.code| + 1, cs);
      Lifted(sc, first, cs);
      var a := SFrag(Lift(first.code), sc, g.cs);
      AfterStmt(a, cs);
      ScopeHolds(sc, body, Some(|sc|), g.cs);
      InTurn(a, h, cs, g.cs);
      var c := SFrag(a.code + h.code, sc, h.cs);
      var back := -(|g.code| + |h.code| + 2);
      JumpAfter(c, back, cs);
      LoopLeft(SFrag(c.code + [Op(Jmp(back))], sc, h.cs), sc, cs, h.cs.free);
    }
  }

  lemma {:induction false} RepeatHolds(sc: Scope, body: Block, cond: Expr, ln: Option<nat>, cs: CS)
    requires Parsed(body) && RegTop(sc) <= cs.maxr
    ensures Holds(CStmt(sc, Repeat(body, cond), ln, cs), cs)
    decreases body, 2
  {
    hide CBlock, CCond, RegTop, SlotsUse, Holds, Contained;
    var h := CBlock(sc, body, Some(|sc|), cs);
    BlockHolds(sc, body, Some(|sc|), cs);
    AfterStmt(h, cs);
    if IsConstTrue(cond) {
      LoopLeft(h, sc, cs, RegTop(sc));
    } else if IsConstFalsy(cond) {
      JumpAfter(h, -(|h.code| + 1), cs);
      LoopLeft(SFrag(h.code + [Op(Jmp(-(|h.code| + 1)))], h.sc, h.cs), sc, cs, RegTop(sc));
    } else {
      var g := CCond(h.sc, cond, false, h.cs);
      var back := -(|h.code| + |g.code| + 1);
      CondContained(h.sc, cond, false, h.cs);
      Lifted(h.sc, g, h.cs);
      JumpAfter(SFrag(Lift(g.code), h.sc, g.cs), back, h.cs);
      assert Lift(g.code + [Jmp(back)]) == Lift(g.code) + [Op(Jmp(back))];
      InTurn(h, SFrag(Lift(g.code + [Jmp(back)]), h.sc, g.cs), cs, h.cs);
      LoopLeft(SFrag(h.code + Lift(g.code + [Jmp(back)]), h.sc, g.cs), sc, cs, RegTop(sc));
    }
  }
}
