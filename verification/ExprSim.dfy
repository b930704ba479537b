/**
 The expression compiler preserves meaning: running the code of an expression
 leaves its value in the target register, asks the outside world exactly the
 questions the source asks in the same order, and changes no other register
 that is live.
*/
module ExprSim {
  import opened Wrappers
  import opened LuaValues
  import opened LuaSource
  import opened Machine
  import opened ExprSpec
  import opened Folding

  // -- the relation between a store and the registers -----------------------------

  /**
   Locals and variables correspond: a local in a register holds the variable's
   value there, an inlined constant is the variable's value. A local _ENV is
   never inlined.
  */
  ghost predicate Matches(sc: Scope, st: Store, r: Regs) {
    && |sc| == |st.vars|
    && forall i | 0 <= i < |sc| ::
         && sc[i].name == st.vars[i].0
         && (match sc[i].loc
             case InReg(x) => x < RegTop(sc) && Get(r, x) == st.vars[i].1
             case Inlined(v) => v == st.vars[i].1 && !v.Other? && sc[i].name != ENV)
  }

  ghost predicate Keeps(r: Regs, r': Regs, top: nat, reg: nat) {
    forall i: nat :: i < top && i != reg ==> Get(r', i) == Get(r, i)
  }

  ghost predicate KeepsAll(r: Regs, r': Regs, top: nat) {
    forall i: nat :: i < top ==> Get(r', i) == Get(r, i)
  }

  lemma {:induction false} MatchesKept(sc: Scope, st: Store, r: Regs, r': Regs)
    requires Matches(sc, st, r) && KeepsAll(r, r', RegTop(sc))
    ensures Matches(sc, st, r')
  {
  }

  lemma {:induction false} FindAgrees(sc: Scope, vars: seq<(string, Value)>, x: string)
    requires |sc| == |vars| && forall i | 0 <= i < |sc| :: sc[i].name == vars[i].0
    ensures FindLocal(sc, x) == Find(vars, x)
  {
    if sc != [] && sc[|sc| - 1].name != x {
      FindAgrees(sc[..|sc| - 1], vars[..|sc| - 1], x);
    }
  }

  // -- code in place --------------------------------------------------------------

  ghost predicate At(p: Prog, pc: int, f: seq<Instr>) {
    0 <= pc && pc + |f| <= |p.code| && forall k | 0 <= k < |f| :: p.code[pc + k] == f[k]
  }

  lemma AtSplit(p: Prog, pc: int, f: seq<Instr>, g: seq<Instr>)
    requires At(p, pc, f + g)
    ensures At(p, pc, f) && At(p, pc + |f|, g)
  {
    forall k | 0 <= k < |f| ensures p.code[pc + k] == f[k] {
      assert (f + g)[k] == f[k];
    }
    forall k | 0 <= k < |g| ensures p.code[pc + |f| + k] == g[k] {
      assert (f + g)[|f| + k] == g[k];
    }
  }

  /** The configuration an outcome leads to. */
  ghost function After(c: Conf, pc': int, out: Out, r': Regs): Conf
    requires c.Run?
  {
    match out
    case Val(l, _) => Run(pc', r', c.up, l)
    case Err(l) => Raised(l)
  }

  ghost predicate Ends(p: Prog, c: Conf, pc': int, out: Out, r': Regs)
    requires c.Run?
  {
    Reaches(p, c, After(c, pc', out, r'))
  }

  /** One instruction that stores an outcome in a register. */
  lemma PutStep(p: Prog, c: Conf, out: Out, a: nat, pc': int) returns (r': Regs)
    requires c.Run? && Step(p, c) == Put(c, out, a, pc')
    ensures Ends(p, c, pc', out, r')
    ensures out.Val? ==> r' == c.r[a := out.v]
  {
    r' := if out.Val? then c.r[a := out.v] else c.r;
    ReachesStep(p, c);
  }

  lemma EndsTrans(p: Prog, c: Conf, pc1: int, out1: Out, r1: Regs, pc2: int, out2: Out, r2: Regs)
    requires c.Run? && out1.Val? && Ends(p, c, pc1, out1, r1)
    requires Ends(p, After(c, pc1, out1, r1), pc2, out2, r2)
    ensures Ends(p, c, pc2, out2, r2)
  {
    ReachesTrans(p, c, After(c, pc1, out1, r1), After(After(c, pc1, out1, r1), pc2, out2, r2));
  }

  /** The code from c to pc' computes `out` into reg and keeps every other register below top. */
  ghost predicate Delivers(p: Prog, c: Conf, pc': int, out: Out, r': Regs, reg: nat, top: nat)
    requires c.Run?
  {
    Ends(p, c, pc', out, r') && (out.Val? ==> Get(r', reg) == out.v && Keeps(c.r, r', top, reg))
  }

  // -- leaves -----------------------------------------------------------------------

  lemma LoadConstSim(p: Prog, c: Conf, reg: nat, k: nat) returns (r': Regs)
    requires c.Run? && At(p, c.pc, LoadConst(reg, k)) && k < |p.consts|
    ensures Ends(p, c, c.pc + |LoadConst(reg, k)|, Val(c.log, p.consts[k]), r') && r' == c.r[reg := p.consts[k]]
  {
    assert p.code[c.pc + 0] == LoadConst(reg, k)[0];
    if k > MAX_ARG_BX {
      assert p.code[c.pc + 1] == LoadConst(reg, k)[1];
    }
    r' := PutStep(p, c, Val(c.log, p.consts[k]), reg, c.pc + |LoadConst(reg, k)|);
  }

  lemma ConstSim(p: Prog, c: Conf, v: Value, reg: nat, cs: CS) returns (r': Regs)
    requires c.Run? && At(p, c.pc, CConst(v, reg, cs).code) && CConst(v, reg, cs).cs.consts <= p.consts
    ensures Ends(p, c, c.pc + |CConst(v, reg, cs).code|, Val(c.log, v), r') && r' == c.r[reg := v]
  {
    assert AddConst(cs, v).consts[ConstIndex(cs, v)] == v;
    r' := LoadConstSim(p, c, reg, ConstIndex(cs, v));
  }

  lemma InlinedSim(p: Prog, c: Conf, v: Value, reg: nat, cs: CS) returns (r': Regs)
    requires c.Run? && !v.Other?
    requires At(p, c.pc, CInlined(v, reg, cs).code) && CInlined(v, reg, cs).cs.consts <= p.consts
    ensures Ends(p, c, c.pc + |CInlined(v, reg, cs).code|, Val(c.log, v), r')
    ensures Get(r', reg) == v && forall i: nat :: i != reg ==> Get(r', i) == Get(c.r, i)
  {
    if v.Str? || (v.Int? && !(-OFFSET_SBX <= v.i <= OFFSET_SBX)) {
      r' := ConstSim(p, c, v, reg, cs);
    } else {
      assert p.code[c.pc + 0] == CInlined(v, reg, cs).code[0];
      if v.Nil? {
        r' := SetNils(c.r, reg, 1);
        ReachesStep(p, c);
      } else {
        r' := PutStep(p, c, Val(c.log, v), reg, c.pc + 1);
      }
    }
  }

  /** The long form of a field read: the name goes to a register first. */
  lemma LoadThenIndex(p: Prog, c: Conf, x: string, reg: nat, tableReg: nat, key: nat, k: nat) returns (r': Regs)
    requires c.Run? && tableReg != key && k < |p.consts| && p.consts[k] == Str(x)
    requires At(p, c.pc, LoadConst(key, k) + [GetTable(reg, tableReg, key)])
    ensures Ends(p, c, c.pc + |LoadConst(key, k)| + 1, Ask(p.o, c.log, EvIndex(Get(c.r, tableReg), Str(x))), r')
    ensures var out := Ask(p.o, c.log, EvIndex(Get(c.r, tableReg), Str(x)));
            out.Val? ==> r' == c.r[key := Str(x)][reg := out.v]
  {
    var out := Ask(p.o, c.log, EvIndex(Get(c.r, tableReg), Str(x)));
    var ld := LoadConst(key, k);
    AtSplit(p, c.pc, ld, [GetTable(reg, tableReg, key)]);
    var r1 := LoadConstSim(p, c, key, k);
    var c1 := After(c, c.pc + |ld|, Val(c.log, Str(x)), r1);
    assert p.code[c1.pc + 0] == [GetTable(reg, tableReg, key)][0];
    r' := PutStep(p, c1, out, reg, c1.pc + 1);
    EndsTrans(p, c, c1.pc, Val(c.log, Str(x)), r1, c1.pc + 1, out, r');
  }

  lemma GetFieldSim(p: Prog, c: Conf, x: string, reg: nat, tableReg: nat, cs: CS) returns (r': Regs)
    requires c.Run? && tableReg < cs.free && reg < cs.free
    requires At(p, c.pc, CGetField(reg, tableReg, x, cs).code) && CGetField(reg, tableReg, x, cs).cs.consts <= p.consts
    ensures Delivers(p, c, c.pc + |CGetField(reg, tableReg, x, cs).code|, Ask(p.o, c.log, EvIndex(Get(c.r, tableReg), Str(x))), r', reg, cs.free)
  {
    var f := CGetField(reg, tableReg, x, cs);
    var k := ConstIndex(cs, Str(x));
    assert AddConst(cs, Str(x)).consts[k] == Str(x);
    assert p.consts[k] == Str(x);
    if k <= MAX_ARG_C {
      assert p.code[c.pc + 0] == f.code[0];
      r' := PutStep(p, c, Ask(p.o, c.log, EvIndex(Get(c.r, tableReg), Str(x))), reg, c.pc + 1);
    } else {
      r' := LoadThenIndex(p, c, x, reg, tableReg, cs.free, k);
    }
  }

  lemma GetUpvalStep(p: Prog, c: Conf, a: nat) returns (r': Regs)
    requires c.Run? && At(p, c.pc, [GetUpval(a, 0)])
    ensures Ends(p, c, c.pc + 1, Val(c.log, c.up), r') && r' == c.r[a := c.up]
  {
    assert p.code[c.pc + 0] == [GetUpval(a, 0)][0];
    r' := PutStep(p, c, Val(c.log, c.up), a, c.pc + 1);
  }

  lemma GetTabUpStep(p: Prog, c: Conf, a: nat, k: nat) returns (r': Regs)
    requires c.Run? && At(p, c.pc, [GetTabUp(a, 0, k)])
    ensures var out := Ask(p.o, c.log, EvIndex(c.up, Const(p, k)));
            Ends(p, c, c.pc + 1, out, r') && (out.Val? ==> r' == c.r[a := out.v])
  {
    assert p.code[c.pc + 0] == [GetTabUp(a, 0, k)][0];
    r' := PutStep(p, c, Ask(p.o, c.log, EvIndex(c.up, Const(p, k))), a, c.pc + 1);
  }

  lemma GetTabUpSim(p: Prog, c: Conf, x: string, reg: nat, cs: CS) returns (r': Regs)
    requires c.Run? && reg < cs.free
    requires At(p, c.pc, CGetTabUp(reg, x, cs).code) && CGetTabUp(reg, x, cs).cs.consts <= p.consts
    ensures Delivers(p, c, c.pc + |CGetTabUp(reg, x, cs).code|, Ask(p.o, c.log, EvIndex(c.up, Str(x))), r', reg, cs.free)
  {
    hide Reaches, At, Step;
    var f := CGetTabUp(reg, x, cs);
    var k := ConstIndex(cs, Str(x));
    var out := Ask(p.o, c.log, EvIndex(c.up, Str(x)));
    assert AddConst(cs, Str(x)).consts[k] == Str(x);
    assert p.consts[k] == Str(x);
    if k <= MAX_ARG_C {
      r' := GetTabUpStep(p, c, reg, k);
    } else {
      var (env, key) := (cs.free, cs.free + 1);
      var rest := LoadConst(key, k) + [GetTable(reg, env, key)];
      assert f.code == [GetUpval(env, 0)] + rest;
      AtSplit(p, c.pc, [GetUpval(env, 0)], rest);
      var r0 := GetUpvalStep(p, c, env);
      var c0 := Run(c.pc + 1, r0, c.up, c.log);
      r' := LoadThenIndex(p, c0, x, reg, env, key, k);
      EndsTrans(p, c, c0.pc, Val(c.log, c.up), r0, c.pc + |f.code|, out, r');
    }
  }

  /** Reading a name: an inlined constant, a register, the upvalue or a field of _ENV. */
  lemma NameSim(p: Prog, sc: Scope, st: Store, c: Conf, x: string, reg: nat, cs: CS) returns (r': Regs)
    requires c.Run? && Matches(sc, st, c.r) && c.up == st.up && RegTop(sc) <= cs.free && reg < cs.free
    requires At(p, c.pc, CName(sc, x, reg, cs).code) && CName(sc, x, reg, cs).cs.consts <= p.consts
    ensures Delivers(p, c, c.pc + |CName(sc, x, reg, cs).code|, NameValue(p.o, st, c.log, x), r', reg, cs.free)
  {
    hide Reaches, CGetField, CGetTabUp, CInlined, RegTop;
    FindAgrees(sc, st.vars, x);
    FindAgrees(sc, st.vars, ENV);
    var f := CName(sc, x, reg, cs);
    var i := FindLocal(sc, x);
    var j := FindLocal(sc, ENV);
    if i >= 0 {
      match sc[i].loc
      case Inlined(v) =>
        r' := InlinedSim(p, c, v, reg, cs);
      case InReg(a) =>
        if a == reg {
          r' := c.r;
          ReachesRefl(p, c);
        } else {
          assert p.code[c.pc + 0] == f.code[0];
          r' := PutStep(p, c, Val(c.log, Get(c.r, a)), reg, c.pc + 1);
        }
    } else if x == ENV {
      assert p.code[c.pc + 0] == f.code[0];
      r' := PutStep(p, c, Val(c.log, c.up), reg, c.pc + 1);
    } else if j >= 0 {
      r' := GetFieldSim(p, c, x, reg, sc[j].loc.r, cs);
    } else {
      r' := GetTabUpSim(p, c, x, reg, cs);
    }
  }

  // -- operations -------------------------------------------------------------------

  lemma BinopSim(p: Prog, c: Conf, op: BinOp, reg: nat, a: nat, b: nat) returns (r': Regs)
    requires c.Run? && IsArith(op) && At(p, c.pc, [Arith(op, reg, a, b), MmBin(a, b, op)])
    ensures var out := ArithValue(p.o, c.log, op, Get(c.r, a), Get(c.r, b));
            Ends(p, c, c.pc + 2, out, r') && (out.Val? ==> r' == c.r[reg := out.v])
  {
    var code := [Arith(op, reg, a, b), MmBin(a, b, op)];
    var out := ArithValue(p.o, c.log, op, Get(c.r, a), Get(c.r, b));
    assert p.code[c.pc + 0] == code[0] && p.code[c.pc + 1] == code[1];
    if Get(c.r, a).Int? && Get(c.r, b).Int? {
      r' := PutStep(p, c, out, reg, c.pc + 2);
    } else {
      ReachesStep(p, c);
      var c1 := Run(c.pc + 1, c.r, c.up, c.log);
      r' := PutStep(p, c1, out, reg, c.pc + 2);
      EndsTrans(p, c, c.pc + 1, Val(c.log, Nil), c.r, c.pc + 2, out, r');
    }
  }

  /** The operands an immediate pair stands for, in source order. */
  function ImmediateValue(o: Oracle, log: Log, tm: BinOp, v: Value, imm: int, k: nat): Out
    requires IsArith(tm)
  {
    if k == 0 then ArithValue(o, log, tm, v, SmallInt(imm)) else ArithValue(o, log, tm, SmallInt(imm), v)
  }

  lemma ImmediateSim(p: Prog, c: Conf, tm: BinOp, reg: nat, a: nat, sc: int, imm: int, k: nat) returns (r': Regs)
    requires c.Run? && (tm.Add? || (tm.Sub? && k == 0)) && -OFFSET_SC <= imm <= OFFSET_SC
    requires sc == if tm.Sub? then 0 - imm else imm
    requires At(p, c.pc, [AddI(reg, a, sc), MmBinI(a, imm, tm, k)])
    ensures var out := ImmediateValue(p.o, c.log, tm, Get(c.r, a), imm, k);
            Ends(p, c, c.pc + 2, out, r') && (out.Val? ==> r' == c.r[reg := out.v])
  {
    var code := [AddI(reg, a, sc), MmBinI(a, imm, tm, k)];
    var out := ImmediateValue(p.o, c.log, tm, Get(c.r, a), imm, k);
    assert p.code[c.pc + 0] == code[0] && p.code[c.pc + 1] == code[1];
    assert SmallInt(imm) == Int(imm);
    if Get(c.r, a).Int? {
      r' := PutStep(p, c, out, reg, c.pc + 2);
    } else {
      ReachesStep(p, c);
      var c1 := Run(c.pc + 1, c.r, c.up, c.log);
      r' := PutStep(p, c1, out, reg, c.pc + 2);
      EndsTrans(p, c, c.pc + 1, Val(c.log, Nil), c.r, c.pc + 2, out, r');
    }
  }

  lemma UnarySim(p: Prog, c: Conf, op: UnOp, reg: nat, a: nat) returns (r': Regs)
    requires c.Run? && At(p, c.pc, [Unary(op, reg, a)])
    ensures var out := UnaryValue(p.o, c.log, op, Get(c.r, a));
            Ends(p, c, c.pc + 1, out, r') && (out.Val? ==> r' == c.r[reg := out.v])
  {
    assert p.code[c.pc + 0] == [Unary(op, reg, a)][0];
    r' := PutStep(p, c, UnaryValue(p.o, c.log, op, Get(c.r, a)), reg, c.pc + 1);
  }

  lemma GetISim(p: Prog, c: Conf, reg: nat, a: nat, n: Int64) returns (r': Regs)
    requires c.Run? && 0 <= n <= MAX_ARG_C && At(p, c.pc, [GetI(reg, a, n)])
    ensures var out := Ask(p.o, c.log, EvIndex(Get(c.r, a), Int(n)));
            Ends(p, c, c.pc + 1, out, r') && (out.Val? ==> r' == c.r[reg := out.v])
  {
    assert p.code[c.pc + 0] == [GetI(reg, a, n)][0];
    assert SmallInt(n) == Int(n);
    r' := PutStep(p, c, Ask(p.o, c.log, EvIndex(Get(c.r, a), Int(n))), reg, c.pc + 1);
  }

  lemma GetTableSim(p: Prog, c: Conf, reg: nat, a: nat, b: nat) returns (r': Regs)
    requires c.Run? && At(p, c.pc, [GetTable(reg, a, b)])
    ensures var out := Ask(p.o, c.log, EvIndex(Get(c.r, a), Get(c.r, b)));
            Ends(p, c, c.pc + 1, out, r') && (out.Val? ==> r' == c.r[reg := out.v])
  {
    assert p.code[c.pc + 0] == [GetTable(reg, a, b)][0];
    r' := PutStep(p, c, Ask(p.o, c.log, EvIndex(Get(c.r, a), Get(c.r, b))), reg, c.pc + 1);
  }

  lemma {:induction false} PlainLocalEval(o: Oracle, sc: Scope, st: Store, r: Regs, log: Log, e: Expr)
    requires Matches(sc, st, r) && PlainLocal(sc, e).Some?
    ensures PlainLocal(sc, e).value < RegTop(sc)
    ensures Eval(o, st, log, e) == Val(log, Get(r, PlainLocal(sc, e).value))
  {
    if e.Paren? {
      PlainLocalEval(o, sc, st, r, log, e.inner);
    } else {
      FindAgrees(sc, st.vars, e.name);
    }
  }

  // -- the compiler -------------------------------------------------------------------

  ghost predicate Ready(sc: Scope, st: Store, c: Conf, cs: CS) {
    c.Run? && Matches(sc, st, c.r) && c.up == st.up && RegTop(sc) <= |sc| && RegTop(sc) <= cs.free
  }

  ghost predicate Placed(p: Prog, pc: int, f: Frag) {
    At(p, pc, f.code) && f.cs.consts <= p.consts && f.cs.err == NoError
  }

  /** A part of a fragment that is in place is in place. */
  lemma PlacedPart(p: Prog, pc: int, f: Frag, g: Frag, rest: seq<Instr>)
    requires Placed(p, pc, f) && f.code == g.code + rest && Grows(g.cs, f.cs)
    ensures Placed(p, pc, g) && At(p, pc + |g.code|, rest)
  {
    AtSplit(p, pc, g.code, rest);
  }

  predicate Leaf(e: Expr) {
    e.NilE? || e.TrueE? || e.FalseE? || e.IntE? || e.StrE? || e.Name?
  }

  lemma LeafSim(p: Prog, sc: Scope, st: Store, c: Conf, e: Expr, reg: nat, d: nat, cs: CS) returns (r': Regs)
    requires Leaf(e) && Ready(sc, st, c, cs) && Placed(p, c.pc, CStep(sc, e, reg, d, cs))
    ensures Delivers(p, c, c.pc + |CStep(sc, e, reg, d, cs).code|, Eval(p.o, st, c.log, e), r', reg, Max(cs.free, reg + 1))
  {
    hide Reaches, At, RegTop, Matches, CName;
    var cs1 := Preamble(reg, cs);
    match e
    case NilE => r' := InlinedSim(p, c, Nil, reg, cs1);
    case TrueE => r' := InlinedSim(p, c, Bool(true), reg, cs1);
    case FalseE => r' := InlinedSim(p, c, Bool(false), reg, cs1);
    case IntE(n) => r' := InlinedSim(p, c, Int(n), reg, cs1);
    case StrE(s) => r' := InlinedSim(p, c, Str(s), reg, cs1);
    case Name(x) => r' := NameSim(p, sc, st, c, x, reg, cs1);
  }

  /** The main result: CStep computes Eval into reg. */
  lemma {:induction false} StepSim(p: Prog, sc: Scope, st: Store, c: Conf, e: Expr, reg: nat, d: nat, cs: CS) returns (r': Regs)
    requires Ready(sc, st, c, cs) && Room(sc, reg, cs) && Placed(p, c.pc, CStep(sc, e, reg, d, cs))
    ensures Delivers(p, c, c.pc + |CStep(sc, e, reg, d, cs).code|, Eval(p.o, st, c.log, e), r', reg, Max(cs.free, reg + 1))
    decreases e, 4
  {
    hide Reaches, At, IntArith, FoldIntOp, CArith, CUnop, CLogical, CCompare, CToReg, RegTop, Matches, FinishField, FinishIndex;
    var f := CStep(sc, e, reg, d, cs);
    var cs1 := Preamble(reg, cs);
    match e
    case Paren(inner) => r' := ToRegSim(p, sc, st, c, inner, reg, d, cs1);
    case Un(op, x) => r' := UnopSim(p, sc, st, c, op, x, reg, d, cs1);
    case Field(t, x) => r' := FieldSim(p, sc, st, c, t, x, reg, d, cs);
    case Index(t, k) => r' := IndexSim(p, sc, st, c, t, k, reg, d, cs);
    case Bin(op, _, _) =>
      if op.And? || op.Or? {
        r' := LogicalSim(p, sc, st, c, e, reg, d, cs1);
      } else if IsComparison(op) {
        r' := CompareSim(p, sc, st, c, e, reg, d, cs1);
      } else {
        r' := ArithSim(p, sc, st, c, e, reg, d, cs1);
      }
    case _ => r' := LeafSim(p, sc, st, c, e, reg, d, cs);
  }

  lemma {:induction false} ToRegSim(p: Prog, sc: Scope, st: Store, c: Conf, e: Expr, reg: nat, d: nat, cs: CS) returns (r': Regs)
    requires Ready(sc, st, c, cs) && Room(sc, reg, cs) && Placed(p, c.pc, CToReg(sc, e, reg, d, cs))
    ensures Delivers(p, c, c.pc + |CToReg(sc, e, reg, d, cs).code|, Eval(p.o, st, c.log, e), r', reg, Max(cs.free, reg + 1))
    decreases e, 5
  {
    hide Reaches, At, IntArith, FoldIntOp;
    r' := StepSim(p, sc, st, c, e, reg, d + 1, cs);
  }

  lemma {:induction false} LeftSim(p: Prog, sc: Scope, st: Store, c: Conf, e: Expr, reg: nat, d: nat, cs: CS) returns (r': Regs)
    requires Ready(sc, st, c, cs) && Room(sc, reg, cs) && Placed(p, c.pc, CLeft(sc, e, reg, d, cs))
    ensures Delivers(p, c, c.pc + |CLeft(sc, e, reg, d, cs).code|, Eval(p.o, st, c.log, e), r', reg, Max(cs.free, reg + 1))
    decreases e, 6
  {
    hide Reaches, At, IntArith, FoldIntOp, FindLocal, IndexOf, Matches, CToReg, CStep;
    if SpineLink(e) {
      r' := StepSim(p, sc, st, c, e, reg, d, cs);
    } else {
      r' := ToRegSim(p, sc, st, c, e, reg, d, cs);
    }
  }

  /** An operand read in place or into a fresh register. */
  lemma {:induction false} OperandSim(p: Prog, sc: Scope, st: Store, c: Conf, e: Expr, d: nat, cs: CS) returns (r': Regs)
    requires Ready(sc, st, c, cs) && Placed(p, c.pc, COperand(sc, e, d, cs))
    ensures Delivers(p, c, c.pc + |COperand(sc, e, d, cs).code|, Eval(p.o, st, c.log, e), r', OperandReg(sc, e, cs), cs.free)
    ensures Eval(p.o, st, c.log, e).Val? ==> KeepsAll(c.r, r', cs.free)
    decreases e, 6
  {
    hide Reaches, At, IntArith, FoldIntOp, CStep, CToReg, RegTop;
    if PlainLocal(sc, e).Some? {
      PlainLocalEval(p.o, sc, st, c.r, c.log, e);
      r' := c.r;
      ReachesRefl(p, c);
    } else {
      r' := ToRegSim(p, sc, st, c, e, cs.free, d, Reserve(cs));
    }
  }

  lemma {:induction false} UnopSim(p: Prog, sc: Scope, st: Store, c: Conf, op: UnOp, x: Expr, reg: nat, d: nat, cs: CS) returns (r': Regs)
    requires Ready(sc, st, c, cs) && Room(sc, reg, cs) && cs.free > reg && Placed(p, c.pc, CUnop(sc, op, x, reg, d, cs))
    ensures Delivers(p, c, c.pc + |CUnop(sc, op, x, reg, d, cs).code|, Eval(p.o, st, c.log, Un(op, x)), r', reg, cs.free)
    decreases x, 7
  {
    hide Reaches, At, IntArith, FoldIntOp;
    var f := CUnop(sc, op, x, reg, d, cs);
    var out := Eval(p.o, st, c.log, Un(op, x));
    if PlainLocal(sc, x).Some? {
      PlainLocalEval(p.o, sc, st, c.r, c.log, x);
      r' := UnarySim(p, c, op, reg, PlainLocal(sc, x).value);
    } else {
      if reg < RegTop(sc) {
        PlacedPart(p, c.pc, f, CToReg(sc, x, cs.free, d, Reserve(cs)), [Unary(op, reg, cs.free)]);
        r' := UnopVia(p, sc, st, c, op, x, reg, cs.free, d, Reserve(cs), cs.free);
      } else {
        PlacedPart(p, c.pc, f, CToReg(sc, x, reg, d, cs), [Unary(op, reg, reg)]);
        r' := UnopVia(p, sc, st, c, op, x, reg, reg, d, cs, cs.free);
      }
    }
  }

  /** Operand to register a, then the operator from a to reg. */
  lemma {:induction false} UnopVia(p: Prog, sc: Scope, st: Store, c: Conf, op: UnOp, x: Expr, reg: nat, a: nat, d: nat, cs: CS, top: nat) returns (r': Regs)
    requires Ready(sc, st, c, cs) && Room(sc, a, cs) && top <= cs.free && (a == reg || a >= top)
    requires var g := CToReg(sc, x, a, d, cs); Placed(p, c.pc, g) && At(p, c.pc + |g.code|, [Unary(op, reg, a)])
    ensures Delivers(p, c, c.pc + |CToReg(sc, x, a, d, cs).code| + 1, Eval(p.o, st, c.log, Un(op, x)), r', reg, top)
    decreases x, 6
  {
    hide Reaches, At, IntArith, FoldIntOp, CStep, CToReg, RegTop;
    var out := Eval(p.o, st, c.log, Un(op, x));
    var r1 := ToRegSim(p, sc, st, c, x, a, d, cs);
    var o1 := Eval(p.o, st, c.log, x);
    r' := c.r;
    if o1.Val? {
      var c1 := After(c, c.pc + |CToReg(sc, x, a, d, cs).code|, o1, r1);
      r' := UnarySim(p, c1, op, reg, a);
      EndsTrans(p, c, c1.pc, o1, r1, c1.pc + 1, out, r');
    }
  }

  /** The rest of t.x once the table is in tableReg. */
  lemma {:induction false} FinishFieldSim(p: Prog, c: Conf, x: string, reg: nat, tableReg: nat, needFree: bool, cs: CS) returns (r': Regs)
    requires c.Run? && tableReg < cs.free && reg < cs.free && Placed(p, c.pc, FinishField(x, reg, tableReg, needFree, cs))
    ensures Delivers(p, c, c.pc + |FinishField(x, reg, tableReg, needFree, cs).code|,
                     Ask(p.o, c.log, EvIndex(Get(c.r, tableReg), Str(x))), r', reg, cs.free)
  {
    hide Reaches, At, IntArith, FoldIntOp;
    r' := GetFieldSim(p, c, x, reg, tableReg, cs);
  }

  lemma {:induction false} FieldSim(p: Prog, sc: Scope, st: Store, c: Conf, t: Expr, x: string, reg: nat, d: nat, cs: CS) returns (r': Regs)
    requires Ready(sc, st, c, cs) && Room(sc, reg, cs) && Placed(p, c.pc, CStep(sc, Field(t, x), reg, d, cs))
    ensures Delivers(p, c, c.pc + |CStep(sc, Field(t, x), reg, d, cs).code|, Eval(p.o, st, c.log, Field(t, x)), r', reg, Max(cs.free, reg + 1))
    decreases t, 8
  {
    hide Reaches, At, IntArith, FoldIntOp, FinishField, CGetField;
    var f := CStep(sc, Field(t, x), reg, d, cs);
    var cs1 := Preamble(reg, cs);
    if PlainLocal(sc, t).Some? {
      PlainLocalEval(p.o, sc, st, c.r, c.log, t);
      r' := FinishFieldSim(p, c, x, reg, PlainLocal(sc, t).value, false, cs1);
    } else {
      if reg < |sc| {
        r' := FieldVia(p, sc, st, c, t, x, reg, cs1.free, true, d, Reserve(cs1), cs1.free);
      } else {
        r' := FieldVia(p, sc, st, c, t, x, reg, reg, false, d, cs1, cs1.free);
      }
    }
  }

  lemma {:induction false} FieldVia(p: Prog, sc: Scope, st: Store, c: Conf, t: Expr, x: string, reg: nat, a: nat, needFree: bool, d: nat, cs: CS, top: nat) returns (r': Regs)
    requires Ready(sc, st, c, cs) && Room(sc, a, cs) && reg < top <= cs.free && (a == reg || a >= top)
    requires var g := CLeft(sc, t, a, d, cs); Placed(p, c.pc, Then(g, FinishField(x, reg, a, needFree, g.cs)))
    ensures var g := CLeft(sc, t, a, d, cs);
            Delivers(p, c, c.pc + |g.code + FinishField(x, reg, a, needFree, g.cs).code|, Eval(p.o, st, c.log, Field(t, x)), r', reg, top)
    decreases t, 7
  {
    hide Reaches, At, IntArith, FoldIntOp, FinishField, CStep, CToReg, CLeft;
    var g := CLeft(sc, t, a, d, cs);
    var h := FinishField(x, reg, a, needFree, g.cs);
    PlacedPart(p, c.pc, Then(g, h), g, h.code);
    var r1 := LeftSim(p, sc, st, c, t, a, d, cs);
    var o1 := Eval(p.o, st, c.log, t);
    r' := c.r;
    if o1.Val? {
      var c1 := After(c, c.pc + |g.code|, o1, r1);
      r' := FinishFieldSim(p, c1, x, reg, a, needFree, g.cs);
      EndsTrans(p, c, c1.pc, o1, r1, c1.pc + |h.code|, Ask(p.o, c1.log, EvIndex(o1.v, Str(x))), r');
    }
  }

  /** Keys may be any expression; the value of t[k] given the table's value. */
  function KeyedValue(o: Oracle, st: Store, log: Log, tv: Value, k: Expr): Out {
    match Eval(o, st, log, k)
    case Val(l, kv) => Ask(o, l, EvIndex(tv, kv))
    case Err(l) => Err(l)
  }

  lemma {:induction false} FinishIndexSim(p: Prog, sc: Scope, st: Store, c: Conf, k: Expr, reg: nat, tableReg: nat, needFree: bool, d: nat, cs: CS) returns (r': Regs)
    requires Ready(sc, st, c, cs) && tableReg < cs.free && reg < cs.free
    requires Placed(p, c.pc, FinishIndex(sc, k, reg, tableReg, needFree, d, cs))
    ensures Delivers(p, c, c.pc + |FinishIndex(sc, k, reg, tableReg, needFree, d, cs).code|,
                     KeyedValue(p.o, st, c.log, Get(c.r, tableReg), k), r', reg, cs.free)
    decreases k, 7
  {
    hide Reaches, At, IntArith, FoldIntOp, CStep, CToReg, RegTop;
    var f := FinishIndex(sc, k, reg, tableReg, needFree, d, cs);
    var out := KeyedValue(p.o, st, c.log, Get(c.r, tableReg), k);
    if k.IntE? && 0 <= k.n <= MAX_ARG_C {
      r' := GetISim(p, c, reg, tableReg, k.n);
    } else {
      var key := cs.free;
      var g := CToReg(sc, k, key, d, Reserve(cs));
      PlacedPart(p, c.pc, f, g, [GetTable(reg, tableReg, key)]);
      var r1 := ToRegSim(p, sc, st, c, k, key, d, Reserve(cs));
      var o1 := Eval(p.o, st, c.log, k);
      if o1.Val? {
        var c1 := After(c, c.pc + |g.code|, o1, r1);
        r' := GetTableSim(p, c1, reg, tableReg, key);
        EndsTrans(p, c, c1.pc, o1, r1, c1.pc + 1, out, r');
      } else {
        r' := c.r;
      }
    }
  }

  lemma {:induction false} IndexSim(p: Prog, sc: Scope, st: Store, c: Conf, t: Expr, k: Expr, reg: nat, d: nat, cs: CS) returns (r': Regs)
    requires Ready(sc, st, c, cs) && Room(sc, reg, cs) && Placed(p, c.pc, CStep(sc, Index(t, k), reg, d, cs))
    ensures Delivers(p, c, c.pc + |CStep(sc, Index(t, k), reg, d, cs).code|, Eval(p.o, st, c.log, Index(t, k)), r', reg, Max(cs.free, reg + 1))
    decreases Index(t, k), 3
  {
    hide Reaches, At, IntArith, FoldIntOp, FinishIndex, CToReg, CLeft, RegTop;
    var f := CStep(sc, Index(t, k), reg, d, cs);
    var cs1 := Preamble(reg, cs);
    var out := Eval(p.o, st, c.log, Index(t, k));
    if PlainLocal(sc, t).Some? {
      PlainLocalEval(p.o, sc, st, c.r, c.log, t);
      r' := FinishIndexSim(p, sc, st, c, k, reg, PlainLocal(sc, t).value, false, d, cs1);
    } else {
      if reg < |sc| {
        r' := IndexVia(p, sc, st, c, t, k, reg, cs1.free, true, d, Reserve(cs1), cs1.free);
      } else {
        r' := IndexVia(p, sc, st, c, t, k, reg, reg, false, d, cs1, cs1.free);
      }
    }
  }

  lemma {:induction false} IndexVia(p: Prog, sc: Scope, st: Store, c: Conf, t: Expr, k: Expr, reg: nat, a: nat, needFree: bool, d: nat, cs: CS, top: nat) returns (r': Regs)
    requires Ready(sc, st, c, cs) && Room(sc, a, cs) && RegTop(sc) <= top && reg < top <= cs.free && (a == reg || a >= top) && a >= RegTop(sc)
    requires var g := CLeft(sc, t, a, d, cs); Placed(p, c.pc, Then(g, FinishIndex(sc, k, reg, a, needFree, d, g.cs)))
    ensures var g := CLeft(sc, t, a, d, cs);
            Delivers(p, c, c.pc + |g.code + FinishIndex(sc, k, reg, a, needFree, d, g.cs).code|, Eval(p.o, st, c.log, Index(t, k)), r', reg, top)
    decreases Index(t, k), 2
  {
    hide Reaches, At, IntArith, FoldIntOp, FinishIndex, CStep, CToReg, CLeft;
    var g := CLeft(sc, t, a, d, cs);
    var h := FinishIndex(sc, k, reg, a, needFree, d, g.cs);
    PlacedPart(p, c.pc, Then(g, h), g, h.code);
    var r1 := LeftSim(p, sc, st, c, t, a, d, cs);
    var o1 := Eval(p.o, st, c.log, t);
    r' := c.r;
    if o1.Val? {
      var c1 := After(c, c.pc + |g.code|, o1, r1);
      MatchesKept(sc, st, c.r, r1);
      r' := FinishIndexSim(p, sc, st, c1, k, reg, a, needFree, d, g.cs);
      EndsTrans(p, c, c1.pc, o1, r1, c1.pc + |h.code|, KeyedValue(p.o, st, c1.log, Get(r1, a), k), r');
    }
  }

  // -- arithmetic ---------------------------------------------------------------------

  /** The value of `lv op r` once the left operand is known. */
  function RightValue(o: Oracle, st: Store, log: Log, op: BinOp, lv: Value, r: Expr): Out
    requires IsArith(op)
  {
    match Eval(o, st, log, r)
    case Val(l, rv) => ArithValue(o, l, op, lv, rv)
    case Err(l) => Err(l)
  }

  lemma {:induction false} FinishBinopSim(p: Prog, sc: Scope, st: Store, c: Conf, op: BinOp, r: Expr, reg: nat, base: nat, leftReg: nat, d: nat, cs: CS) returns (r': Regs)
    requires IsArith(op) && Ready(sc, st, c, cs) && leftReg < cs.free
    requires Placed(p, c.pc, FinishBinop(sc, op, r, reg, base, leftReg, d, cs))
    ensures Delivers(p, c, c.pc + |FinishBinop(sc, op, r, reg, base, leftReg, d, cs).code|,
                     RightValue(p.o, st, c.log, op, Get(c.r, leftReg), r), r', reg, cs.free)
    decreases r, 7
  {
    hide Reaches, At, IntArith, FoldIntOp, CStep, CToReg, RegTop;
    var f := FinishBinop(sc, op, r, reg, base, leftReg, d, cs);
    if PlainLocal(sc, r).Some? {
      PlainLocalEval(p.o, sc, st, c.r, c.log, r);
      assert f.code == [Arith(op, reg, leftReg, PlainLocal(sc, r).value), MmBin(leftReg, PlainLocal(sc, r).value, op)];
      r' := BinopSim(p, c, op, reg, leftReg, PlainLocal(sc, r).value);
    } else {
      var g := CToReg(sc, r, cs.free, d, cs);
      PlacedPart(p, c.pc, f, g, [Arith(op, reg, leftReg, cs.free), MmBin(leftReg, cs.free, op)]);
      var r1 := ToRegSim(p, sc, st, c, r, cs.free, d, cs);
      var o1 := Eval(p.o, st, c.log, r);
      r' := c.r;
      if o1.Val? {
        var c1 := After(c, c.pc + |g.code|, o1, r1);
        r' := BinopSim(p, c1, op, reg, leftReg, cs.free);
        EndsTrans(p, c, c1.pc, o1, r1, c1.pc + 2, ArithValue(p.o, c1.log, op, Get(r1, leftReg), Get(r1, cs.free)), r');
      }
    }
  }

  /** Left operand to register a, then the right operand and the operation. */
  lemma {:induction false} ArithVia(p: Prog, sc: Scope, st: Store, c: Conf, op: BinOp, l: Expr, r: Expr, reg: nat, a: nat, base: nat, free2: nat, d: nat, cs: CS, top: nat) returns (r': Regs)
    requires IsArith(op) && Ready(sc, st, c, cs) && Room(sc, a, cs) && RegTop(sc) <= top <= cs.free && (a == reg || a >= top) && a >= RegTop(sc)
    requires a < free2 && top <= free2
    requires var g := CLeft(sc, l, a, d, cs);
             Placed(p, c.pc, Then(g, FinishBinop(sc, op, r, reg, base, a, d, g.cs.(free := free2))))
    ensures var g := CLeft(sc, l, a, d, cs);
            Delivers(p, c, c.pc + |g.code + FinishBinop(sc, op, r, reg, base, a, d, g.cs.(free := free2)).code|,
                     Eval(p.o, st, c.log, Bin(op, l, r)), r', reg, top)
    decreases Bin(op, l, r), 1
  {
    hide Reaches, At, IntArith, FoldIntOp, FinishBinop, CStep, CToReg, CLeft, Get, KeepsAll;
    var g := CLeft(sc, l, a, d, cs);
    var cs2 := g.cs.(free := free2);
    var h := FinishBinop(sc, op, r, reg, base, a, d, cs2);
    PlacedPart(p, c.pc, Then(g, h), g, h.code);
    var r1 := LeftSim(p, sc, st, c, l, a, d, cs);
    var o1 := Eval(p.o, st, c.log, l);
    r' := c.r;
    if o1.Val? {
      var c1 := After(c, c.pc + |g.code|, o1, r1);
      MatchesKept(sc, st, c.r, r1);
      r' := FinishBinopSim(p, sc, st, c1, op, r, reg, base, a, d, cs2);
      EndsTrans(p, c, c1.pc, o1, r1, c1.pc + |h.code|, RightValue(p.o, st, c1.log, op, Get(r1, a), r), r');
    }
  }

  /** a + imm and a - imm with the left operand in a fresh register. */
  lemma {:induction false} ImmediateVia(p: Prog, sc: Scope, st: Store, c: Conf, op: BinOp, l: Expr, imm: Int64, reg: nat, d: nat, cs: CS) returns (r': Regs)
    requires (op.Add? || op.Sub?) && -OFFSET_SC <= imm <= OFFSET_SC && Ready(sc, st, c, cs)
    requires var g := CLeft(sc, l, cs.free, d, Reserve(cs));
             Placed(p, c.pc, Then(g, FinishImmediate(op, reg, cs.free, imm, g.cs)))
    ensures Delivers(p, c, c.pc + |CLeft(sc, l, cs.free, d, Reserve(cs)).code| + 2, Eval(p.o, st, c.log, Bin(op, l, IntE(imm))), r', reg, cs.free)
    decreases l, 7
  {
    hide Reaches, At, IntArith, FoldIntOp, CStep, CToReg, CLeft;
    var g := CLeft(sc, l, cs.free, d, Reserve(cs));
    var h := FinishImmediate(op, reg, cs.free, imm, g.cs);
    PlacedPart(p, c.pc, Then(g, h), g, h.code);
    var r1 := LeftSim(p, sc, st, c, l, cs.free, d, Reserve(cs));
    var o1 := Eval(p.o, st, c.log, l);
    r' := c.r;
    if o1.Val? {
      var c1 := After(c, c.pc + |g.code|, o1, r1);
      assert SmallInt(imm) == Int(imm);
      assert Eval(p.o, st, c1.log, IntE(imm)) == Val(c1.log, Int(imm));
      r' := ImmediateSim(p, c1, op, reg, cs.free, if op.Sub? then 0 - imm else imm, imm, 0);
      EndsTrans(p, c, c1.pc, o1, r1, c1.pc + 2, ImmediateValue(p.o, c1.log, op, Get(r1, cs.free), imm, 0), r');
    }
  }

  /** imm + a. */
  lemma {:induction false} ImmediateRight(p: Prog, sc: Scope, st: Store, c: Conf, imm: Int64, r: Expr, reg: nat, d: nat, cs: CS) returns (r': Regs)
    requires -OFFSET_SC <= imm <= OFFSET_SC && Ready(sc, st, c, cs)
    requires var g := COperand(sc, r, d, cs);
             var a := OperandReg(sc, r, cs);
             Placed(p, c.pc, g) && At(p, c.pc + |g.code|, [AddI(reg, a, imm), MmBinI(a, imm, Add, 1)])
    ensures Delivers(p, c, c.pc + |COperand(sc, r, d, cs).code| + 2, Eval(p.o, st, c.log, Bin(Add, IntE(imm), r)), r', reg, cs.free)
    decreases r, 7
  {
    hide Reaches, At, IntArith, FoldIntOp, CStep, CToReg;
    var a := OperandReg(sc, r, cs);
    var r1 := OperandSim(p, sc, st, c, r, d, cs);
    var o1 := Eval(p.o, st, c.log, r);
    assert Eval(p.o, st, c.log, IntE(imm)) == Val(c.log, Int(imm));
    r' := c.r;
    if o1.Val? {
      var c1 := After(c, c.pc + |COperand(sc, r, d, cs).code|, o1, r1);
      assert SmallInt(imm) == Int(imm);
      r' := ImmediateSim(p, c1, Add, reg, a, imm, imm, 1);
      EndsTrans(p, c, c1.pc, o1, r1, c1.pc + 2, ImmediateValue(p.o, c1.log, Add, Get(r1, a), imm, 1), r');
    }
  }

  lemma {:induction false} ArithSim(p: Prog, sc: Scope, st: Store, c: Conf, e: Expr, reg: nat, d: nat, cs: CS) returns (r': Regs)
    requires e.Bin? && IsArith(e.op)
    requires Ready(sc, st, c, cs) && Room(sc, reg, cs) && cs.free > reg && Placed(p, c.pc, CArith(sc, e, reg, d, cs))
    ensures Delivers(p, c, c.pc + |CArith(sc, e, reg, d, cs).code|, Eval(p.o, st, c.log, e), r', reg, cs.free)
    decreases e, 3
  {
    hide Reaches, At, IntArith, FoldIntOp, FinishBinop, CStep, CToReg, CLeft, COperand, CInt, CConst, RegTop;
    var (op, l, r) := (e.op, e.l, e.r);
    var f := CArith(sc, e, reg, d, cs);
    if NumericValue(e).Some? {
      FoldSound(p.o, st, c.log, e);
      r' := InlinedSim(p, c, Int(NumericValue(e).value), reg, Preamble(reg, cs));
    } else if (op.Add? || op.Sub?) && SmallIntConst(r).Some? {
      assert r == IntE(SmallIntConst(r).value);
      if PlainLocal(sc, l).Some? {
        PlainLocalEval(p.o, sc, st, c.r, c.log, l);
        var imm := SmallIntConst(r).value;
        assert SmallInt(imm) == Int(imm);
        r' := ImmediateSim(p, c, op, reg, PlainLocal(sc, l).value, if op.Sub? then 0 - imm else imm, imm, 0);
      } else {
        r' := ImmediateVia(p, sc, st, c, op, l, SmallIntConst(r).value, reg, d, cs);
      }
    } else if op.Add? && SmallIntConst(l).Some? {
      assert l == IntE(SmallIntConst(l).value);
      var imm := SmallIntConst(l).value;
      var a := OperandReg(sc, r, cs);
      PlacedPart(p, c.pc, f, COperand(sc, r, d, cs), [AddI(reg, a, imm), MmBinI(a, imm, Add, 1)]);
      r' := ImmediateRight(p, sc, st, c, imm, r, reg, d, cs);
    } else {
      var base := Max(cs.free, |sc|);
      if PlainLocal(sc, l).Some? {
        PlainLocalEval(p.o, sc, st, c.r, c.log, l);
        r' := FinishBinopSim(p, sc, st, c, op, r, reg, base, PlainLocal(sc, l).value, d, cs);
      } else if reg < |sc| {
        r' := ArithVia(p, sc, st, c, op, l, r, reg, cs.free, base, cs.free + 1, d, Reserve(cs), cs.free);
      } else {
        r' := ArithVia(p, sc, st, c, op, l, r, reg, reg, base, base, d, cs, cs.free);
      }
    }
  }

  // -- comparisons ------------------------------------------------------------------------

  /** The code from c to pc' decides `out` and skips one more instruction when it differs from inv. */
  ghost predicate Tests(p: Prog, c: Conf, pc': int, out: Out, inv: bool, r': Regs, top: nat)
    requires c.Run?
  {
    Ends(p, c, if out.Val? && Truthy(out.v) != inv then pc' + 1 else pc', out, r') && (out.Val? ==> KeepsAll(c.r, r', top))
  }

  lemma RegisterCompareSim(p: Prog, c: Conf, op: BinOp, a: nat, b: nat, inv: bool)
    requires c.Run? && IsComparison(op) && At(p, c.pc, [RegisterCompare(op, a, b, inv)])
    ensures Tests(p, c, c.pc + 1, CompareValue(p.o, c.log, op, Get(c.r, a), Get(c.r, b)), inv, c.r, 0)
  {
    assert p.code[c.pc + 0] == [RegisterCompare(op, a, b, inv)][0];
    ReachesStep(p, c);
  }

  lemma OrderImmediateSim(p: Prog, c: Conf, op: BinOp, a: nat, imm: Int64, inv: bool)
    requires c.Run? && (op.Lt? || op.Le? || op.Gt? || op.Ge?) && At(p, c.pc, [OrderImmediate(op, a, imm, KFlag(inv))])
    ensures Tests(p, c, c.pc + 1, CompareValue(p.o, c.log, op, Get(c.r, a), Int(imm)), inv, c.r, 0)
  {
    assert p.code[c.pc + 0] == [OrderImmediate(op, a, imm, KFlag(inv))][0];
    assert SmallInt(imm) == Int(imm);
    ReachesStep(p, c);
  }

  lemma EqImmediateSim(p: Prog, c: Conf, op: BinOp, a: nat, imm: Int64, inv: bool)
    requires c.Run? && (op.Eq? || op.Ne?) && At(p, c.pc, [EqI(a, imm, KFlag(op.Ne? != inv))])
    ensures Tests(p, c, c.pc + 1, CompareValue(p.o, c.log, op, Get(c.r, a), Int(imm)), inv, c.r, 0)
  {
    assert p.code[c.pc + 0] == [EqI(a, imm, KFlag(op.Ne? != inv))][0];
    assert SmallInt(imm) == Int(imm);
    ReachesStep(p, c);
  }

  lemma EqConstSim(p: Prog, c: Conf, op: BinOp, a: nat, k: nat, inv: bool)
    requires c.Run? && (op.Eq? || op.Ne?) && At(p, c.pc, [EqK(a, k, KFlag(op.Ne? != inv))])
    ensures Tests(p, c, c.pc + 1, CompareValue(p.o, c.log, op, Get(c.r, a), Const(p, k)), inv, c.r, 0)
  {
    assert p.code[c.pc + 0] == [EqK(a, k, KFlag(op.Ne? != inv))][0];
    ReachesStep(p, c);
  }

  /** K < x and x > K ask the same question; so do K == x and x == K for a constant K. */
  lemma MirrorSound(o: Oracle, log: Log, op: BinOp, k: Value, v: Value)
    requires IsComparison(op) && !k.Other?
    ensures CompareValue(o, log, op, k, v) == CompareValue(o, log, Mirror(op), v, k)
  {
  }

  lemma TestsTrans(p: Prog, c: Conf, pc1: int, out1: Out, r1: Regs, pc2: int, out2: Out, inv: bool, top: nat)
    requires c.Run? && out1.Val? && Ends(p, c, pc1, out1, r1) && KeepsAll(c.r, r1, top)
    requires Tests(p, After(c, pc1, out1, r1), pc2, out2, inv, r1, 0)
    ensures Tests(p, c, pc2, out2, inv, r1, top)
  {
    EndsTrans(p, c, pc1, out1, r1, if out2.Val? && Truthy(out2.v) != inv then pc2 + 1 else pc2, out2, r1);
  }

  lemma {:induction false} RegisterTestSim(p: Prog, sc: Scope, st: Store, c: Conf, e: Expr, inv: bool, d: nat, cs: CS) returns (r': Regs)
    requires e.Bin? && IsComparison(e.op) && Ready(sc, st, c, cs) && Placed(p, c.pc, CRegisterTest(sc, e, inv, d, cs))
    ensures Tests(p, c, c.pc + |CRegisterTest(sc, e, inv, d, cs).code|, Eval(p.o, st, c.log, e), inv, r', cs.free)
    decreases e, 0
  {
    hide Reaches, At, IntArith, FoldIntOp, COperand, CStep, CompareValue, RegisterCompare, RegTop, FindLocal;
    var g := COperand(sc, e.l, d, cs);
    var h := COperand(sc, e.r, d, g.cs);
    var a := OperandReg(sc, e.l, cs);
    var b := OperandReg(sc, e.r, g.cs);
    var f := CRegisterTest(sc, e, inv, d, cs);
    var last := [RegisterCompare(e.op, a, b, inv)];
    assert f.code == g.code + (h.code + last);
    PlacedPart(p, c.pc, f, g, h.code + last);
    AtSplit(p, c.pc + |g.code|, h.code, last);
    r' := OperandSim(p, sc, st, c, e.l, d, cs);
    var o1 := Eval(p.o, st, c.log, e.l);
    if o1.Val? {
      var c1 := After(c, c.pc + |g.code|, o1, r');
      MatchesKept(sc, st, c.r, r');
      var r2 := OperandSim(p, sc, st, c1, e.r, d, g.cs);
      var o2 := Eval(p.o, st, c1.log, e.r);
      EndsTrans(p, c, c1.pc, o1, r', c1.pc + |h.code|, o2, r2);
      if o2.Val? {
        LeftSurvives(p, sc, st, c, e.l, r', r2, g.cs, a, cs);
        r' := r2;
        var c2 := After(c, c1.pc + |h.code|, o2, r2);
        RegisterCompareSim(p, c2, e.op, a, b, inv);
        TestsTrans(p, c, c2.pc, o2, r2, c2.pc + 1, CompareValue(p.o, c2.log, e.op, o1.v, o2.v), inv, cs.free);
      }
    }
  }

  /** The left operand's register is not touched while the right operand is computed. */
  lemma LeftSurvives(p: Prog, sc: Scope, st: Store, c: Conf, l: Expr, r1: Regs, r2: Regs, cs1: CS, a: nat, cs: CS)
    requires Ready(sc, st, c, cs) && a == OperandReg(sc, l, cs) && KeepsAll(r1, r2, cs1.free)
    requires cs1.free >= cs.free && (PlainLocal(sc, l).None? ==> cs1.free > cs.free)
    ensures Get(r2, a) == Get(r1, a)
  {
    if PlainLocal(sc, l).Some? {
      PlainLocalEval(p.o, sc, st, c.r, c.log, l);
    }
  }

  /** One operand and a compare against a constant; v is the value of the constant side. */
  lemma {:induction false} ConstTestSim(p: Prog, sc: Scope, st: Store, c: Conf, x: Expr, op: BinOp, k: Value, i: Instr, inv: bool, d: nat, cs: CS) returns (r': Regs)
    requires IsComparison(op) && Ready(sc, st, c, cs)
    requires var g := COperand(sc, x, d, cs); Placed(p, c.pc, g) && At(p, c.pc + |g.code|, [i])
    requires var a := OperandReg(sc, x, cs);
             || (!(op.Eq? || op.Ne?) && k.Int? && i == OrderImmediate(op, a, k.i, KFlag(inv)))
             || ((op.Eq? || op.Ne?) && k.Int? && i == EqI(a, k.i, KFlag(op.Ne? != inv)))
             || ((op.Eq? || op.Ne?) && i.EqK? && i == EqK(a, i.b, KFlag(op.Ne? != inv)) && Const(p, i.b) == k)
    ensures var out := match Eval(p.o, st, c.log, x) case Val(l, v) => CompareValue(p.o, l, op, v, k) case Err(l) => Err(l);
            Tests(p, c, c.pc + |COperand(sc, x, d, cs).code| + 1, out, inv, r', cs.free)
    decreases x, 7
  {
    hide Reaches, At, IntArith, FoldIntOp, COperand, CStep, CToReg, CompareValue, OrderImmediate;
    var g := COperand(sc, x, d, cs);
    var a := OperandReg(sc, x, cs);
    r' := OperandSim(p, sc, st, c, x, d, cs);
    var o1 := Eval(p.o, st, c.log, x);
    if o1.Val? {
      var c1 := After(c, c.pc + |g.code|, o1, r');
      if op.Eq? || op.Ne? {
        if i.EqK? {
          EqConstSim(p, c1, op, a, i.b, inv);
        } else {
          EqImmediateSim(p, c1, op, a, k.i, inv);
        }
      } else {
        OrderImmediateSim(p, c1, op, a, k.i, inv);
      }
      TestsTrans(p, c, c1.pc, o1, r', c1.pc + 1, CompareValue(p.o, c1.log, op, o1.v, k), inv, cs.free);
    }
  }

  /** A fused comparison decides exactly what the comparison evaluates to. */
  lemma {:induction false} CompareTestSim(p: Prog, sc: Scope, st: Store, c: Conf, e: Expr, inv: bool, d: nat, cs: CS) returns (r': Regs)
    requires e.Bin? && IsComparison(e.op) && Ready(sc, st, c, cs) && Placed(p, c.pc, CCompareTest(sc, e, inv, d, cs))
    ensures Tests(p, c, c.pc + |CCompareTest(sc, e, inv, d, cs).code|, Eval(p.o, st, c.log, e), inv, r', cs.free)
    decreases e, 2
  {
    hide Reaches, At, IntArith, FoldIntOp, COperand, CStep, CToReg, CRegisterTest, CompareValue, OrderImmediate;
    var (op, l, r) := (e.op, e.l, e.r);
    var f := CCompareTest(sc, e, inv, d, cs);
    if op.Eq? || op.Ne? {
      r' := EqualityTestSim(p, sc, st, c, e, inv, d, cs);
    } else if SmallIntConst(r).Some? {
      var i := OrderImmediate(op, OperandReg(sc, l, cs), SmallIntConst(r).value, KFlag(inv));
      PlacedPart(p, c.pc, f, COperand(sc, l, d, cs), [i]);
      r' := ConstTestSim(p, sc, st, c, l, op, Int(r.n), i, inv, d, cs);
    } else if SmallIntConst(l).Some? {
      var i := OrderImmediate(Mirror(op), OperandReg(sc, r, cs), SmallIntConst(l).value, KFlag(inv));
      PlacedPart(p, c.pc, f, COperand(sc, r, d, cs), [i]);
      r' := ConstTestSim(p, sc, st, c, r, Mirror(op), Int(l.n), i, inv, d, cs);
      MirrorEval(p.o, st, c.log, op, l, r);
    } else {
      r' := RegisterTestSim(p, sc, st, c, e, inv, d, cs);
    }
  }

  predicate ConstExpr(e: Expr) {
    e.IntE? || e.StrE?
  }

  function ConstValue(e: Expr): Value
    requires ConstExpr(e)
  {
    if e.IntE? then Int(e.n) else Str(e.text)
  }

  /** A comparison with its constant on the left is the mirrored one with the constant on the right. */
  lemma {:induction false} MirrorEval(o: Oracle, st: Store, log: Log, op: BinOp, k: Expr, x: Expr)
    requires IsComparison(op) && ConstExpr(k)
    ensures Eval(o, st, log, Bin(op, k, x)) ==
            (match Eval(o, st, log, x) case Val(l, v) => CompareValue(o, l, Mirror(op), v, ConstValue(k)) case Err(l) => Err(l))
  {
    assert Eval(o, st, log, k) == Val(log, ConstValue(k));
    match Eval(o, st, log, x)
    case Val(l, v) => MirrorSound(o, l, op, ConstValue(k), v);
    case Err(_) =>
  }

  /** An equality with a constant on either side compares the other operand with it. */
  lemma EqualityEval(o: Oracle, st: Store, log: Log, op: BinOp, x: Expr, k: Expr, swap: bool)
    requires (op.Eq? || op.Ne?) && ConstExpr(k)
    ensures Eval(o, st, log, if swap then Bin(op, k, x) else Bin(op, x, k)) ==
            (match Eval(o, st, log, x) case Val(l, v) => CompareValue(o, l, op, v, ConstValue(k)) case Err(l) => Err(l))
  {
    if swap {
      MirrorEval(o, st, log, op, k, x);
    } else {
      match Eval(o, st, log, x)
      case Val(l, _) => assert Eval(o, st, l, k) == Val(l, ConstValue(k));
      case Err(_) =>
    }
  }

  lemma {:induction false} EqualityTestSim(p: Prog, sc: Scope, st: Store, c: Conf, e: Expr, inv: bool, d: nat, cs: CS) returns (r': Regs)
    requires e.Bin? && (e.op.Eq? || e.op.Ne?) && Ready(sc, st, c, cs) && Placed(p, c.pc, CCompareTest(sc, e, inv, d, cs))
    ensures Tests(p, c, c.pc + |CCompareTest(sc, e, inv, d, cs).code|, Eval(p.o, st, c.log, e), inv, r', cs.free)
    decreases e, 1
  {
    hide Reaches, At, IntArith, FoldIntOp, COperand, CStep, CToReg, CRegisterTest, CompareValue, OrderImmediate, RegTop, Eval;
    var (op, l, r) := (e.op, e.l, e.r);
    var f := CCompareTest(sc, e, inv, d, cs);
    var swap := !IsImmediateEqConst(r);
    var (x, k) := if swap then (r, l) else (l, r);
    var kf := KFlag(op.Ne? != inv);
    if ConstExpr(k) {
      EqualityEval(p.o, st, c.log, op, x, k, swap);
    }
    if SmallIntConst(k).Some? {
      var i := EqI(OperandReg(sc, x, cs), SmallIntConst(k).value, kf);
      PlacedPart(p, c.pc, f, COperand(sc, x, d, cs), [i]);
      r' := ConstTestSim(p, sc, st, c, x, op, Int(k.n), i, inv, d, cs);
    } else if k.StrE? && ConstIndex(cs, Str(k.text)) <= MAX_ARG_B {
      var cs1 := AddConst(cs, Str(k.text));
      var ki := ConstIndex(cs, Str(k.text));
      var i := EqK(OperandReg(sc, x, cs1), ki, kf);
      PlacedPart(p, c.pc, f, COperand(sc, x, d, cs1), [i]);
      assert cs1.consts[ki] == Str(k.text) && cs1.consts <= p.consts;
      r' := ConstTestSim(p, sc, st, c, x, op, Str(k.text), i, inv, d, cs1);
    } else {
      r' := RegisterTestSim(p, sc, st, c, e, inv, d, if k.StrE? then AddConst(cs, Str(k.text)) else cs);
    }
  }

  lemma BooleanTail(p: Prog, pc: int, c: Conf, reg: nat, b: bool) returns (r': Regs)
    requires c.Run? && At(p, pc, [Jmp(2), LoadTrue(reg), Jmp(1), LoadFalse(reg)])
    requires c.pc == if b then pc + 1 else pc
    ensures Ends(p, c, pc + 4, Val(c.log, Bool(b)), r') && r' == c.r[reg := Bool(b)]
  {
    var code := [Jmp(2), LoadTrue(reg), Jmp(1), LoadFalse(reg)];
    assert p.code[pc + 0] == code[0] && p.code[pc + 1] == code[1] && p.code[pc + 2] == code[2] && p.code[pc + 3] == code[3];
    r' := c.r[reg := Bool(b)];
    ReachesStep(p, c);
    var c1 := Step(p, c);
    ReachesStep(p, c1);
    ReachesTrans(p, c, c1, Step(p, c1));
  }

  /** A comparison as a value. */
  lemma {:induction false} CompareSim(p: Prog, sc: Scope, st: Store, c: Conf, e: Expr, reg: nat, d: nat, cs: CS) returns (r': Regs)
    requires e.Bin? && IsComparison(e.op)
    requires Ready(sc, st, c, cs) && cs.free > reg && Placed(p, c.pc, CCompare(sc, e, reg, d, cs))
    ensures Delivers(p, c, c.pc + |CCompare(sc, e, reg, d, cs).code|, Eval(p.o, st, c.log, e), r', reg, cs.free)
    decreases e, 3
  {
    hide Reaches, At, IntArith, FoldIntOp, CCompareTest, CStep, CompareValue;
    var f := CCompare(sc, e, reg, d, cs);
    var g := CCompareTest(sc, e, false, d, cs);
    PlacedPart(p, c.pc, f, g, [Jmp(2), LoadTrue(reg), Jmp(1), LoadFalse(reg)]);
    r' := CompareTestSim(p, sc, st, c, e, false, d, cs);
    var out := Eval(p.o, st, c.log, e);
    if out.Val? {
      EvalComparisonBool(p.o, st, c.log, e);
      var c1 := After(c, c.pc + |g.code| + (if Truthy(out.v) then 1 else 0), out, r');
      var r2 := BooleanTail(p, c.pc + |g.code|, c1, reg, Truthy(out.v));
      EndsTrans(p, c, c1.pc, out, r', c.pc + |g.code| + 4, out, r2);
      r' := r2;
    }
  }

  lemma {:induction false} EvalComparisonBool(o: Oracle, st: Store, log: Log, e: Expr)
    requires e.Bin? && IsComparison(e.op) && Eval(o, st, log, e).Val?
    ensures Eval(o, st, log, e).v.Bool?
  {
  }

  // -- and / or ---------------------------------------------------------------------------------

  /** What `lv and r` / `lv or r` is once the left operand is known. */
  function LogicalValue(o: Oracle, st: Store, log: Log, isOr: bool, lv: Value, r: Expr): Out {
    if Truthy(lv) == isOr then Val(log, lv) else Eval(o, st, log, r)
  }

  lemma TestSim(p: Prog, c: Conf, a: nat, isOr: bool, n: nat)
    requires c.Run? && At(p, c.pc, [Test(a, KFlag(isOr)), Jmp(n)])
    ensures Reaches(p, c, Run(if Truthy(Get(c.r, a)) != isOr then c.pc + 2 else c.pc + 2 + n, c.r, c.up, c.log))
  {
    var code := [Test(a, KFlag(isOr)), Jmp(n)];
    assert p.code[c.pc + 0] == code[0] && p.code[c.pc + 1] == code[1];
    ReachesStep(p, c);
    var c1 := Step(p, c);
    ReachesStep(p, c1);
    ReachesTrans(p, c, c1, Step(p, c1));
  }

  lemma TestSetSim(p: Prog, c: Conf, a: nat, b: nat, isOr: bool, n: nat)
    requires c.Run? && At(p, c.pc, [TestSet(a, b, KFlag(isOr)), Jmp(n)])
    ensures var v := Get(c.r, b);
            Reaches(p, c, if Truthy(v) != isOr then Run(c.pc + 2, c.r, c.up, c.log) else Run(c.pc + 2 + n, c.r[a := v], c.up, c.log))
  {
    var code := [TestSet(a, b, KFlag(isOr)), Jmp(n)];
    assert p.code[c.pc + 0] == code[0] && p.code[c.pc + 1] == code[1];
    ReachesStep(p, c);
    var c1 := Step(p, c);
    ReachesStep(p, c1);
    ReachesTrans(p, c, c1, Step(p, c1));
  }

  /** TEST reg, a jump over the right operand, the right operand into reg. */
  lemma {:induction false} FinishTestSim(p: Prog, sc: Scope, st: Store, c: Conf, r: Expr, reg: nat, isOr: bool, d: nat, cs: CS) returns (r': Regs)
    requires Ready(sc, st, c, cs) && |sc| <= reg && Placed(p, c.pc, FinishTest(sc, r, reg, KFlag(isOr), d, cs))
    ensures Delivers(p, c, c.pc + |FinishTest(sc, r, reg, KFlag(isOr), d, cs).code|,
                     LogicalValue(p.o, st, c.log, isOr, Get(c.r, reg), r), r', reg, reg + 1)
    decreases r, 7
  {
    hide Reaches, At, IntArith, FoldIntOp, CStep;
    var cs1 := cs.(free := reg + 1);
    var h := CToReg(sc, r, reg, d, cs1);
    var f := FinishTest(sc, r, reg, KFlag(isOr), d, cs);
    AtSplit(p, c.pc, [Test(reg, KFlag(isOr)), Jmp(|h.code|)], h.code);
    TestSim(p, c, reg, isOr, |h.code|);
    var v := Get(c.r, reg);
    r' := c.r;
    if Truthy(v) != isOr {
      var c1 := Run(c.pc + 2, c.r, c.up, c.log);
      r' := ToRegSim(p, sc, st, c1, r, reg, d, cs1);
      EndsTrans(p, c, c1.pc, Val(c.log, v), c.r, c.pc + |f.code|, Eval(p.o, st, c.log, r), r');
    }
  }

  /** TESTSET reg from tmp, a jump over the right operand, the right operand into reg. */
  lemma {:induction false} FinishTestSetSim(p: Prog, sc: Scope, st: Store, c: Conf, r: Expr, reg: nat, tmp: nat, isOr: bool, d: nat, cs: CS) returns (r': Regs)
    requires Ready(sc, st, c, cs) && reg < |sc| && reg < tmp <= cs.free && Placed(p, c.pc, FinishTestSet(sc, r, reg, tmp, KFlag(isOr), d, cs))
    ensures Delivers(p, c, c.pc + |FinishTestSet(sc, r, reg, tmp, KFlag(isOr), d, cs).code|,
                     LogicalValue(p.o, st, c.log, isOr, Get(c.r, tmp), r), r', reg, tmp)
    decreases r, 7
  {
    hide Reaches, At, IntArith, FoldIntOp, CStep;
    var h := CToReg(sc, r, reg, d, cs);
    var f := FinishTestSet(sc, r, reg, tmp, KFlag(isOr), d, cs);
    AtSplit(p, c.pc, [TestSet(reg, tmp, KFlag(isOr)), Jmp(|h.code|)], h.code);
    TestSetSim(p, c, reg, tmp, isOr, |h.code|);
    var v := Get(c.r, tmp);
    r' := c.r[reg := v];
    if Truthy(v) != isOr {
      var c1 := Run(c.pc + 2, c.r, c.up, c.log);
      r' := ToRegSim(p, sc, st, c1, r, reg, d, cs);
      EndsTrans(p, c, c1.pc, Val(c.log, v), c.r, c.pc + |f.code|, Eval(p.o, st, c.log, r), r');
    }
  }

  /** Left operand to register a, then the short-circuit in its TEST or TESTSET form. */
  lemma {:induction false} LogicalVia(p: Prog, sc: Scope, st: Store, c: Conf, e: Expr, reg: nat, d: nat, cs: CS) returns (r': Regs)
    requires e.Bin? && (e.op.And? || e.op.Or?) && !(e.l.Bin? && IsComparison(e.l.op))
    requires Ready(sc, st, c, cs) && Room(sc, reg, cs) && cs.free > reg && Placed(p, c.pc, CLogical(sc, e, reg, d, cs))
    ensures Delivers(p, c, c.pc + |CLogical(sc, e, reg, d, cs).code|, Eval(p.o, st, c.log, e), r', reg, cs.free)
    decreases e, 2
  {
    hide Reaches, At, IntArith, FoldIntOp, CStep, CToReg, CLeft, FinishTest, FinishTestSet;
    var isOr := e.op.Or?;
    var named := reg < |sc|;
    var a := if named then cs.free else reg;
    var cs1 := if named then Reserve(cs) else cs;
    var g := CLeft(sc, e.l, a, d, cs1);
    var h := if named then FinishTestSet(sc, e.r, reg, a, KFlag(isOr), d, g.cs) else FinishTest(sc, e.r, reg, KFlag(isOr), d, g.cs);
    PlacedPart(p, c.pc, CLogical(sc, e, reg, d, cs), g, h.code);
    r' := LeftSim(p, sc, st, c, e.l, a, d, cs1);
    var o1 := Eval(p.o, st, c.log, e.l);
    if o1.Val? {
      var r1 := r';
      var c1 := After(c, c.pc + |g.code|, o1, r1);
      MatchesKept(sc, st, c.r, r1);
      if named {
        r' := FinishTestSetSim(p, sc, st, c1, e.r, reg, a, isOr, d, g.cs);
      } else {
        r' := FinishTestSim(p, sc, st, c1, e.r, reg, isOr, d, g.cs);
      }
      EndsTrans(p, c, c1.pc, o1, r1, c1.pc + |h.code|, LogicalValue(p.o, st, c1.log, isOr, o1.v, e.r), r');
    }
  }

  lemma JumpSim(p: Prog, c: Conf, n: int)
    requires c.Run? && At(p, c.pc, [Jmp(n)])
    ensures Reaches(p, c, Run(c.pc + 1 + n, c.r, c.up, c.log))
  {
    assert p.code[c.pc + 0] == [Jmp(n)][0];
    ReachesStep(p, c);
  }

  lemma LoadBoolSim(p: Prog, c: Conf, reg: nat, b: bool) returns (r': Regs)
    requires c.Run? && At(p, c.pc, [if b then LoadTrue(reg) else LoadFalse(reg)])
    ensures Ends(p, c, c.pc + 1, Val(c.log, Bool(b)), r') && r' == c.r[reg := Bool(b)]
  {
    assert p.code[c.pc + 0] == [if b then LoadTrue(reg) else LoadFalse(reg)][0];
    r' := PutStep(p, c, Val(c.log, Bool(b)), reg, c.pc + 1);
  }

  /** A comparison fused with the short-circuit that follows it. */
  lemma {:induction false} FusedSim(p: Prog, sc: Scope, st: Store, c: Conf, e: Expr, reg: nat, d: nat, cs: CS) returns (r': Regs)
    requires e.Bin? && (e.op.And? || e.op.Or?) && e.l.Bin? && IsComparison(e.l.op)
    requires Ready(sc, st, c, cs) && Room(sc, reg, cs) && cs.free > reg && Placed(p, c.pc, CLogical(sc, e, reg, d, cs))
    ensures Delivers(p, c, c.pc + |CLogical(sc, e, reg, d, cs).code|, Eval(p.o, st, c.log, e), r', reg, cs.free)
    decreases e, 2
  {
    hide Reaches, At, IntArith, FoldIntOp, CStep, CToReg, CCompareTest, CompareValue;
    var isOr := e.op.Or?;
    var f := CLogical(sc, e, reg, d, cs);
    var g := CCompareTest(sc, e.l, isOr, d, cs);
    var h := CToReg(sc, e.r, reg, d, g.cs);
    var load := if isOr then LoadTrue(reg) else LoadFalse(reg);
    var out := Eval(p.o, st, c.log, e);
    FusedParts(p, c.pc, f, g, h, load);
    var mid := c.pc + |g.code|;
    r' := CompareTestSim(p, sc, st, c, e.l, isOr, d, cs);
    var o1 := Eval(p.o, st, c.log, e.l);
    if o1.Val? {
      EvalComparisonBool(p.o, st, c.log, e.l);
      var r1 := r';
      var c1 := After(c, if Truthy(o1.v) != isOr then mid + 1 else mid, o1, r1);
      if Truthy(o1.v) != isOr {
        MatchesKept(sc, st, c.r, r1);
        r' := ToRegSim(p, sc, st, c1, e.r, reg, d, g.cs);
        EndsTrans(p, c, c1.pc, o1, r1, c1.pc + |h.code|, out, r');
        if out.Val? {
          var c2 := After(c, c1.pc + |h.code|, out, r');
          JumpSim(p, c2, 1);
          EndsTrans(p, c, c2.pc, out, r', c2.pc + 2, out, r');
        }
      } else {
        JumpSim(p, c1, |h.code| + 1);
        var c2 := Run(mid + |h.code| + 2, r1, c.up, o1.log);
        EndsTrans(p, c, c1.pc, o1, r1, c2.pc, o1, r1);
        r' := LoadBoolSim(p, c2, reg, isOr);
        EndsTrans(p, c, c2.pc, o1, r1, c2.pc + 1, out, r');
      }
    }
  }

  lemma FusedParts(p: Prog, pc: int, f: Frag, g: Frag, h: Frag, load: Instr)
    requires Placed(p, pc, f) && Grows(g.cs, f.cs) && f.cs == h.cs
    requires f.code == g.code + [Jmp(|h.code| + 1)] + h.code + [Jmp(1), load]
    ensures Placed(p, pc, g) && Placed(p, pc + |g.code| + 1, h)
    ensures At(p, pc + |g.code|, [Jmp(|h.code| + 1)])
    ensures At(p, pc + |g.code| + 1 + |h.code|, [Jmp(1)])
    ensures At(p, pc + |g.code| + 2 + |h.code|, [load])
  {
    AtSplit(p, pc, g.code + [Jmp(|h.code| + 1)] + h.code, [Jmp(1), load]);
    AtSplit(p, pc, g.code + [Jmp(|h.code| + 1)], h.code);
    AtSplit(p, pc, g.code, [Jmp(|h.code| + 1)]);
    assert [Jmp(1), load] == [Jmp(1)] + [load];
    AtSplit(p, pc + |g.code| + 1 + |h.code|, [Jmp(1)], [load]);
  }

  lemma {:induction false} LogicalSim(p: Prog, sc: Scope, st: Store, c: Conf, e: Expr, reg: nat, d: nat, cs: CS) returns (r': Regs)
    requires e.Bin? && (e.op.And? || e.op.Or?)
    requires Ready(sc, st, c, cs) && Room(sc, reg, cs) && cs.free > reg && Placed(p, c.pc, CLogical(sc, e, reg, d, cs))
    ensures Delivers(p, c, c.pc + |CLogical(sc, e, reg, d, cs).code|, Eval(p.o, st, c.log, e), r', reg, cs.free)
    decreases e, 3
  {
    hide Reaches, At, CLogical;
    if e.l.Bin? && IsComparison(e.l.op) {
      r' := FusedSim(p, sc, st, c, e, reg, d, cs);
    } else {
      r' := LogicalVia(p, sc, st, c, e, reg, d, cs);
    }
  }
}
