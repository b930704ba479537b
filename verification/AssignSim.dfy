/**
 Local declarations and assignments: after the statement's code every local in
 scope holds the value its variable has, and the tables saw the same stores in
 the same order. In a multiple assignment every place and value is the one
 from before the statement.
*/
module AssignSim {
  import opened Wrappers
  import opened LuaValues
  import opened LuaSource
  import opened LuaStmts
  import opened Machine
  import opened ExprSpec
  import opened Folding
  import opened ExprSim
  import opened StmtSpec

  /** Locals fill registers 0, 1, ... in declaration order; inlined constants own none. */
  ghost predicate Dense(sc: Scope) {
    forall i | 0 <= i < |sc| ::
      match sc[i].loc
      case InReg(r) => r == RegTop(sc[..i])
      case Inlined(v) => !v.Other? && sc[i].name != ENV
  }

  lemma {:induction false} DenseTop(sc: Scope)
    requires Dense(sc)
    ensures RegTop(sc) <= |sc|
    ensures forall i | 0 <= i < |sc| && sc[i].loc.InReg? :: sc[i].loc.r < RegTop(sc)
    decreases |sc|
  {
    if sc != [] {
      var init := sc[..|sc| - 1];
      forall i | 0 <= i < |init|
        ensures match init[i].loc case InReg(r) => r == RegTop(init[..i]) case Inlined(v) => !v.Other? && init[i].name != ENV
      {
        assert init[..i] == sc[..i];
      }
      DenseTop(init);
      forall i | 0 <= i < |sc| && sc[i].loc.InReg?
        ensures sc[i].loc.r < RegTop(sc)
      {
        if i < |init| {
          assert init[i] == sc[i];
        }
      }
    }
  }

  lemma DensePrefix(sc: Scope, n: nat)
    requires Dense(sc) && n <= |sc|
    ensures Dense(sc[..n])
  {
    forall i | 0 <= i < n
      ensures match sc[..n][i].loc case InReg(r) => r == RegTop(sc[..n][..i]) case Inlined(v) => !v.Other? && sc[..n][i].name != ENV
    {
      assert sc[..n][..i] == sc[..i];
    }
  }

  lemma DenseInjective(sc: Scope, i: nat, j: nat)
    requires Dense(sc) && i < j < |sc| && sc[i].loc.InReg? && sc[j].loc.InReg?
    ensures sc[i].loc.r < sc[j].loc.r
  {
    DensePrefix(sc, j);
    DenseTop(sc[..j]);
    assert sc[..j][i] == sc[i];
  }

  /** The state between two statements: freeReg == regTop. */
  ghost predicate AtRest(sc: Scope, st: Store, c: Conf, cs: CS) {
    c.Run? && Dense(sc) && Matches(sc, st, c.r) && c.up == st.up && cs.free == RegTop(sc)
  }

  lemma RestReady(sc: Scope, st: Store, c: Conf, cs: CS)
    requires AtRest(sc, st, c, cs)
    ensures Ready(sc, st, c, cs)
  {
    DenseTop(sc);
  }

  // -- values ------------------------------------------------------------------------

  function AsOut(out: Outs): Out {
    match out
    case Vals(l, _) => Val(l, Nil)
    case ErrList(l) => Err(l)
  }

  /** Registers base, base + 1, ... hold the first m values. */
  ghost predicate Holds(r: Regs, base: nat, vs: seq<Value>, m: nat) {
    forall i: nat :: base <= i < base + m && i - base < |vs| ==> Get(r, i) == vs[i - base]
  }

  lemma HoldsSnoc(r1: Regs, r2: Regs, base: nat, vs: seq<Value>, v: Value, m: nat, reg: nat)
    requires Holds(r1, base, vs, m) && Keeps(r1, r2, Max(base + Min(m, |vs|), reg + 1), reg)
    requires if |vs| < m then reg == base + |vs| && Get(r2, reg) == v else reg >= base + m
    ensures Holds(r2, base, vs + [v], m)
  {
  }

  lemma HoldsNothing(p: Prog, c: Conf, base: nat, m: nat)
    requires c.Run?
    ensures Reaches(p, c, c) && Holds(c.r, base, [], m)
  {
    ReachesRefl(p, c);
  }

  function Min(a: nat, b: nat): nat {
    if a < b then a else b
  }

  lemma {:induction false} EvalListSnoc(o: Oracle, st: Store, log: Log, es: seq<Expr>, n: nat)
    requires 0 < n <= |es|
    ensures EvalList(o, st, log, es[..n]) ==
            (match EvalList(o, st, log, es[..n - 1])
             case ErrList(l) => ErrList(l)
             case Vals(l, vs) =>
               match Eval(o, st, l, es[n - 1])
               case Val(l2, v) => Vals(l2, vs + [v])
               case Err(l2) => ErrList(l2))
  {
    assert es[..n][..n - 1] == es[..n - 1];
  }

  lemma {:induction false} LocalValuesFree(sc: Scope, values: seq<Expr>, n: nat, nNames: nat, nReg: nat, cs: CS)
    requires n <= |values| && nReg <= nNames && (n <= nReg || nReg == nNames)
    ensures CLocalValues(sc, values, n, nNames, cs.free, nReg, cs).cs.free == cs.free + if n <= nNames then n else nNames
  {
    if n > 0 {
      LocalValuesFree(sc, values, n - 1, nNames, nReg, cs);
    }
  }

  /** The initializers that have a name end in consecutive registers. */
  lemma {:induction false} LocalValuesSim(p: Prog, sc: Scope, st: Store, c: Conf, values: seq<Expr>, n: nat, nNames: nat, nReg: nat, cs: CS) returns (r': Regs)
    requires n <= |values| && nReg <= nNames && (n <= nReg || nReg == nNames)
    requires AtRest(sc, st, c, cs) && Placed(p, c.pc, CLocalValues(sc, values, n, nNames, cs.free, nReg, cs))
    ensures var out := EvalList(p.o, st, c.log, values[..n]);
            && Ends(p, c, c.pc + |CLocalValues(sc, values, n, nNames, cs.free, nReg, cs).code|, AsOut(out), r')
            && (out.Vals? ==> KeepsAll(c.r, r', cs.free) && Holds(r', cs.free, out.vs, nNames))
    decreases n
  {
    if n == 0 {
      hide CToReg, Eval, Reaches, At, Dense, Matches, Holds, RegTop;
      hide EvalList, Ends, KeepsAll, CLocalValues;
      r' := NoValuesSim(p, sc, st, c, values, nNames, nReg, cs);
    } else {
      hide Reaches, At, CLocalValues, EvalList, Matches, Holds, Grows, Ends, KeepsAll, AtRest, Placed, AsOut;
      PrevPlaced(p, c.pc, sc, values, n, nNames, nReg, cs);
      r' := LocalValuesSim(p, sc, st, c, values, n - 1, nNames, nReg, cs);
      if EvalList(p.o, st, c.log, values[..n - 1]).Vals? {
        r' := LastValueSim(p, sc, st, c, values, n, nNames, nReg, cs, r');
      } else {
        ValuesStop(p, c, st, values, n, c.pc + |CLocalValues(sc, values, n - 1, nNames, cs.free, nReg, cs).code|,
                   c.pc + |CLocalValues(sc, values, n, nNames, cs.free, nReg, cs).code|, r');
      }
    }
  }

  lemma NoValuesSim(p: Prog, sc: Scope, st: Store, c: Conf, values: seq<Expr>, nNames: nat, nReg: nat, cs: CS) returns (r': Regs)
    requires c.Run?
    ensures var out := EvalList(p.o, st, c.log, values[..0]);
            && Ends(p, c, c.pc + |CLocalValues(sc, values, 0, nNames, cs.free, nReg, cs).code|, AsOut(out), r')
            && out.Vals? && KeepsAll(c.r, r', cs.free) && Holds(r', cs.free, out.vs, nNames)
  {
    hide CToReg, Eval, Reaches, Holds;
    r' := c.r;
    HoldsNothing(p, c, cs.free, nNames);
  }

  /** After an error no more initializers run. */
  lemma {:induction false} ValuesStop(p: Prog, c: Conf, st: Store, values: seq<Expr>, n: nat, pc1: int, pc2: int, r': Regs)
    requires 0 < n <= |values| && c.Run? && !EvalList(p.o, st, c.log, values[..n - 1]).Vals?
    requires Ends(p, c, pc1, AsOut(EvalList(p.o, st, c.log, values[..n - 1])), r')
    ensures EvalList(p.o, st, c.log, values[..n]) == EvalList(p.o, st, c.log, values[..n - 1])
    ensures Ends(p, c, pc2, AsOut(EvalList(p.o, st, c.log, values[..n])), r')
  {
    hide Reaches, EvalList;
    EvalListSnoc(p.o, st, c.log, values, n);
  }

  lemma PrevPlaced(p: Prog, pc: int, sc: Scope, values: seq<Expr>, n: nat, nNames: nat, nReg: nat, cs: CS)
    requires 0 < n <= |values| && Placed(p, pc, CLocalValues(sc, values, n, nNames, cs.free, nReg, cs))
    ensures Placed(p, pc, CLocalValues(sc, values, n - 1, nNames, cs.free, nReg, cs))
  {
    hide At, CToReg;
    var prev := CLocalValues(sc, values, n - 1, nNames, cs.free, nReg, cs);
    var g := CToReg(sc, values[n - 1], if n <= nNames then cs.free + n - 1 else prev.cs.free, 0, prev.cs);
    PlacedPart(p, pc, CLocalValues(sc, values, n, nNames, cs.free, nReg, cs), prev, g.code);
  }

  /** The last of n initializers, the others being in their registers. */
  lemma LastValueSim(p: Prog, sc: Scope, st: Store, c: Conf, values: seq<Expr>, n: nat, nNames: nat, nReg: nat, cs: CS, r1: Regs) returns (r': Regs)
    requires 0 < n <= |values| && nReg <= nNames && (n <= nReg || nReg == nNames)
    requires AtRest(sc, st, c, cs) && Placed(p, c.pc, CLocalValues(sc, values, n, nNames, cs.free, nReg, cs))
    requires var o1 := EvalList(p.o, st, c.log, values[..n - 1]);
             && o1.Vals? && Ends(p, c, c.pc + |CLocalValues(sc, values, n - 1, nNames, cs.free, nReg, cs).code|, AsOut(o1), r1)
             && KeepsAll(c.r, r1, cs.free) && Holds(r1, cs.free, o1.vs, nNames)
    ensures var out := EvalList(p.o, st, c.log, values[..n]);
            && Ends(p, c, c.pc + |CLocalValues(sc, values, n, nNames, cs.free, nReg, cs).code|, AsOut(out), r')
            && (out.Vals? ==> KeepsAll(c.r, r', cs.free) && Holds(r', cs.free, out.vs, nNames))
  {
    hide Reaches, At, CToReg, Eval, Matches, RegTop, Dense, IntArith, Holds, FindLocal, IndexOf;
    RestReady(sc, st, c, cs);
    var base := cs.free;
    var prev := CLocalValues(sc, values, n - 1, nNames, base, nReg, cs);
    LocalValuesFree(sc, values, n - 1, nNames, nReg, cs);
    var reg := if n <= nNames then base + n - 1 else prev.cs.free;
    var g := CToReg(sc, values[n - 1], reg, 0, prev.cs);
    PlacedPart(p, c.pc, CLocalValues(sc, values, n, nNames, base, nReg, cs), prev, g.code);
    EvalListSnoc(p.o, st, c.log, values, n);
    var o1 := EvalList(p.o, st, c.log, values[..n - 1]);
    var c1 := After(c, c.pc + |prev.code|, AsOut(o1), r1);
    MatchesKept(sc, st, c.r, r1);
    r' := ToRegSim(p, sc, st, c1, values[n - 1], reg, 0, prev.cs);
    var out := Eval(p.o, st, o1.log, values[n - 1]);
    EndsTrans(p, c, c1.pc, AsOut(o1), r1, c1.pc + |g.code|, out, r');
    if out.Val? {
      HoldsSnoc(r1, r', base, o1.vs, out.v, nNames, reg);
    }
  }

  // -- local declarations ----------------------------------------------------------------

  lemma {:induction false} FoldScalarSound(o: Oracle, st: Store, log: Log, e: Expr)
    requires TryFoldScalar(e).Some?
    ensures Eval(o, st, log, e) == Val(log, TryFoldScalar(e).value)
  {
    match e
    case Paren(inner) => FoldScalarSound(o, st, log, inner);
    case Un(_, _) => FoldSound(o, st, log, e);
    case Bin(_, _, _) => FoldSound(o, st, log, e);
    case _ =>
  }

  lemma {:induction false} NewLocalsTop(sc: Scope, names: seq<string>, consts: seq<bool>, inl: Option<Value>, k: nat)
    requires 0 < |names| && k <= |names|
    ensures var nReg := if inl.Some? then |names| - 1 else |names|;
            RegTop(sc + NewLocals(names, consts, RegTop(sc), inl)[..k]) == RegTop(sc) + Min(k, nReg)
  {
    var added := NewLocals(names, consts, RegTop(sc), inl);
    if k == 0 {
      assert sc + added[..0] == sc;
    } else {
      NewLocalsTop(sc, names, consts, inl, k - 1);
      var all := sc + added[..k];
      assert all[..|all| - 1] == sc + added[..k - 1];
      assert all[|all| - 1] == added[k - 1];
    }
  }

  /** New locals take the next registers, and the scope stays dense. */
  lemma {:induction false} NewLocalsDense(sc: Scope, names: seq<string>, consts: seq<bool>, inl: Option<Value>)
    requires Dense(sc) && |names| > 0 && (inl.Some? ==> !inl.value.Other? && names[|names| - 1] != ENV)
    ensures var sc2 := sc + NewLocals(names, consts, RegTop(sc), inl);
            Dense(sc2) && RegTop(sc2) == RegTop(sc) + if inl.Some? then |names| - 1 else |names|
  {
    var added := NewLocals(names, consts, RegTop(sc), inl);
    var sc2 := sc + added;
    forall i | 0 <= i < |sc2|
      ensures match sc2[i].loc case InReg(r) => r == RegTop(sc2[..i]) case Inlined(v) => !v.Other? && sc2[i].name != ENV
    {
      if i < |sc| {
        assert sc2[..i] == sc[..i];
      } else {
        NewLocalsTop(sc, names, consts, inl, i - |sc|);
        assert sc2[..i] == sc + added[..i - |sc|];
      }
    }
    NewLocalsTop(sc, names, consts, inl, |names|);
    assert added[..|names|] == added;
  }

  /** Missing values are nil. */
  lemma NilFillSim(p: Prog, c: Conf, base: nat, vs: seq<Value>, nNames: nat) returns (r': Regs)
    requires c.Run? && At(p, c.pc, NilFill(base, |vs|, nNames)) && Holds(c.r, base, vs, nNames)
    ensures Reaches(p, c, Run(c.pc + |NilFill(base, |vs|, nNames)|, r', c.up, c.log))
    ensures KeepsAll(c.r, r', base) && Holds(r', base, Adjust(vs, nNames), nNames)
  {
    r' := c.r;
    if |vs| < nNames {
      assert p.code[c.pc + 0] == NilFill(base, |vs|, nNames)[0];
      r' := SetNils(c.r, base + |vs|, nNames - |vs|);
      ReachesStep(p, c);
    } else {
      ReachesRefl(p, c);
    }
  }

  lemma {:induction false} BoundMatches(sc: Scope, st: Store, r: Regs, r': Regs, names: seq<string>, consts: seq<bool>, inl: Option<Value>, vs: seq<Value>)
    requires Dense(sc) && Matches(sc, st, r) && KeepsAll(r, r', RegTop(sc)) && 0 < |names| == |vs|
    requires inl.Some? ==> !inl.value.Other? && names[|names| - 1] != ENV && vs[|vs| - 1] == inl.value
    requires Holds(r', RegTop(sc), vs, if inl.Some? then |names| - 1 else |names|)
    ensures var sc2 := sc + NewLocals(names, consts, RegTop(sc), inl);
            Dense(sc2) && Matches(sc2, st.(vars := st.vars + Bind(names, vs)), r')
  {
    hide RegTop, Dense;
    var (base, nReg) := (RegTop(sc), if inl.Some? then |names| - 1 else |names|);
    var added := NewLocals(names, consts, base, inl);
    var (sc2, vars2) := (sc + added, st.vars + Bind(names, vs));
    NewLocalsDense(sc, names, consts, inl);
    forall i | 0 <= i < |sc2|
      ensures && sc2[i].name == vars2[i].0
              && (match sc2[i].loc
                  case InReg(x) => x < RegTop(sc2) && Get(r', x) == vars2[i].1
                  case Inlined(v) => v == vars2[i].1 && !v.Other? && sc2[i].name != ENV)
    {
      if i < |sc| {
        assert sc2[i] == sc[i] && vars2[i] == st.vars[i];
      } else {
        var k := i - |sc|;
        assert sc2[i] == added[k] && vars2[i] == (names[k], vs[k]);
      }
    }
  }

  /** What a finished statement means for the machine. */
  ghost predicate Simulates(p: Prog, c: Conf, pcEnd: int, res: Res, sc: Scope, r': Regs) {
    match res
    case Normal(st, log) => Reaches(p, c, Run(pcEnd, r', st.up, log)) && Matches(sc, st, r')
    case Failed(log) => Reaches(p, c, Raised(log))
    case _ => true
  }

  /** A local declaration: names are bound after all initializers ran in the old scope. */
  lemma LocalSim(p: Prog, sc: Scope, st: Store, c: Conf, names: seq<string>, consts: seq<bool>, values: seq<Expr>, cs: CS) returns (r': Regs)
    requires |names| > 0 && AtRest(sc, st, c, cs)
    requires var f := CLocal(sc, names, consts, values, cs);
             f.cs.err == NoError && f.cs.consts <= p.consts && At(p, c.pc, LocalCode(sc, names, consts, values, cs))
    ensures var f := CLocal(sc, names, consts, values, cs);
            Dense(f.sc) && Simulates(p, c, c.pc + |f.code|, ExecLocal(p.o, st, c.log, names, values), f.sc, r')
  {
    hide Reaches, At, Eval, Matches, RegTop, Dense, Holds, CLocalValues, TryFoldScalar;
    var base := cs.free;
    var inl := InlineLast(names, consts, values);
    var nReg := if inl.Some? then |names| - 1 else |names|;
    var m := if inl.Some? then |values| - 1 else |values|;
    var g := CLocalValues(sc, values, m, |names|, base, nReg, cs);
    var fill := NilFill(base, |values|, |names|);
    NewLocalsDense(sc, names, consts, inl);
    AtSplit(p, c.pc, g.code, fill);
    r' := LocalValuesSim(p, sc, st, c, values, m, |names|, nReg, cs);
    var o1 := EvalList(p.o, st, c.log, values[..m]);
    assert values[..|values|] == values;
    if inl.Some? {
      EvalListSnoc(p.o, st, c.log, values, |values|);
    }
    if o1.Vals? {
      var r1 := r';
      var c1 := After(c, c.pc + |g.code|, AsOut(o1), r1);
      if inl.Some? {
        FoldScalarSound(p.o, st, o1.log, values[|values| - 1]);
        var all := o1.vs + [inl.value];
        assert Adjust(all, |names|) == all;
        HoldsMore(r1, base, o1.vs, inl.value, |names|);
        BoundMatches(sc, st, c.r, r1, names, consts, inl, all);
      } else {
        r' := NilFillSim(p, c1, base, o1.vs, |names|);
        ReachesTrans(p, c, c1, Run(c1.pc + |fill|, r', c.up, c1.log));
        KeepsTrans(c.r, r1, r', base);
        BoundMatches(sc, st, c.r, r', names, consts, inl, Adjust(o1.vs, |names|));
      }
    }
  }

  function LocalCode(sc: Scope, names: seq<string>, consts: seq<bool>, values: seq<Expr>, cs: CS): (code: seq<Instr>)
    requires |names| > 0
    ensures CLocal(sc, names, consts, values, cs).code == Lift(code)
  {
    var inl := InlineLast(names, consts, values);
    var nReg := if inl.Some? then |names| - 1 else |names|;
    CLocalValues(sc, values, if inl.Some? then |values| - 1 else |values|, |names|, cs.free, nReg, cs).code + NilFill(cs.free, |values|, |names|)
  }

  lemma HoldsMore(r: Regs, base: nat, vs: seq<Value>, v: Value, m: nat)
    requires Holds(r, base, vs, m) && |vs| + 1 == m
    ensures Holds(r, base, vs + [v], m - 1)
  {
  }

  lemma KeepsTrans(r: Regs, r1: Regs, r2: Regs, top: nat)
    requires KeepsAll(r, r1, top) && KeepsAll(r1, r2, top)
    ensures KeepsAll(r, r2, top)
  {
  }

  // -- single assignment -------------------------------------------------------------------

  /** The operand of a store: a pool constant or a register, holding the value either way. */
  lemma StoreValueSim(p: Prog, sc: Scope, st: Store, c: Conf, value: Expr, cs: CS) returns (r': Regs)
    requires Ready(sc, st, c, cs) && Placed(p, c.pc, CStoreValue(sc, value, cs).f)
    ensures var s := CStoreValue(sc, value, cs);
            var out := Eval(p.o, st, c.log, value);
            && Ends(p, c, c.pc + |s.f.code|, out, r')
            && (out.Val? ==> RK(p, r', s.c, s.k) == out.v && KeepsAll(c.r, r', cs.free))
            && s.f.cs.free >= cs.free && (s.k == 0 ==> s.c < s.f.cs.free)
  {
    hide Reaches, At, Eval, Matches, RegTop, CToReg;
    var cs1 := if TryFoldScalar(value).Some? then AddConst(cs, TryFoldScalar(value).value) else cs;
    if TryFoldScalar(value).Some? && ConstIndex(cs, TryFoldScalar(value).value) <= MAX_ARG_C {
      FoldScalarSound(p.o, st, c.log, value);
      r' := c.r;
      ReachesRefl(p, c);
    } else {
      r' := OperandSim(p, sc, st, c, value, 0, cs1);
      if PlainLocal(sc, value).Some? {
        PlainLocalEval(p.o, sc, st, c.r, c.log, value);
      }
    }
  }

  /** An instruction that only asks the outside world. */
  lemma GotoStep(p: Prog, c: Conf, out: Out)
    requires c.Run? && Step(p, c) == Goto(c, out)
    ensures Ends(p, c, c.pc + 1, out, c.r)
  {
    ReachesStep(p, c);
  }

  lemma SetTableStep(p: Prog, c: Conf, t: nat, k: nat, v: nat, vk: nat)
    requires c.Run? && At(p, c.pc, [SetTable(t, k, v, vk)])
    ensures Ends(p, c, c.pc + 1, Ask(p.o, c.log, EvNewIndex(Get(c.r, t), Get(c.r, k), RK(p, c.r, v, vk))), c.r)
  {
    assert p.code[c.pc + 0] == [SetTable(t, k, v, vk)][0];
    GotoStep(p, c, Ask(p.o, c.log, EvNewIndex(Get(c.r, t), Get(c.r, k), RK(p, c.r, v, vk))));
  }

  lemma SetIStep(p: Prog, c: Conf, t: nat, n: Int64, v: nat, vk: nat)
    requires c.Run? && 0 <= n <= MAX_ARG_C && At(p, c.pc, [SetI(t, n, v, vk)])
    ensures Ends(p, c, c.pc + 1, Ask(p.o, c.log, EvNewIndex(Get(c.r, t), Int(n), RK(p, c.r, v, vk))), c.r)
  {
    assert p.code[c.pc + 0] == [SetI(t, n, v, vk)][0];
    assert SmallInt(n) == Int(n);
    GotoStep(p, c, Ask(p.o, c.log, EvNewIndex(Get(c.r, t), Int(n), RK(p, c.r, v, vk))));
  }

  lemma SetFieldStep(p: Prog, c: Conf, t: nat, k: nat, v: nat, vk: nat)
    requires c.Run? && At(p, c.pc, [SetField(t, k, v, vk)])
    ensures Ends(p, c, c.pc + 1, Ask(p.o, c.log, EvNewIndex(Get(c.r, t), Const(p, k), RK(p, c.r, v, vk))), c.r)
  {
    assert p.code[c.pc + 0] == [SetField(t, k, v, vk)][0];
    GotoStep(p, c, Ask(p.o, c.log, EvNewIndex(Get(c.r, t), Const(p, k), RK(p, c.r, v, vk))));
  }

  lemma SetTabUpStep(p: Prog, c: Conf, k: nat, v: nat, vk: nat)
    requires c.Run? && At(p, c.pc, [SetTabUp(0, k, v, vk)])
    ensures Ends(p, c, c.pc + 1, Ask(p.o, c.log, EvNewIndex(c.up, Const(p, k), RK(p, c.r, v, vk))), c.r)
  {
    assert p.code[c.pc + 0] == [SetTabUp(0, k, v, vk)][0];
    GotoStep(p, c, Ask(p.o, c.log, EvNewIndex(c.up, Const(p, k), RK(p, c.r, v, vk))));
  }

  lemma SetUpvalStep(p: Prog, c: Conf, a: nat)
    requires c.Run? && At(p, c.pc, [SetUpval(a, 0)])
    ensures Reaches(p, c, Run(c.pc + 1, c.r, Get(c.r, a), c.log))
  {
    assert p.code[c.pc + 0] == [SetUpval(a, 0)][0];
    ReachesStep(p, c);
  }

  /** The long form of a field store: the name goes to a register first. */
  lemma LoadThenSet(p: Prog, c: Conf, x: string, t: nat, key: nat, k: nat, v: nat, vk: nat) returns (r': Regs)
    requires c.Run? && t != key && k < |p.consts| && p.consts[k] == Str(x) && (vk == 0 ==> v != key)
    requires At(p, c.pc, LoadConst(key, k) + [SetTable(t, key, v, vk)])
    ensures Ends(p, c, c.pc + |LoadConst(key, k)| + 1, Ask(p.o, c.log, EvNewIndex(Get(c.r, t), Str(x), RK(p, c.r, v, vk))), r')
    ensures r' == c.r[key := Str(x)]
  {
    hide Reaches, At, Step;
    var ld := LoadConst(key, k);
    AtSplit(p, c.pc, ld, [SetTable(t, key, v, vk)]);
    r' := LoadConstSim(p, c, key, k);
    var c1 := After(c, c.pc + |ld|, Val(c.log, Str(x)), r');
    SetTableStep(p, c1, t, key, v, vk);
    EndsTrans(p, c, c1.pc, Val(c.log, Str(x)), r', c1.pc + 1, Ask(p.o, c.log, EvNewIndex(Get(c.r, t), Str(x), RK(p, c.r, v, vk))), r');
  }

  lemma SetFieldSim(p: Prog, c: Conf, x: string, t: nat, k: nat, v: nat, vk: nat, cs: CS) returns (r': Regs)
    requires c.Run? && t < cs.free && (vk == 0 ==> v < cs.free) && k < |p.consts| && p.consts[k] == Str(x)
    requires At(p, c.pc, CSetField(t, k, v, vk, cs).code)
    ensures Ends(p, c, c.pc + |CSetField(t, k, v, vk, cs).code|, Ask(p.o, c.log, EvNewIndex(Get(c.r, t), Str(x), RK(p, c.r, v, vk))), r')
    ensures KeepsAll(c.r, r', cs.free)
  {
    hide Reaches, At, Step;
    if k <= MAX_ARG_C {
      SetFieldStep(p, c, t, k, v, vk);
      r' := c.r;
    } else {
      r' := LoadThenSet(p, c, x, t, cs.free, k, v, vk);
    }
  }

  lemma SetTabUpSim(p: Prog, c: Conf, x: string, k: nat, v: nat, vk: nat, cs: CS) returns (r': Regs)
    requires c.Run? && (vk == 0 ==> v < cs.free) && k < |p.consts| && p.consts[k] == Str(x)
    requires At(p, c.pc, CSetTabUp(k, v, vk, cs).code)
    ensures Ends(p, c, c.pc + |CSetTabUp(k, v, vk, cs).code|, Ask(p.o, c.log, EvNewIndex(c.up, Str(x), RK(p, c.r, v, vk))), r')
    ensures KeepsAll(c.r, r', cs.free)
  {
    hide Reaches, At, Step;
    if k <= MAX_ARG_C {
      SetTabUpStep(p, c, k, v, vk);
      r' := c.r;
    } else {
      var (env, key) := (cs.free, cs.free + 1);
      var rest := LoadConst(key, k) + [SetTable(env, key, v, vk)];
      assert CSetTabUp(k, v, vk, cs).code == [GetUpval(env, 0)] + rest;
      AtSplit(p, c.pc, [GetUpval(env, 0)], rest);
      var r0 := GetUpvalStep(p, c, env);
      var c0 := Run(c.pc + 1, r0, c.up, c.log);
      r' := LoadThenSet(p, c0, x, env, key, k, v, vk);
      EndsTrans(p, c, c0.pc, Val(c.log, c.up), r0, c0.pc + |rest|, Ask(p.o, c.log, EvNewIndex(c.up, Str(x), RK(p, c.r, v, vk))), r');
    }
  }

  /** Storing to a global name is storing to a field of the environment in force. */
  lemma SetGlobalSim(p: Prog, sc: Scope, st: Store, c: Conf, x: string, k: nat, v: nat, vk: nat, cs: CS) returns (r': Regs)
    requires c.Run? && Matches(sc, st, c.r) && c.up == st.up && RegTop(sc) <= cs.free
    requires (vk == 0 ==> v < cs.free) && k < |p.consts| && p.consts[k] == Str(x)
    requires At(p, c.pc, CSetGlobal(sc, x, v, vk, k, cs).code)
    ensures Ends(p, c, c.pc + |CSetGlobal(sc, x, v, vk, k, cs).code|, Ask(p.o, c.log, EvNewIndex(EnvValue(st), Str(x), RK(p, c.r, v, vk))), r')
    ensures KeepsAll(c.r, r', cs.free)
  {
    hide Reaches, At, Step, CSetField, CSetTabUp, RegTop;
    FindAgrees(sc, st.vars, ENV);
    match LookupLocal(sc, ENV)
    case Some(env) => r' := SetFieldSim(p, c, x, env, k, v, vk, cs);
    case None => r' := SetTabUpSim(p, c, x, k, v, vk, cs);
  }

  /** One register of the scope gets a new value. */
  lemma {:induction false} MatchesAssigned(sc: Scope, st: Store, r: Regs, r': Regs, i: nat, v: Value)
    requires Dense(sc) && Matches(sc, st, r) && i < |sc| && sc[i].loc.InReg?
    requires Get(r', sc[i].loc.r) == v && Keeps(r, r', RegTop(sc), sc[i].loc.r)
    ensures Matches(sc, st.(vars := st.vars[i := (st.vars[i].0, v)]), r')
  {
    hide RegTop;
    forall j | 0 <= j < |sc| && j != i && sc[j].loc.InReg?
      ensures sc[j].loc.r != sc[i].loc.r
    {
      if j < i { DenseInjective(sc, j, i); } else { DenseInjective(sc, i, j); }
    }
  }

  /** An assignment with one target and one value, step by step. */
  function ExecSingle(o: Oracle, st: Store, log: Log, target: Expr, value: Expr): Res {
    match EvalPlace(o, st, log, target)
    case PlaceErr(l) => Failed(l)
    case PlaceAt(l, pl) =>
      match Eval(o, st, l, value)
      case Err(l2) => Failed(l2)
      case Val(l2, v) => StoreAt(o, st, l2, pl, v)
  }

  lemma SingleIsAssign(o: Oracle, st: Store, log: Log, target: Expr, value: Expr)
    ensures ExecAssign(o, st, log, [target], [value]) == ExecSingle(o, st, log, target, value)
  {
    hide Eval;
    var (ts, vs) := ([target], [value]);
    assert ts[..0] == [] && vs[..0] == [];
    assert EvalPlaces(o, st, log, ts[..0]) == Places(log, []);
    match EvalPlace(o, st, log, target)
    case PlaceErr(_) =>
    case PlaceAt(l, pl) =>
      assert EvalPlaces(o, st, log, ts) == Places(l, [pl]);
      assert EvalList(o, st, l, vs[..0]) == Vals(l, []);
      match Eval(o, st, l, value)
      case Err(_) =>
      case Val(l2, v) =>
        assert EvalList(o, st, l, vs) == Vals(l2, [v]);
        assert Adjust([v], 1) == [v];
        var r := StoreAt(o, st, l2, pl, v);
        if r.Normal? {
          assert StoreAll(o, r.st, r.log, [pl][..0], [v][..0]) == r;
        }
  }

  lemma AssignLocalSim(p: Prog, sc: Scope, st: Store, c: Conf, x: string, value: Expr, cs: CS) returns (r': Regs)
    requires AtRest(sc, st, c, cs) && !IsConstLocal(sc, x) && LookupLocal(sc, x).Some?
    requires Placed(p, c.pc, CSingle(sc, Name(x), value, cs))
    ensures Simulates(p, c, c.pc + |CSingle(sc, Name(x), value, cs).code|, ExecSingle(p.o, st, c.log, Name(x), value), sc, r')
  {
    hide Reaches, At, Eval, RegTop, CToReg;
    RestReady(sc, st, c, cs);
    DenseTop(sc);
    FindAgrees(sc, st.vars, x);
    var i := FindLocal(sc, x);
    r' := ToRegSim(p, sc, st, c, value, sc[i].loc.r, 0, cs);
    var out := Eval(p.o, st, c.log, value);
    if out.Val? {
      MatchesAssigned(sc, st, c.r, r', i, out.v);
    }
  }

  lemma AssignUpSim(p: Prog, sc: Scope, st: Store, c: Conf, value: Expr, cs: CS) returns (r': Regs)
    requires AtRest(sc, st, c, cs) && FindLocal(sc, ENV) < 0
    requires Placed(p, c.pc, CSingle(sc, Name(ENV), value, cs))
    ensures Simulates(p, c, c.pc + |CSingle(sc, Name(ENV), value, cs).code|, ExecSingle(p.o, st, c.log, Name(ENV), value), sc, r')
  {
    hide Reaches, At, Eval, RegTop, CToReg;
    RestReady(sc, st, c, cs);
    FindAgrees(sc, st.vars, ENV);
    var f := CSingle(sc, Name(ENV), value, cs);
    var g := CToReg(sc, value, cs.free, 0, Reserve(cs));
    PlacedPart(p, c.pc, f, g, [SetUpval(cs.free, 0)]);
    r' := ToRegSim(p, sc, st, c, value, cs.free, 0, Reserve(cs));
    var out := Eval(p.o, st, c.log, value);
    if out.Val? {
      var c1 := After(c, c.pc + |g.code|, out, r');
      SetUpvalStep(p, c1, cs.free);
      ReachesTrans(p, c, c1, Run(c1.pc + 1, r', out.v, out.log));
      MatchesKept(sc, st, c.r, r');
    }
  }

  lemma AssignGlobalSim(p: Prog, sc: Scope, st: Store, c: Conf, x: string, value: Expr, cs: CS) returns (r': Regs)
    requires AtRest(sc, st, c, cs) && FindLocal(sc, x) < 0 && x != ENV
    requires Placed(p, c.pc, CSingle(sc, Name(x), value, cs))
    ensures Simulates(p, c, c.pc + |CSingle(sc, Name(x), value, cs).code|, ExecSingle(p.o, st, c.log, Name(x), value), sc, r')
  {
    hide Reaches, At, Eval, RegTop, CToReg, CStoreValue, CSetGlobal;
    RestReady(sc, st, c, cs);
    FindAgrees(sc, st.vars, x);
    var f := CSingle(sc, Name(x), value, cs);
    var (k, cs1) := (ConstIndex(cs, Str(x)), AddConst(cs, Str(x)));
    var s := CStoreValue(sc, value, cs1);
    var g := CSetGlobal(sc, x, s.c, s.k, k, s.f.cs);
    PlacedPart(p, c.pc, f, s.f, g.code);
    assert cs1.consts[k] == Str(x) && cs1.consts <= p.consts;
    r' := StoreValueSim(p, sc, st, c, value, cs1);
    var out := Eval(p.o, st, c.log, value);
    if out.Val? {
      var r1 := r';
      var c1 := After(c, c.pc + |s.f.code|, out, r1);
      MatchesKept(sc, st, c.r, r1);
      r' := SetGlobalSim(p, sc, st, c1, x, k, s.c, s.k, s.f.cs);
      EndsTrans(p, c, c1.pc, out, r1, c1.pc + |g.code|, Ask(p.o, c1.log, EvNewIndex(EnvValue(st), Str(x), out.v)), r');
      KeepsTrans(c.r, r1, r', cs.free);
      MatchesKept(sc, st, c.r, r');
    }
  }

  lemma AssignFieldSim(p: Prog, sc: Scope, st: Store, c: Conf, t: Expr, x: string, value: Expr, cs: CS) returns (r': Regs)
    requires AtRest(sc, st, c, cs) && Placed(p, c.pc, CSingle(sc, Field(t, x), value, cs))
    ensures Simulates(p, c, c.pc + |CSingle(sc, Field(t, x), value, cs).code|, ExecSingle(p.o, st, c.log, Field(t, x), value), sc, r')
  {
    hide Reaches, At, Eval, RegTop, CToReg, CStoreValue, CSetField, COperand, Matches, FindLocal, IndexOf, Dense;
    RestReady(sc, st, c, cs);
    var f := CSingle(sc, Field(t, x), value, cs);
    var g := COperand(sc, t, 0, cs);
    var tr := OperandReg(sc, t, cs);
    var s := CStoreValue(sc, value, g.cs);
    var (k, cs1) := (ConstIndex(s.f.cs, Str(x)), AddConst(s.f.cs, Str(x)));
    var h := CSetField(tr, k, s.c, s.k, cs1);
    assert f.code == g.code + (s.f.code + h.code);
    PlacedPart(p, c.pc, f, g, s.f.code + h.code);
    AtSplit(p, c.pc + |g.code|, s.f.code, h.code);
    assert cs1.consts[k] == Str(x) && cs1.consts <= p.consts;
    r' := OperandSim(p, sc, st, c, t, 0, cs);
    var o1 := Eval(p.o, st, c.log, t);
    if o1.Val? {
      var r1 := r';
      var c1 := After(c, c.pc + |g.code|, o1, r1);
      MatchesKept(sc, st, c.r, r1);
      r' := StoreValueSim(p, sc, st, c1, value, g.cs);
      var o2 := Eval(p.o, st, c1.log, value);
      EndsTrans(p, c, c1.pc, o1, r1, c1.pc + |s.f.code|, o2, r');
      if o2.Val? {
        var r2 := r';
        OperandBelow(sc, st, c, t, g.cs, cs, r1, r2);
        var c2 := After(c, c1.pc + |s.f.code|, o2, r2);
        r' := SetFieldSim(p, c2, x, tr, k, s.c, s.k, cs1);
        EndsTrans(p, c, c2.pc, o2, r2, c2.pc + |h.code|, Ask(p.o, c2.log, EvNewIndex(o1.v, Str(x), o2.v)), r');
        KeepsTrans(c.r, r1, r2, cs.free);
        KeepsTrans(c.r, r2, r', cs.free);
        MatchesKept(sc, st, c.r, r');
      }
    }
  }

  /** An operand's register is allocated and keeps its value while more code runs above it. */
  lemma OperandBelow(sc: Scope, st: Store, c: Conf, e: Expr, cs1: CS, cs: CS, r1: Regs, r2: Regs)
    requires Ready(sc, st, c, cs) && KeepsAll(r1, r2, cs1.free)
    requires cs1.free >= cs.free && (PlainLocal(sc, e).None? ==> cs1.free > cs.free)
    ensures OperandReg(sc, e, cs) < cs1.free && Get(r2, OperandReg(sc, e, cs)) == Get(r1, OperandReg(sc, e, cs))
  {
    LeftSurvives(Prog([], [], log => Throw), sc, st, c, e, r1, r2, cs1, OperandReg(sc, e, cs), cs);
    if PlainLocal(sc, e).Some? {
      PlainLocalEval(log => Throw, sc, st, c.r, c.log, e);
    }
  }

  lemma {:induction false} LiteralEval(o: Oracle, st: Store, log: Log, e: Expr)
    requires e.IntE?
    ensures Eval(o, st, log, e) == Val(log, Int(e.n))
  {
  }

  lemma AssignIndexSim(p: Prog, sc: Scope, st: Store, c: Conf, t: Expr, ke: Expr, value: Expr, cs: CS) returns (r': Regs)
    requires AtRest(sc, st, c, cs) && Placed(p, c.pc, CSingle(sc, Index(t, ke), value, cs))
    ensures Simulates(p, c, c.pc + |CSingle(sc, Index(t, ke), value, cs).code|, ExecSingle(p.o, st, c.log, Index(t, ke), value), sc, r')
  {
    hide Reaches, At, RegTop, Eval, CToReg, CSingle, ExecSingle, COperand, Matches, KeepsAll, FindLocal, IndexStoreCode, Grows;
    RestReady(sc, st, c, cs);
    var f := CSingle(sc, Index(t, ke), value, cs);
    var g := COperand(sc, t, 0, cs);
    IndexParts(p, c.pc, sc, t, ke, value, cs);
    IndexMeaning(p.o, st, c.log, t, ke, value);
    r' := OperandSim(p, sc, st, c, t, 0, cs);
    var o1 := Eval(p.o, st, c.log, t);
    if o1.Val? {
      var r1 := r';
      var c1 := After(c, c.pc + |g.code|, o1, r1);
      MatchesKept(sc, st, c.r, r1);
      r' := IndexStoreSim(p, sc, st, c1, ke, value, g.cs, c, t, cs, o1.v);
      SimulatesAfter(p, c, c1, o1, r1, c.pc + |f.code|, ExecSingle(p.o, st, c.log, Index(t, ke), value), sc, r');
    }
  }

  /** The code of t[k] = value: the table operand first. */
  lemma {:induction false} IndexParts(p: Prog, pc: int, sc: Scope, t: Expr, ke: Expr, value: Expr, cs: CS)
    requires Placed(p, pc, CSingle(sc, Index(t, ke), value, cs))
    ensures var f := CSingle(sc, Index(t, ke), value, cs);
            var g := COperand(sc, t, 0, cs);
            var rest := IndexStoreCode(sc, OperandReg(sc, t, cs), ke, value, g.cs);
            && f.code == g.code + rest && Placed(p, pc, g)
            && At(p, pc + |g.code|, rest) && IndexStoreEnd(sc, ke, value, g.cs).consts <= p.consts && IndexStoreEnd(sc, ke, value, g.cs).err == NoError
  {
    hide At, COperand, CStoreValue, FindLocal, IndexOf, OperandReg;
    var f := CSingle(sc, Index(t, ke), value, cs);
    var g := COperand(sc, t, 0, cs);
    var rest := IndexStoreCode(sc, OperandReg(sc, t, cs), ke, value, g.cs);
    IndexSplit(sc, t, ke, value, cs);
    hide CSingle, IndexStoreCode;
    PlacedPart(p, pc, f, g, rest);
  }

  /** And its meaning. */
  lemma {:induction false} IndexMeaning(o: Oracle, st: Store, log: Log, t: Expr, ke: Expr, value: Expr)
    ensures var o1 := Eval(o, st, log, t);
            ExecSingle(o, st, log, Index(t, ke), value) ==
              if o1.Err? then Failed(o1.log)
              else if SmallKey(ke) then StoreValueAt(o, st, o1.log, o1.v, Int(ke.n), value) else StoreUnder(o, st, o1.log, o1.v, ke, value)
  {
    var o1 := Eval(o, st, log, t);
    if o1.Val? && SmallKey(ke) { LiteralEval(o, st, o1.log, ke); }
    hide Eval;
  }

  lemma IndexStoreSim(p: Prog, sc: Scope, st: Store, c: Conf, ke: Expr, value: Expr, cs: CS, c0: Conf, t: Expr, cs0: CS, tv: Value) returns (r': Regs)
    requires Ready(sc, st, c, cs) && Ready(sc, st, c0, cs0) && Get(c.r, OperandReg(sc, t, cs0)) == tv
    requires cs.free >= cs0.free && (PlainLocal(sc, t).None? ==> cs.free > cs0.free)
    requires At(p, c.pc, IndexStoreCode(sc, OperandReg(sc, t, cs0), ke, value, cs))
    requires IndexStoreEnd(sc, ke, value, cs).consts <= p.consts && IndexStoreEnd(sc, ke, value, cs).err == NoError
    ensures Simulates(p, c, c.pc + |IndexStoreCode(sc, OperandReg(sc, t, cs0), ke, value, cs)|,
                      if SmallKey(ke) then StoreValueAt(p.o, st, c.log, tv, Int(ke.n), value) else StoreUnder(p.o, st, c.log, tv, ke, value), sc, r')
  {
    hide Reaches, At, RegTop, Eval, CToReg, CStoreValue, COperand, Matches, KeepsAll, FindLocal, StoreValueAt, StoreUnder, Simulates;
    var tr := OperandReg(sc, t, cs0);
    if SmallKey(ke) {
      var s := CStoreValue(sc, value, cs);
      AtSplit(p, c.pc, s.f.code, [SetI(tr, ke.n, s.c, s.k)]);
      r' := SmallKeySim(p, sc, st, c, tr, tv, ke, value, cs, c0, t, cs0);
    } else {
      r' := KeyedStoreSim(p, sc, st, c, tr, tv, ke, value, cs, c0, t, cs0);
    }
  }

  lemma SimulatesAfter(p: Prog, c: Conf, c1: Conf, o1: Out, r1: Regs, pcEnd: int, res: Res, sc: Scope, r': Regs)
    requires c.Run? && c1.Run? && o1.Val? && Ends(p, c, c1.pc, o1, r1) && c1 == After(c, c1.pc, o1, r1)
    requires Simulates(p, c1, pcEnd, res, sc, r')
    ensures Simulates(p, c, pcEnd, res, sc, r')
  {
    match res
    case Normal(st, log) => ReachesTrans(p, c, c1, Run(pcEnd, r', st.up, log));
    case Failed(log) => ReachesTrans(p, c, c1, Raised(log));
    case _ =>
  }

  /** The store t[k] = value for a literal key, the table already in register tr. */
  lemma SmallKeySim(p: Prog, sc: Scope, st: Store, c: Conf, tr: nat, tv: Value, ke: Expr, value: Expr, cs: CS, c0: Conf, t: Expr, cs0: CS) returns (r': Regs)
    requires SmallKey(ke) && Ready(sc, st, c, cs) && Ready(sc, st, c0, cs0) && tr == OperandReg(sc, t, cs0) && Get(c.r, tr) == tv
    requires cs.free >= cs0.free && (PlainLocal(sc, t).None? ==> cs.free > cs0.free)
    requires var s := CStoreValue(sc, value, cs); Placed(p, c.pc, s.f) && At(p, c.pc + |s.f.code|, [SetI(tr, ke.n, s.c, s.k)])
    ensures Simulates(p, c, c.pc + |CStoreValue(sc, value, cs).f.code| + 1, StoreValueAt(p.o, st, c.log, tv, Int(ke.n), value), sc, r')
  {
    hide Reaches, At, RegTop, Eval, CToReg, CStoreValue, Matches;
    var s := CStoreValue(sc, value, cs);
    r' := StoreValueSim(p, sc, st, c, value, cs);
    var o2 := Eval(p.o, st, c.log, value);
    if o2.Val? {
      OperandBelow(sc, st, c0, t, cs, cs0, c.r, r');
      var c2 := After(c, c.pc + |s.f.code|, o2, r');
      SetIStep(p, c2, tr, ke.n, s.c, s.k);
      EndsTrans(p, c, c2.pc, o2, r', c2.pc + 1, Ask(p.o, c2.log, EvNewIndex(tv, Int(ke.n), o2.v)), r');
      MatchesKept(sc, st, c.r, r');
    }
  }

  /** The value is computed, then stored under a key that is already known. */
  function StoreValueAt(o: Oracle, st: Store, log: Log, tv: Value, kv: Value, value: Expr): Res {
    match Eval(o, st, log, value)
    case Err(l) => Failed(l)
    case Val(l, v) => StoreAt(o, st, l, TablePlace(tv, kv), v)
  }

  /** The key is computed first. */
  function StoreUnder(o: Oracle, st: Store, log: Log, tv: Value, ke: Expr, value: Expr): Res {
    match Eval(o, st, log, ke)
    case Err(l) => Failed(l)
    case Val(l, kv) => StoreValueAt(o, st, l, tv, kv, value)
  }

  lemma KeyedStoreSim(p: Prog, sc: Scope, st: Store, c: Conf, tr: nat, tv: Value, ke: Expr, value: Expr, cs: CS, c0: Conf, t: Expr, cs0: CS) returns (r': Regs)
    requires Ready(sc, st, c, cs) && Ready(sc, st, c0, cs0) && tr == OperandReg(sc, t, cs0) && Get(c.r, tr) == tv
    requires cs.free >= cs0.free && (PlainLocal(sc, t).None? ==> cs.free > cs0.free)
    requires var h := COperand(sc, ke, 0, cs);
             var s := CStoreValue(sc, value, h.cs);
             Placed(p, c.pc, Frag(h.code + s.f.code + [SetTable(tr, OperandReg(sc, ke, cs), s.c, s.k)], s.f.cs))
    ensures var h := COperand(sc, ke, 0, cs);
            var s := CStoreValue(sc, value, h.cs);
            Simulates(p, c, c.pc + |h.code| + |s.f.code| + 1, StoreUnder(p.o, st, c.log, tv, ke, value), sc, r')
  {
    hide Reaches, At, RegTop, Eval, CToReg, CStoreValue, COperand, Matches;
    var h := COperand(sc, ke, 0, cs);
    var kr := OperandReg(sc, ke, cs);
    var s := CStoreValue(sc, value, h.cs);
    var last := [SetTable(tr, kr, s.c, s.k)];
    var f := Frag(h.code + s.f.code + last, s.f.cs);
    assert f.code == h.code + (s.f.code + last);
    PlacedPart(p, c.pc, f, h, s.f.code + last);
    AtSplit(p, c.pc + |h.code|, s.f.code, last);
    r' := OperandSim(p, sc, st, c, ke, 0, cs);
    var o1 := Eval(p.o, st, c.log, ke);
    if o1.Val? {
      var r1 := r';
      var c1 := After(c, c.pc + |h.code|, o1, r1);
      MatchesKept(sc, st, c.r, r1);
      r' := StoreValueSim(p, sc, st, c1, value, h.cs);
      var o2 := Eval(p.o, st, c1.log, value);
      EndsTrans(p, c, c1.pc, o1, r1, c1.pc + |s.f.code|, o2, r');
      if o2.Val? {
        OperandBelow(sc, st, c, ke, h.cs, cs, r1, r');
        KeepsTrans(c.r, r1, r', cs.free);
        OperandBelow(sc, st, c0, t, cs, cs0, c.r, r');
        var c2 := After(c, c1.pc + |s.f.code|, o2, r');
        SetTableStep(p, c2, tr, kr, s.c, s.k);
        EndsTrans(p, c, c2.pc, o2, r', c2.pc + 1, Ask(p.o, c2.log, EvNewIndex(tv, o1.v, o2.v)), r');
        MatchesKept(sc, st, c.r, r');
      }
    }
  }

  /** One target, one value. */
  lemma SingleSim(p: Prog, sc: Scope, st: Store, c: Conf, target: Expr, value: Expr, cs: CS) returns (r': Regs)
    requires AtRest(sc, st, c, cs) && Placed(p, c.pc, CSingle(sc, target, value, cs))
    ensures Simulates(p, c, c.pc + |CSingle(sc, target, value, cs).code|, ExecAssign(p.o, st, c.log, [target], [value]), sc, r')
  {
    hide Reaches, At, RegTop, Eval, CToReg, CStoreValue, COperand, Dense, ExecSingle, ExecAssign;
    SingleIsAssign(p.o, st, c.log, target, value);
    r' := c.r;
    match target
    case Name(x) =>
      if LookupLocal(sc, x).Some? {
        r' := AssignLocalSim(p, sc, st, c, x, value, cs);
      } else if x == ENV {
        r' := AssignUpSim(p, sc, st, c, value, cs);
      } else {
        r' := AssignGlobalSim(p, sc, st, c, x, value, cs);
      }
    case Field(t, x) => r' := AssignFieldSim(p, sc, st, c, t, x, value, cs);
    case Index(t, k) => r' := AssignIndexSim(p, sc, st, c, t, k, value, cs);
    case _ =>
  }
}
