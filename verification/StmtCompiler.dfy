/**
 The statement compiler as the program runs it: scopes pushed and popped, break
 jumps collected in the scope of their loop and patched when it ends, forward
 and backward jumps patched in place. Each method emits what the specification
 says, holes aside.
*/
module StmtCompiler {
  import opened Wrappers
  import opened LuaValues
  import opened LuaSource
  import opened LuaStmts
  import opened Machine
  import opened ExprSpec
  import opened StmtSpec
  import opened ExprCompiler

  // -- code with holes ---------------------------------------------------------------

  /** The instructions emitted for slots: an unpatched break is a jump with offset 0. */
  function Lower(slots: seq<Slot>): (code: seq<Instr>)
    ensures |code| == |slots|
  {
    seq(|slots|, k requires 0 <= k < |slots| => match slots[k] case Op(i) => i case BreakJump => Jmp(0))
  }

  /** Where the unpatched breaks of code placed at base are, in order. */
  function BreakPcs(slots: seq<Slot>, base: nat): (pcs: seq<nat>)
  {
    if slots == [] then []
    else
      var init := BreakPcs(slots[..|slots| - 1], base);
      if slots[|slots| - 1].BreakJump? then init + [base + |slots| - 1] else init
  }

  lemma {:induction false} BreakPcsAre(slots: seq<Slot>, base: nat)
    ensures forall pc | pc in BreakPcs(slots, base) :: base <= pc < base + |slots| && slots[pc - base].BreakJump?
    ensures forall k | 0 <= k < |slots| && slots[k].BreakJump? :: base + k in BreakPcs(slots, base)
  {
    if slots != [] {
      BreakPcsAre(slots[..|slots| - 1], base);
    }
  }

  lemma LowerAppend(a: seq<Slot>, b: seq<Slot>)
    ensures Lower(a + b) == Lower(a) + Lower(b)
  {
  }

  lemma LowerLift(code: seq<Instr>)
    ensures Lower(Lift(code)) == code
  {
  }

  lemma {:induction false} BreakPcsAppend(a: seq<Slot>, b: seq<Slot>, base: nat)
    ensures BreakPcs(a + b, base) == BreakPcs(a, base) + BreakPcs(b, base + |a|)
    decreases |b|
  {
    if b == [] {
      assert a + b == a;
    } else {
      var ab := a + b;
      assert ab[..|ab| - 1] == a + b[..|b| - 1];
      BreakPcsAppend(a, b[..|b| - 1], base);
    }
  }

  lemma {:induction false} BreakPcsNone(slots: seq<Slot>, base: nat)
    requires forall k | 0 <= k < |slots| :: slots[k].Op?
    ensures BreakPcs(slots, base) == []
  {
    if slots != [] {
      BreakPcsNone(slots[..|slots| - 1], base);
    }
  }

  // -- scopes ------------------------------------------------------------------------------

  /** The innermost loop scope, or -1. */
  function LoopIndex(scopes: seq<ScopeInfo>): (i: int)
    ensures -1 <= i < |scopes| && (i >= 0 ==> scopes[i].isLoop)
  {
    if scopes == [] then -1
    else if scopes[|scopes| - 1].isLoop then |scopes| - 1
    else LoopIndex(scopes[..|scopes| - 1])
  }

  function LoopLocals(scopes: seq<ScopeInfo>): Option<nat> {
    var i := LoopIndex(scopes);
    if i >= 0 then Some(scopes[i].nLocals) else None
  }

  /** Breaks are recorded with the innermost loop. */
  function AddBreaks(scopes: seq<ScopeInfo>, pcs: seq<nat>): (s: seq<ScopeInfo>)
    ensures |s| == |scopes|
  {
    var i := LoopIndex(scopes);
    if i >= 0 then scopes[i := scopes[i].(breakJumps := scopes[i].breakJumps + pcs)] else scopes
  }

  lemma {:induction false} LoopIndexUpdate(scopes: seq<ScopeInfo>, i: nat, x: ScopeInfo)
    requires i < |scopes| && x.isLoop == scopes[i].isLoop
    ensures LoopIndex(scopes[i := x]) == LoopIndex(scopes)
  {
    if !scopes[|scopes| - 1].isLoop {
      if i < |scopes| - 1 {
        assert scopes[i := x][..|scopes| - 1] == scopes[..|scopes| - 1][i := x];
        LoopIndexUpdate(scopes[..|scopes| - 1], i, x);
      } else {
        assert scopes[i := x][..|scopes| - 1] == scopes[..|scopes| - 1];
      }
    }
  }

  lemma AddBreaksTwice(scopes: seq<ScopeInfo>, a: seq<nat>, b: seq<nat>)
    ensures AddBreaks(AddBreaks(scopes, a), b) == AddBreaks(scopes, a + b)
    ensures LoopLocals(AddBreaks(scopes, a)) == LoopLocals(scopes)
    ensures AddBreaks(scopes, []) == scopes
  {
    var i := LoopIndex(scopes);
    if i >= 0 {
      var s1 := AddBreaks(scopes, a);
      LoopIndexUpdate(scopes, i, scopes[i].(breakJumps := scopes[i].breakJumps + a));
      assert s1[i].breakJumps + b == scopes[i].breakJumps + (a + b);
      assert scopes[i].breakJumps + [] == scopes[i].breakJumps;
    }
  }

  /** A plain scope on top does not change where breaks are recorded. */
  lemma AddBreaksUnder(scopes: seq<ScopeInfo>, top: ScopeInfo, pcs: seq<nat>)
    requires !top.isLoop
    ensures AddBreaks(scopes + [top], pcs) == AddBreaks(scopes, pcs) + [top]
    ensures LoopLocals(scopes + [top]) == LoopLocals(scopes)
  {
    assert (scopes + [top])[..|scopes|] == scopes;
  }

  lemma AddBreaksLoop(scopes: seq<ScopeInfo>, top: ScopeInfo, pcs: seq<nat>)
    requires top.isLoop && top.breakJumps == []
    ensures AddBreaks(scopes + [top], pcs) == scopes + [top.(breakJumps := pcs)]
    ensures LoopLocals(scopes + [top]) == Some(top.nLocals)
  {
    assert [] + pcs == pcs;
  }

  /** Code whose jumps at pcs have been sent to target. */
  function Patched(code: seq<Instr>, pcs: seq<nat>, target: int): (r: seq<Instr>)
    ensures |r| == |code|
  {
    seq(|code|, k requires 0 <= k < |code| => if k in pcs then Jmp(target - (k + 1)) else code[k])
  }

  /** Patching the breaks of a loop body to the end of the loop resolves them. */
  lemma {:induction false} PatchedIsResolved(pre: seq<Instr>, slots: seq<Slot>)
    ensures var code := pre + Lower(slots);
            var pcs := BreakPcs(slots, |pre|);
            (forall pc | pc in pcs :: pc < |code|) && Patched(code, pcs, |code|) == pre + Lower(ResolveBreaks(slots))
  {
    BreakPcsAre(slots, |pre|);
    hide BreakPcs, Patched, Lower, ResolveBreaks;
    var code := pre + Lower(slots);
    var pcs := BreakPcs(slots, |pre|);
    var r := Patched(code, pcs, |code|);
    var low := Lower(ResolveBreaks(slots));
    forall k | 0 <= k < |code|
      ensures r[k] == (pre + low)[k]
    {
      PatchedAt(code, pcs, |code|, k);
      if k >= |pre| {
        PatchedSlot(pre, slots, k - |pre|);
      }
    }
  }

  lemma PatchedAt(code: seq<Instr>, pcs: seq<nat>, target: int, k: nat)
    requires k < |code|
    ensures Patched(code, pcs, target)[k] == if k in pcs then Jmp(target - (k + 1)) else code[k]
  {
  }

  lemma {:induction false} PatchedSlot(pre: seq<Instr>, slots: seq<Slot>, j: nat)
    requires j < |slots|
    ensures Patched(pre + Lower(slots), BreakPcs(slots, |pre|), |pre + Lower(slots)|)[|pre| + j] == Lower(ResolveBreaks(slots))[j]
  {
    BreakPcsAre(slots, |pre|);
    hide BreakPcs, ResolveBreaks;
    assert (|pre| + j in BreakPcs(slots, |pre|)) == slots[j].BreakJump?;
    assert (pre + Lower(slots))[|pre| + j] == Lower(slots)[j];
  }

  /** Code without breaks leaves the scopes alone. */
  lemma {:induction false} PlainCode(scopes: seq<ScopeInfo>, code: seq<Instr>, base: nat)
    ensures Lower(Lift(code)) == code && AddBreaks(scopes, BreakPcs(Lift(code), base)) == scopes
  {
    LowerLift(code);
    BreakPcsNone(Lift(code), base);
    AddBreaksTwice(scopes, [], []);
  }

  lemma {:induction false} NothingDone(code: seq<Instr>, scopes: seq<ScopeInfo>, f: seq<Slot>)
    ensures code + Lower([]) == code && AddBreaks(scopes, BreakPcs([], |code|)) == scopes && [] + f == f
  {
    AddBreaksTwice(scopes, [], []);
  }

  /** The code and the recorded breaks of one fragment after another are those of both. */
  lemma {:induction false} MoreDone(code: seq<Instr>, scopes: seq<ScopeInfo>, done: seq<Slot>, f: seq<Slot>)
    ensures (code + Lower(done)) + Lower(f) == code + Lower(done + f)
    ensures AddBreaks(AddBreaks(scopes, BreakPcs(done, |code|)), BreakPcs(f, |code + Lower(done)|)) == AddBreaks(scopes, BreakPcs(done + f, |code|))
    ensures LoopLocals(AddBreaks(scopes, BreakPcs(done, |code|))) == LoopLocals(scopes)
  {
    hide BreakPcs, Lower, AddBreaks, LoopLocals;
    LowerAppend(done, f);
    BreakPcsAppend(done, f, |code|);
    AddBreaksTwice(scopes, BreakPcs(done, |code|), BreakPcs(f, |code + Lower(done)|));
    Associative(code, Lower(done), Lower(f));
  }

  /** Only the slots between two runs of plain instructions can be breaks. */
  lemma {:induction false} WrapBreaks(a: seq<Instr>, h: seq<Slot>, b: seq<Instr>, base: nat)
    ensures BreakPcs(Lift(a) + h + Lift(b), base) == BreakPcs(h, base + |a|)
    ensures Lower(Lift(a) + h + Lift(b)) == a + Lower(h) + b
  {
    hide BreakPcs, Lower, Lift;
    BreakPcsAppend(Lift(a) + h, Lift(b), base);
    BreakPcsAppend(Lift(a), h, base);
    BreakPcsNone(Lift(a), base);
    BreakPcsNone(Lift(b), base + |a| + |h|);
    LowerAppend(Lift(a) + h, Lift(b));
    LowerAppend(Lift(a), h);
    LowerLift(a);
    LowerLift(b);
  }

  lemma {:induction false} OneBreak(after: seq<Instr>, base: nat)
    ensures BreakPcs([BreakJump] + Lift(after), base) == [base] && Lower([BreakJump] + Lift(after)) == [Jmp(0)] + after
  {
    hide Lift;
    BreakPcsAppend([BreakJump], Lift(after), base);
    BreakPcsNone(Lift(after), base + 1);
    assert [BreakJump][..0] == [];
    assert BreakPcs([], base) == [];
    LowerAppend([BreakJump], Lift(after));
    LowerLift(after);
  }

  lemma PatchedAfter(code: seq<Instr>, pcs: seq<nat>, x: seq<Instr>, end: int)
    requires forall pc | pc in pcs :: pc < |code|
    ensures Patched(code + x, pcs, end) == Patched(code, pcs, end) + x
  {
  }

  /** One more jump to be patched. */
  lemma PatchedMore(code: seq<Instr>, pcs: seq<nat>, x: seq<Instr>, end: int)
    requires forall pc | pc in pcs :: pc < |code|
    ensures var pc := |code| + |x|;
            Patched(code + x + [Jmp(0)], pcs + [pc], end) == Patched(code, pcs, end) + (x + [Jmp(end - (pc + 1))])
  {
  }

  /** A branch of an if, its exit jump still to be patched, on top of the code before it. */
  lemma ExitBranch(code0: seq<Instr>, exits0: seq<nat>, code: seq<Instr>, exits: seq<nat>,
                   done: seq<Slot>, guard: seq<Instr>, h: seq<Slot>, rest: nat, end: int)
    requires forall pc | pc in exits :: pc < |code|
    requires Patched(code, exits, end) == Patched(code0, exits0, end) + Lower(done)
    requires end == |code| + |guard| + |h| + 1 + rest
    ensures var part := Lift(guard) + h + Lift([Jmp(rest)]);
            Patched(code + (guard + Lower(h)) + [Jmp(0)], exits + [|code| + |guard| + |h|], end) == Patched(code0, exits0, end) + Lower(done + part)
  {
    hide Patched, Lower, Lift;
    var part := Lift(guard) + h + Lift([Jmp(rest)]);
    PatchedMore(code, exits, guard + Lower(h), end);
    WrapBreaks(guard, h, [Jmp(rest)], 0);
    Associative(Patched(code0, exits0, end), Lower(done), Lower(part));
    LowerAppend(done, part);
  }

  lemma ExitBreaks(n: nat, scopes0: seq<ScopeInfo>, done: seq<Slot>, guard: seq<Instr>, h: seq<Slot>, rest: nat)
    ensures var part := Lift(guard) + h + Lift([Jmp(rest)]);
            var scopes := AddBreaks(scopes0, BreakPcs(done + part, n));
            && AddBreaks(AddBreaks(scopes0, BreakPcs(done, n)), BreakPcs(h, n + |done| + |guard|)) == scopes
            && LoopLocals(scopes) == LoopLocals(scopes0)
  {
    hide Lower, BreakPcs, AddBreaks, LoopLocals, Lift;
    var part := Lift(guard) + h + Lift([Jmp(rest)]);
    WrapBreaks(guard, h, [Jmp(rest)], n + |done|);
    BreakPcsAppend(done, part, n);
    AddBreaksTwice(scopes0, BreakPcs(done, n), BreakPcs(part, n + |done|));
    AddBreaksTwice(scopes0, BreakPcs(done + part, n), []);
  }

  /** The one exit jump of a then-block, patched over the branches after it. */
  lemma IfExits(code: seq<Instr>, none: bool, rest: nat, k: seq<Slot>)
    ensures none ==> Patched(code + [], [], |code| + rest) + Lower(k) == code + [] + Lower(k)
    ensures !none ==> Patched(code + [Jmp(0)], [|code|], |code| + 1 + rest) + Lower(k) == code + [Jmp(rest)] + Lower(k)
  {
    hide Lower;
    assert none ==> Patched(code + [], [], |code| + rest) == code;
    assert Patched(code + [Jmp(0)], [|code|], |code| + 1 + rest) == code + [Jmp(rest)];
  }

  lemma {:induction false} IfBreaks(n: nat, scopes0: seq<ScopeInfo>, guard: seq<Instr>, h: seq<Slot>, exit: seq<Instr>, k: seq<Slot>)
    ensures var f := Lift(guard) + h + Lift(exit) + k;
            var scopes1 := AddBreaks(scopes0, BreakPcs(h, n + |guard|));
            && AddBreaks(scopes1, BreakPcs(k, n + |guard| + |h| + |exit|)) == AddBreaks(scopes0, BreakPcs(f, n))
            && LoopLocals(scopes1) == LoopLocals(scopes0)
            && Lower(f) == guard + Lower(h) + exit + Lower(k)
  {
    hide Lower, BreakPcs, AddBreaks, LoopLocals, Lift;
    var part := Lift(guard) + h + Lift(exit);
    WrapBreaks(guard, h, exit, n);
    BreakPcsAppend(part, k, n);
    LowerAppend(part, k);
    AddBreaksTwice(scopes0, BreakPcs(h, n + |guard|), BreakPcs(k, n + |guard| + |h| + |exit|));
  }

  /** The body of a loop between its test and its jump back. */
  lemma {:induction false} LoopCode(code0: seq<Instr>, a: seq<Instr>, h: seq<Slot>, b: seq<Instr>)
    ensures BreakPcs(Lift(a) + h + Lift(b), |code0|) == BreakPcs(h, |code0 + a|)
    ensures code0 + a + Lower(h) + b == code0 + Lower(Lift(a) + h + Lift(b))
    ensures a == [] ==> Lift(a) + h == h && code0 + a == code0
  {
    hide BreakPcs, Lower, Lift;
    WrapBreaks(a, h, b, |code0|);
  }

  lemma ResolveUpdate(slots: seq<Slot>, i: nat, x: Instr)
    requires i < |slots| && slots[i].Op?
    ensures Lower(ResolveBreaks(slots[i := Op(x)])) == Lower(ResolveBreaks(slots))[i := x]
  {
    assert ResolveBreaks(slots[i := Op(x)]) == ResolveBreaks(slots)[i := Op(x)];
  }

  lemma {:induction false} NoBreaksLeft(slots: seq<Slot>, scopes: seq<ScopeInfo>, base: nat)
    ensures AddBreaks(scopes, BreakPcs(ResolveBreaks(slots), base)) == scopes
  {
    BreakPcsNone(ResolveBreaks(slots), base);
    AddBreaksTwice(scopes, [], []);
  }

  lemma UpdateAfter(code0: seq<Instr>, r: seq<Instr>, i: nat, x: Instr)
    requires i < |r|
    ensures (code0 + r)[|code0| + i := x] == code0 + r[i := x]
  {
  }

  /** Patching the exit jump of a while loop after its breaks. */
  lemma ExitPatched(code0: seq<Instr>, g: seq<Instr>, h: seq<Slot>, back: Instr)
    ensures var slots := Lift(g + [Jmp(0)]) + h + Lift([back]);
            var slots' := Lift(g + [Jmp(|h| + 1)]) + h + [Op(back)];
            (code0 + Lower(ResolveBreaks(slots)))[|code0| + |g| := Jmp(|h| + 1)] == code0 + Lower(ResolveBreaks(slots'))
  {
    hide Lower, ResolveBreaks, BreakPcs;
    var slots := Lift(g + [Jmp(0)]) + h + Lift([back]);
    var slots' := Lift(g + [Jmp(|h| + 1)]) + h + [Op(back)];
    assert slots' == slots[|g| := Op(Jmp(|h| + 1))];
    ResolveUpdate(slots, |g|, Jmp(|h| + 1));
    UpdateAfter(code0, Lower(ResolveBreaks(slots)), |g|, Jmp(|h| + 1));
  }

  lemma LiftOne(i: Instr)
    ensures Lift([i]) == [Op(i)]
  {
  }

  predicate Within(pcs: seq<nat>, n: nat) {
    forall pc | pc in pcs :: pc < n
  }

  class Compiler {
    const fs: FuncState

    constructor (fs: FuncState)
      ensures this.fs == fs
    {
      this.fs := fs;
    }

    /**
     The statement's code follows what was there, its breaks unpatched and recorded with the
     innermost loop; the allocator and the active locals are as f says.
    */
    twostate predicate Compiled(f: SFrag)
      reads fs
    {
      && fs.Valid() && fs.exprDepth == 0
      && fs.code == old(fs.code) + Lower(f.code) && fs.State() == f.cs && fs.locals == f.sc
      && fs.scopes == AddBreaks(old(fs.scopes), BreakPcs(f.code, |old(fs.code)|))
    }

    // -- declarations and conditions ---------------------------------------------------------

    /** compileCondJump. */
    method CompileCondJump(cond: Expr, jumpOnFalse: bool)
      requires fs.Valid() && fs.exprDepth == 0
      modifies fs
      ensures fs.Emitted(CCond(fs.locals, cond, jumpOnFalse, old(fs.State())))
      decreases cond
    {
      hide LookupOk, MemoOk, CToReg, CCompareTest, RegTop;
      if cond.Paren? {
        CompileCondJump(cond.inner, jumpOnFalse);
      } else if cond.Un? && cond.uop.Not? {
        CompileCondJump(cond.operand, !jumpOnFalse);
      } else if cond.Bin? && IsComparison(cond.op) {
        fs.CompileComparisonTest(cond, jumpOnFalse);
      } else {
        var inPlace := PlainLocal(fs.locals, cond);
        if inPlace.Some? {
          var _ := fs.EmitInstr(Test(inPlace.value, KFlag(jumpOnFalse)));
        } else {
          var reg := fs.freeReg;
          fs.CompileExprToReg(cond, reg);
          var _ := fs.EmitInstr(Test(reg, KFlag(jumpOnFalse)));
          fs.freeReg := reg;
        }
      }
    }

    /** The initializers of a local declaration. */
    method CompileLocalValues(values: seq<Expr>, n: nat, nNames: nat, base: nat, nReg: nat)
      requires fs.Valid() && fs.exprDepth == 0 && n <= |values|
      modifies fs
      ensures fs.Emitted(CLocalValues(fs.locals, values, n, nNames, base, nReg, old(fs.State())))
    {
      hide LookupOk, MemoOk, CToReg, RegTop;
      ghost var cs0 := fs.State();
      assert fs.code + [] == fs.code;
      for i := 0 to n
        invariant fs.Emitted(CLocalValues(fs.locals, values, i, nNames, base, nReg, cs0))
      {
        ghost var prev := CLocalValues(fs.locals, values, i, nNames, base, nReg, cs0);
        if i < nNames {
          fs.CompileExprToReg(values[i], base + i);
          fs.SetFreeReg(base + i + 1);
        } else {
          fs.CompileExprToReg(values[i], fs.freeReg);
          fs.freeReg := base + nReg;
        }
      }
    }

    /** The code of a local declaration and the registers of its variables. */
    method EmitLocals(names: seq<string>, values: seq<Expr>, n: nat, nReg: nat)
      requires fs.Valid() && fs.exprDepth == 0 && n <= |values|
      modifies fs
      ensures var base := old(fs.freeReg);
              var g := CLocalValues(fs.locals, values, n, |names|, base, nReg, old(fs.State()));
              fs.Emitted(Frag(g.code + NilFill(base, |values|, |names|), CheckVars(CheckLimit(SetFree(g.cs, base + nReg)), base + nReg)))
    {
      hide LookupOk, MemoOk, CLocalValues;
      var base := fs.freeReg;
      CompileLocalValues(values, n, |names|, base, nReg);
      if |values| < |names| {
        var _ := fs.EmitInstr(LoadNil(base + |values|, |names| - |values| - 1));
      }
      fs.SetFreeReg(base + nReg);
      fs.CheckRegLimit();
      if base + nReg > fs.varLim {
        fs.SetError(TooManyLocals);
      }
    }

    /** compileLocalStmt: the values first, then the locals. */
    method CompileLocalStmt(names: seq<string>, consts: seq<bool>, values: seq<Expr>)
      requires fs.Valid() && fs.exprDepth == 0 && |names| > 0
      modifies fs
      ensures Compiled(CLocal(old(fs.locals), names, consts, values, old(fs.State())))
    {
      hide LookupOk, MemoOk, CLocalValues, BreakPcs, AddBreaks, NilFill, InlineLast, TryFoldScalar, NumericValue, FoldIntOp, SetFree, CheckLimit, CheckVars, NewLocals, Lift, Lower, Grows;
      var base := fs.freeReg;
      var inl := InlineLast(names, consts, values);
      var nReg := if inl.Some? then |names| - 1 else |names|;
      var n := if inl.Some? then |values| - 1 else |values|;
      EmitLocals(names, values, n, nReg);
      fs.locals := fs.locals + NewLocals(names, consts, base, inl);
      ghost var g := CLocalValues(old(fs.locals), values, n, |names|, base, nReg, old(fs.State()));
      ghost var cs1 := CheckVars(CheckLimit(SetFree(g.cs, base + nReg)), base + nReg);
      ghost var f := Frag(g.code + NilFill(base, |values|, |names|), cs1);
      assert fs.code == old(fs.code) + f.code;
      PlainCode(fs.scopes, f.code, |old(fs.code)|);
    }

    // -- assignment ------------------------------------------------------------------------

    /** storeValueOperand: a constant of the pool, a live local or a fresh register. */
    method StoreValueOperand(value: Expr) returns (c: nat, k: nat)
      requires fs.Valid() && fs.exprDepth == 0
      modifies fs
      ensures var s := CStoreValue(fs.locals, value, old(fs.State()));
              fs.Emitted(s.f) && c == s.c && k == s.k
    {
      hide LookupOk, MemoOk, CToReg, COperand, OperandReg, NumericValue, IndexOf, RegTop;
      var folded := TryFoldScalar(value);
      if folded.Some? {
        var ki := fs.AddConstant(folded.value);
        if ki <= MAX_ARG_C {
          return ki, 1;
        }
      }
      c := fs.OperandToReg(value);
      k := 0;
    }

    method EmitSetField(tableReg: nat, ki: nat, v: nat, vk: nat)
      requires fs.Valid()
      modifies fs
      ensures fs.Emitted(CSetField(tableReg, ki, v, vk, old(fs.State())))
    {
      hide LookupOk, MemoOk, RegTop;
      if ki <= MAX_ARG_C {
        var _ := fs.EmitInstr(SetField(tableReg, ki, v, vk));
      } else {
        var saved := fs.freeReg;
        var key := fs.ReserveReg();
        fs.LoadConstant(key, ki);
        var _ := fs.EmitInstr(SetTable(tableReg, key, v, vk));
        fs.freeReg := saved;
      }
    }

    method EmitSetTabUp(ki: nat, v: nat, vk: nat)
      requires fs.Valid()
      modifies fs
      ensures fs.Emitted(CSetTabUp(ki, v, vk, old(fs.State())))
    {
      hide LookupOk, MemoOk, RegTop;
      if ki <= MAX_ARG_C {
        var _ := fs.EmitInstr(SetTabUp(0, ki, v, vk));
      } else {
        var saved := fs.freeReg;
        var env := fs.ReserveReg();
        var key := fs.ReserveReg();
        var _ := fs.EmitInstr(GetUpval(env, 0));
        fs.LoadConstant(key, ki);
        var _ := fs.EmitInstr(SetTable(env, key, v, vk));
        fs.freeReg := saved;
      }
    }

    method EmitSetGlobal(x: string, v: nat, vk: nat, ki: nat)
      requires fs.Valid()
      modifies fs
      ensures fs.Emitted(CSetGlobal(fs.locals, x, v, vk, ki, old(fs.State())))
    {
      hide LookupOk, MemoOk, RegTop, CSetField, CSetTabUp;
      var env := LookupLocal(fs.locals, ENV);
      if env.Some? {
        EmitSetField(env.value, ki, v, vk);
      } else {
        EmitSetTabUp(ki, v, vk);
      }
    }

    /** compileSingleAssign. */
    method CompileSingleAssign(target: Expr, value: Expr)
      requires fs.Valid() && fs.exprDepth == 0
      modifies fs
      ensures fs.Emitted(CSingle(fs.locals, target, value, old(fs.State())))
    {
      hide LookupOk, MemoOk, Grows;
      if target.Name? || target.Field? || target.Index? {
        hide CSingle;
        match target
        case Name(x) => CompileNameAssign(x, value);
        case Field(t, x) => CompileFieldAssign(t, x, value);
        case Index(t, key) => CompileIndexAssign(t, key, value);
      } else {
        fs.SetError(InvalidTarget);
      }
    }

    method CompileFieldAssign(t: Expr, x: string, value: Expr)
      requires fs.Valid() && fs.exprDepth == 0
      modifies fs
      ensures fs.Emitted(CSingle(fs.locals, Field(t, x), value, old(fs.State())))
    {
      hide LookupOk, MemoOk, CToReg, COperand, OperandReg, CStoreValue, CSetField, IndexOf, RegTop, Grows;
      var start := fs.freeReg;
      var tableReg := fs.OperandToReg(t);
      var c, k := StoreValueOperand(value);
      var ki := fs.AddConstant(Str(x));
      EmitSetField(tableReg, ki, c, k);
      fs.freeReg := start;
    }

    method CompileNameAssign(x: string, value: Expr)
      requires fs.Valid() && fs.exprDepth == 0
      modifies fs
      ensures fs.Emitted(CSingle(fs.locals, Name(x), value, old(fs.State())))
    {
      hide LookupOk, MemoOk, CToReg, COperand, OperandReg, CStoreValue, CSetField, CSetTabUp, CSetGlobal, IndexOf, RegTop, FindLocal, Grows;
      var loc := LookupLocal(fs.locals, x);
      if IsConstLocal(fs.locals, x) {
        fs.SetError(AssignToConst);
      } else if loc.Some? {
        fs.CompileExprToReg(value, loc.value);
      } else if x == ENV {
        var tmp := fs.ReserveReg();
        fs.CompileExprToReg(value, tmp);
        var _ := fs.EmitInstr(SetUpval(tmp, 0));
        fs.freeReg := tmp;
      } else {
        var ki := fs.AddConstant(Str(x));
        var start := fs.freeReg;
        var c, k := StoreValueOperand(value);
        EmitSetGlobal(x, c, k, ki);
        fs.freeReg := start;
      }
    }

    method CompileIndexAssign(t: Expr, key: Expr, value: Expr)
      requires fs.Valid() && fs.exprDepth == 0
      modifies fs
      ensures fs.Emitted(CSingle(fs.locals, Index(t, key), value, old(fs.State())))
    {
      hide LookupOk, MemoOk, CToReg, COperand, OperandReg, CSingle, IndexStoreCode, IndexStoreEnd, RegTop, IndexOf;
      IndexSplit(fs.locals, t, key, value, fs.State());
      var start := fs.freeReg;
      var tableReg := fs.OperandToReg(t);
      StoreIndexed(tableReg, key, value);
      fs.freeReg := start;
    }

    /** The key unless it is a small literal, the value and the store. */
    method StoreIndexed(tableReg: nat, key: Expr, value: Expr)
      requires fs.Valid() && fs.exprDepth == 0
      modifies fs
      ensures fs.Emitted(Frag(IndexStoreCode(fs.locals, tableReg, key, value, old(fs.State())), IndexStoreEnd(fs.locals, key, value, old(fs.State()))))
    {
      hide LookupOk, MemoOk, CToReg, COperand, OperandReg, CStoreValue, RegTop, IndexOf;
      if SmallKey(key) {
        var c, k := StoreValueOperand(value);
        var _ := fs.EmitInstr(SetI(tableReg, key.n, c, k));
      } else {
        var keyReg := fs.OperandToReg(key);
        var c, k := StoreValueOperand(value);
        var _ := fs.EmitInstr(SetTable(tableReg, keyReg, c, k));
      }
    }

    // -- multiple assignment --------------------------------------------------------------------

    /** indexAssignOperand with the conflict test of a multiple assignment. */
    method TargetOperand(targets: seq<Expr>, i: nat, e: Expr) returns (r: nat)
      requires fs.Valid() && fs.exprDepth == 0
      modifies fs
      ensures r == TargetReg(fs.locals, targets, i, e, old(fs.State()))
      ensures fs.Emitted(CTargetOperand(fs.locals, targets, i, e, old(fs.State())))
    {
      hide LookupOk, MemoOk, CToReg, RegTop, AssignedReg;
      var inPlace := PlainLocal(fs.locals, e);
      var conflict := false;
      if inPlace.Some? {
        var j := i + 1;
        while j < |targets| && !conflict
          invariant i < j
          invariant conflict ==> Conflicts(fs.locals, targets, i, inPlace.value)
          invariant !conflict ==> forall n | i < n < j && n < |targets| :: AssignedReg(fs.locals, targets[n]) != Some(inPlace.value)
        {
          conflict := AssignedReg(fs.locals, targets[j]) == Some(inPlace.value);
          j := j + 1;
        }
      }
      if inPlace.Some? && !conflict {
        r := inPlace.value;
      } else {
        r := fs.ReserveReg();
        fs.CompileExprToReg(e, r);
      }
    }

    /** Does some target spell _ENV? */
    method FindEnvTarget(targets: seq<Expr>) returns (found: bool)
      ensures found == EnvTargeted(targets)
    {
      found := false;
      for i := 0 to |targets|
        invariant found == exists j :: 0 <= j < i && targets[j] == Name(ENV)
      {
        if targets[i] == Name(ENV) {
          found := true;
        }
      }
    }

    /** The operands of the first n targets have been resolved. */
    ghost predicate Resolved(targets: seq<Expr>, n: nat, code0: seq<Instr>, cs0: CS, ops: seq<Operand>, pending: set<nat>)
      requires n <= |targets|
      reads fs
    {
      var ts := CTargets(fs.locals, targets, n, cs0);
      fs.Valid() && fs.exprDepth == 0 && fs.code == code0 + ts.f.code && fs.State() == ts.f.cs && ops == ts.ops && pending == ts.pending
    }

    /** Resolve one more indexed target. */
    method ResolveIndexed(targets: seq<Expr>, i: nat, ops: seq<Operand>, ghost pending: set<nat>, ghost code0: seq<Instr>, ghost cs0: CS) returns (ops': seq<Operand>)
      requires i < |targets| && targets[i].Index? && Resolved(targets, i, code0, cs0, ops, pending)
      modifies fs
      ensures Resolved(targets, i + 1, code0, cs0, ops', pending) && fs.locals == old(fs.locals) && fs.scopes == old(fs.scopes)
    {
      hide LookupOk, MemoOk, CTargetOperand, TargetReg, EnvTargeted, RegTop, Grows;
      var key := targets[i].key;
      var tableReg := TargetOperand(targets, i, targets[i].table);
      if SmallKey(key) {
        ops' := ops + [ByInt(tableReg, key.n)];
      } else {
        var keyReg := TargetOperand(targets, i, key);
        ops' := ops + [ByReg(tableReg, keyReg)];
      }
    }

    method ResolveField(targets: seq<Expr>, i: nat, ops: seq<Operand>, ghost pending: set<nat>, ghost code0: seq<Instr>, ghost cs0: CS) returns (ops': seq<Operand>)
      requires i < |targets| && targets[i].Field? && Resolved(targets, i, code0, cs0, ops, pending)
      modifies fs
      ensures Resolved(targets, i + 1, code0, cs0, ops', pending) && fs.locals == old(fs.locals) && fs.scopes == old(fs.scopes)
    {
      hide LookupOk, MemoOk, CTargetOperand, TargetReg, EnvTargeted, RegTop, Grows, IndexOf;
      var tableReg := TargetOperand(targets, i, targets[i].table);
      var ki := fs.AddConstant(Str(targets[i].field));
      ops' := ops + [ByField(tableReg, ki)];
    }

    /** snapshotEnv: copy the environment into a fresh register. */
    method SnapshotEnv() returns (snap: nat)
      requires fs.Valid()
      modifies fs
      ensures snap == old(fs.freeReg)
      ensures var copy := match LookupLocal(fs.locals, ENV) case Some(env) => Move(snap, env) case None => GetUpval(snap, 0);
              fs.Emitted(Frag([copy], Reserve(old(fs.State()))))
    {
      hide LookupOk, MemoOk, FindLocal;
      snap := fs.ReserveReg();
      var env := LookupLocal(fs.locals, ENV);
      if env.Some? {
        var _ := fs.EmitInstr(Move(snap, env.value));
      } else {
        var _ := fs.EmitInstr(GetUpval(snap, 0));
      }
    }

    /** A name target: a rebound environment is copied first for the globals before it. */
    method ResolveName(targets: seq<Expr>, i: nat, ops: seq<Operand>, pending: set<nat>, ghost code0: seq<Instr>, ghost cs0: CS)
      returns (ops': seq<Operand>, pending': set<nat>)
      requires i < |targets| && targets[i].Name? && EnvTargeted(targets) && Resolved(targets, i, code0, cs0, ops, pending)
      modifies fs
      ensures Resolved(targets, i + 1, code0, cs0, ops', pending') && fs.locals == old(fs.locals) && fs.scopes == old(fs.scopes)
    {
      hide LookupOk, MemoOk, EnvTargeted, RegTop, Grows, IndexOf, FindLocal, CheckLimit, SetFree;
      ops', pending' := ops + [NoOperand], pending;
      if RebindsEnv(fs.locals, targets[i]) {
        if pending != {} {
          var snap := SnapshotEnv();
          ops', pending' := Settle(ops, pending, snap) + [NoOperand], {};
        }
      } else if IsGlobal(fs.locals, targets[i].name) {
        pending' := pending + {i};
      }
    }

    /** The operands of every target, left to right. */
    method CompileTargets(targets: seq<Expr>) returns (ops: seq<Operand>)
      requires fs.Valid() && fs.exprDepth == 0
      modifies fs
      ensures var ts := CTargets(fs.locals, targets, |targets|, old(fs.State()));
              fs.Emitted(ts.f) && ops == ts.ops
    {
      hide LookupOk, MemoOk, EnvTargeted, RegTop, Grows, FindLocal, CTargetOperand, TargetReg, Settle, SmallKey, RebindsEnv, IsGlobal;
      var envTargeted := FindEnvTarget(targets);
      var pending := {};
      ops := [];
      ghost var (code0, cs0) := (fs.code, fs.State());
      assert code0 + [] == code0;
      for i := 0 to |targets|
        invariant Resolved(targets, i, code0, cs0, ops, pending) && fs.locals == old(fs.locals) && fs.scopes == old(fs.scopes)
      {
        match targets[i]
        case Index(_, _) => ops := ResolveIndexed(targets, i, ops, pending, code0, cs0);
        case Field(_, _) => ops := ResolveField(targets, i, ops, pending, code0, cs0);
        case Name(_) =>
          if envTargeted {
            ops, pending := ResolveName(targets, i, ops, pending, code0, cs0);
          } else {
            ops := ops + [NoOperand];
          }
        case _ => ops := ops + [NoOperand];
      }
    }

    /** Every value, each in its own register from valBase on. */
    method CompileValues(values: seq<Expr>, valBase: nat)
      requires fs.Valid() && fs.exprDepth == 0
      modifies fs
      ensures fs.Emitted(CValues(fs.locals, values, |values|, valBase, old(fs.State())))
    {
      hide LookupOk, MemoOk, CToReg, RegTop, Grows;
      ghost var cs0 := fs.State();
      assert fs.code + [] == fs.code;
      for i := 0 to |values|
        invariant fs.Emitted(CValues(fs.locals, values, i, valBase, cs0))
      {
        fs.CompileExprToReg(values[i], valBase + i);
        fs.SetFreeReg(valBase + i + 1);
      }
    }

    /** A value slot without a value is set to nil. */
    method FillNils(valBase: nat, nValues: nat, nTargets: nat)
      requires fs.Valid() && fs.freeReg == valBase + nValues
      modifies fs
      ensures fs.Emitted(Frag(NilEach(valBase, nValues, nTargets),
                              if nValues < nTargets then SetFree(old(fs.State()), valBase + nTargets) else old(fs.State())))
    {
      hide LookupOk, MemoOk;
      ghost var (code0, cs0) := (fs.code, fs.State());
      var i := nValues;
      while i < nTargets
        invariant nValues <= i && (nValues <= nTargets ==> i <= nTargets) && (nTargets < nValues ==> i == nValues)
        invariant fs.Valid() && fs.locals == old(fs.locals) && fs.scopes == old(fs.scopes) && fs.exprDepth == old(fs.exprDepth)
        invariant fs.code + NilEach(valBase, i, nTargets) == code0 + NilEach(valBase, nValues, nTargets)
        invariant fs.State() == if nValues < i then SetFree(cs0, valBase + i) else cs0
      {
        assert fs.code + ([LoadNil(valBase + i, 0)] + NilEach(valBase, i + 1, nTargets)) == (fs.code + [LoadNil(valBase + i, 0)]) + NilEach(valBase, i + 1, nTargets);
        var _ := fs.EmitInstr(LoadNil(valBase + i, 0));
        if valBase + i >= fs.freeReg {
          fs.SetFreeReg(valBase + i + 1);
        }
        i := i + 1;
      }
      assert fs.code + [] == fs.code;
    }

    /** The store of one target. */
    method StoreTarget(target: Expr, op: Operand, v: nat)
      requires fs.Valid() && fs.exprDepth == 0
      modifies fs
      ensures fs.Emitted(CStoreTarget(fs.locals, target, op, v, old(fs.State())))
    {
      hide LookupOk, MemoOk, RegTop, Grows, CSetField;
      match op
      case ByInt(t, n) => var _ := fs.EmitInstr(SetI(t, n, v, 0));
      case ByReg(t, k) => var _ := fs.EmitInstr(SetTable(t, k, v, 0));
      case ByField(t, f) => EmitSetField(t, f, v, 0);
      case _ => AssignToTarget(target, op, v);
    }

    /** assignToTarget. */
    method AssignToTarget(target: Expr, op: Operand, v: nat)
      requires fs.Valid() && fs.exprDepth == 0 && (op.NoOperand? || op.EnvCopy?)
      modifies fs
      ensures fs.Emitted(CStoreTarget(fs.locals, target, op, v, old(fs.State())))
    {
      hide LookupOk, MemoOk, RegTop, Grows, CSetField, CSetGlobal, FindLocal, IndexOf;
      if !target.Name? {
        fs.SetError(InvalidTarget);
        return;
      }
      var x := target.name;
      var loc := LookupLocal(fs.locals, x);
      if IsConstLocal(fs.locals, x) {
        fs.SetError(AssignToConst);
      } else if loc.Some? {
        if loc.value != v {
          var _ := fs.EmitInstr(Move(loc.value, v));
        }
      } else if x == ENV {
        var _ := fs.EmitInstr(SetUpval(v, 0));
      } else {
        var ki := fs.AddConstant(Str(x));
        if op.EnvCopy? {
          EmitSetField(op.t, ki, v, 0);
        } else {
          EmitSetGlobal(x, v, 0, ki);
        }
      }
    }

    /** The stores, right to left. */
    method StoreTargets(targets: seq<Expr>, ops: seq<Operand>, valBase: nat)
      requires fs.Valid() && fs.exprDepth == 0 && |ops| == |targets|
      modifies fs
      ensures fs.Emitted(CStores(fs.locals, targets, ops, |targets|, valBase, old(fs.State())))
    {
      hide LookupOk, MemoOk, RegTop, Grows, CStoreTarget;
      ghost var f := CStores(fs.locals, targets, ops, |targets|, valBase, fs.State());
      var i := |targets|;
      while i > 0
        invariant 0 <= i <= |targets| && fs.Valid() && fs.exprDepth == 0 && fs.locals == old(fs.locals) && fs.scopes == old(fs.scopes)
        invariant Then(Frag(fs.code, fs.State()), CStores(fs.locals, targets, ops, i, valBase, fs.State())) == Frag(old(fs.code) + f.code, f.cs)
      {
        ghost var g := CStoreTarget(fs.locals, targets[i - 1], ops[i - 1], valBase + i - 1, fs.State());
        Associative(fs.code, g.code, CStores(fs.locals, targets, ops, i - 1, valBase, g.cs).code);
        StoreTarget(targets[i - 1], ops[i - 1], valBase + i - 1);
        i := i - 1;
      }
      assert fs.code + [] == fs.code;
    }

    /** compileAssignStmt. */
    method CompileAssign(targets: seq<Expr>, values: seq<Expr>)
      requires fs.Valid() && fs.exprDepth == 0 && |targets| > 0 && |values| > 0
      modifies fs
      ensures fs.Emitted(CAssign(fs.locals, targets, values, old(fs.State())))
    {
      hide LookupOk, MemoOk, CSingle, CMulti;
      if |targets| == 1 && |values| == 1 {
        CompileSingleAssign(targets[0], values[0]);
      } else {
        CompileMultiAssign(targets, values);
      }
    }

    lemma {:induction false} ValuesFree(sc: Scope, values: seq<Expr>, n: nat, valBase: nat, cs: CS)
      requires n <= |values| && cs.free == valBase
      ensures CValues(sc, values, n, valBase, cs).cs.free == valBase + n
    {
    }

    /** checkRegsAt. */
    method CheckRegsUpTo(top: nat)
      modifies fs`maxReg, fs`err
      ensures fs.State() == CheckRegsAt(old(fs.State()), top)
    {
      if top > fs.maxReg {
        fs.maxReg := top;
      }
      if top > fs.lim {
        fs.SetError(TooManyRegisters);
      }
    }

    /** One register per target: the values, then nils. */
    method FillValues(values: seq<Expr>, nTargets: nat, valBase: nat)
      requires fs.Valid() && fs.exprDepth == 0 && fs.freeReg == valBase
      modifies fs
      ensures var vs := CValues(fs.locals, values, |values|, valBase, CheckRegsAt(old(fs.State()), valBase + nTargets));
              fs.Emitted(Frag(vs.code + NilEach(valBase, |values|, nTargets),
                              if |values| < nTargets then SetFree(vs.cs, valBase + nTargets) else vs.cs))
    {
      hide LookupOk, MemoOk, RegTop, Grows, CValues, NilEach, SetFree;
      CheckRegsUpTo(valBase + nTargets);
      ValuesFree(fs.locals, values, |values|, valBase, fs.State());
      CompileValues(values, valBase);
      FillNils(valBase, |values|, nTargets);
    }

    method CompileMultiAssign(targets: seq<Expr>, values: seq<Expr>)
      requires fs.Valid() && fs.exprDepth == 0
      modifies fs
      ensures fs.Emitted(CMulti(fs.locals, targets, values, old(fs.State())))
    {
      hide LookupOk, MemoOk, RegTop, Grows, CTargets, CValues, CStores, NilEach, CheckRegsAt, SetFree;
      var tempBase := fs.freeReg;
      var ops := CompileTargets(targets);
      var valBase := fs.freeReg;
      FillValues(values, |targets|, valBase);
      StoreTargets(targets, ops, valBase);
      fs.freeReg := tempBase;
    }

    // -- scopes and jumps --------------------------------------------------------------------------

    method EnterScope(isLoop: bool)
      modifies fs`scopes
      ensures fs.scopes == old(fs.scopes) + [ScopeInfo(|fs.locals|, RegTop(fs.locals), isLoop, [])]
    {
      fs.scopes := fs.scopes + [ScopeInfo(|fs.locals|, RegTop(fs.locals), isLoop, [])];
    }

    /** Send every jump of the list to the next instruction. */
    method PatchAll(pcs: seq<nat>)
      requires Within(pcs, |fs.code|)
      modifies fs`code
      ensures fs.code == Patched(old(fs.code), pcs, |old(fs.code)|)
    {
      for i := 0 to |pcs|
        invariant |fs.code| == |old(fs.code)|
        invariant fs.code == Patched(old(fs.code), pcs[..i], |old(fs.code)|)
      {
        assert pcs[..i + 1] == pcs[..i] + [pcs[i]];
        assert pcs[i] in pcs;
        fs.PatchJump(pcs[i]);
      }
      assert pcs[..|pcs|] == pcs;
    }

    /** leaveScope: drop the scope's locals, free their registers and patch its breaks. */
    method LeaveScope()
      requires fs.Valid() && fs.scopes != [] && fs.scopes[|fs.scopes| - 1].nLocals <= |fs.locals|
      requires Within(fs.scopes[|fs.scopes| - 1].breakJumps, |fs.code|)
      modifies fs
      ensures var top := old(fs.scopes[|fs.scopes| - 1]);
              && fs.Valid() && fs.exprDepth == old(fs.exprDepth)
              && fs.scopes == old(fs.scopes)[..|old(fs.scopes)| - 1]
              && fs.locals == old(fs.locals)[..top.nLocals]
              && fs.State() == old(fs.State()).(free := RegTop(fs.locals))
              && fs.code == Patched(old(fs.code), top.breakJumps, |old(fs.code)|)
    {
      hide LookupOk, MemoOk, RegTop;
      var top := fs.scopes[|fs.scopes| - 1];
      fs.scopes := fs.scopes[..|fs.scopes| - 1];
      fs.locals := fs.locals[..top.nLocals];
      fs.freeReg := RegTop(fs.locals);
      PatchAll(top.breakJumps);
    }

    // -- blocks ---------------------------------------------------------------------------------------

    /** compileBlock: one statement after the other, up to the first error. */
    method CompileBlock(b: Block)
      requires fs.Valid() && fs.exprDepth == 0 && Parsed(b)
      modifies fs
      ensures Compiled(CBlock(old(fs.locals), b, LoopLocals(old(fs.scopes)), old(fs.State())))
      decreases b, 0
    {
      hide LookupOk, MemoOk, CStmt, Lower, BreakPcs, LoopLocals, AddBreaks, Grows, RegTop;
      ghost var (code0, scopes0, ln) := (fs.code, fs.scopes, LoopLocals(fs.scopes));
      ghost var f := CBlock(fs.locals, b, ln, fs.State());
      ghost var done: seq<Slot> := [];
      var cur := b;
      NothingDone(code0, scopes0, f.code);
      while cur.BCons? && fs.err == NoError
        invariant Parsed(cur) && fs.Valid() && fs.exprDepth == 0
        invariant cur == b || (b decreases to cur)
        invariant LoopLocals(fs.scopes) == ln
        invariant SoFar(done, code0, scopes0)
        invariant var g := CBlock(fs.locals, cur, ln, fs.State()); done + g.code == f.code && g.sc == f.sc && g.cs == f.cs
        decreases cur
      {
        ghost var g := CStmt(fs.locals, cur.s, ln, fs.State());
        ghost var h := CBlock(g.sc, cur.rest, ln, g.cs.(free := RegTop(g.sc)));
        CompileStmt(cur.s);
        fs.freeReg := RegTop(fs.locals);
        MoreDone(code0, scopes0, done, g.code);
        MoreDone(code0, scopes0, done + g.code, []);
        assert done + (g.code + h.code) == (done + g.code) + h.code;
        done := done + g.code;
        cur := cur.rest;
      }
      assert done + [] == done;
    }

    /** Code for `done` has been added to code0. */
    ghost predicate SoFar(done: seq<Slot>, code0: seq<Instr>, scopes0: seq<ScopeInfo>)
      reads fs
    {
      fs.code == code0 + Lower(done) && fs.scopes == AddBreaks(scopes0, BreakPcs(done, |code0|))
    }

    method CompileStmt(s: Stmt)
      requires fs.Valid() && fs.exprDepth == 0 && ParsedStmt(s)
      modifies fs
      ensures Compiled(CStmt(old(fs.locals), s, LoopLocals(old(fs.scopes)), old(fs.State())))
      decreases s, 2
    {
      hide LookupOk, MemoOk, Lower, BreakPcs, LoopLocals, AddBreaks, Grows, RegTop, CLocal, CAssign, CScope, CIf, CBlock, CCond, ResolveBreaks;
      match s
      case Local(names, consts, values) => CompileLocalStmt(names, consts, values);
      case Assign(targets, values) =>
        CompileAssign(targets, values);
        PlainCode(fs.scopes, CAssign(old(fs.locals), targets, values, old(fs.State())).code, |old(fs.code)|);
      case Do(body) => CompileScope(body);
      case Empty => NothingDone(fs.code, fs.scopes, []);
      case Break => CompileBreak();
      case If(_, _, _) => CompileIf(s);
      case While(_, _) => CompileWhile(s);
      case Repeat(_, _) => CompileRepeat(s);
    }

    /** A block in a scope of its own. */
    method CompileScope(b: Block)
      requires fs.Valid() && fs.exprDepth == 0 && Parsed(b)
      modifies fs
      ensures Compiled(CScope(old(fs.locals), b, LoopLocals(old(fs.scopes)), old(fs.State())))
      decreases b, 1
    {
      hide LookupOk, MemoOk, CBlock, Lower, BreakPcs, LoopLocals, AddBreaks, Grows, RegTop;
      ghost var (scopes0, sc, cs0, ln) := (fs.scopes, fs.locals, fs.State(), LoopLocals(fs.scopes));
      ghost var top := ScopeInfo(|sc|, RegTop(sc), false, []);
      ghost var pcs := BreakPcs(CBlock(sc, b, ln, cs0).code, |fs.code|);
      AddBreaksUnder(scopes0, top, pcs);
      EnterScope(false);
      CompileBlock(b);
      assert fs.scopes == AddBreaks(scopes0, pcs) + [top];
      ghost var code1 := fs.code;
      LeaveScope();
      assert Patched(code1, [], |code1|) == code1;
      assert fs.locals == sc;
    }

    /** compileBreakStmt: a jump for the loop to patch, and a dead OP_CLOSE when it leaves a variable's scope. */
    method CompileBreak()
      requires fs.Valid() && fs.exprDepth == 0
      modifies fs
      ensures Compiled(CStmt(old(fs.locals), Break, LoopLocals(old(fs.scopes)), old(fs.State())))
    {
      hide LookupOk, MemoOk, RegTop, LoopIndex, Lower, BreakPcs, CStmt, Grows;
      var i := LoopIndex(fs.scopes);
      BreakStmt(fs.locals, LoopLocals(fs.scopes), fs.State());
      if i < 0 {
        NothingDone(fs.code, fs.scopes, []);
        fs.SetError(BreakOutsideLoop);
      } else {
        var after := if |fs.locals| > fs.scopes[i].nLocals then [Close(RegTop(fs.locals))] else [];
        var jpc := fs.EmitInstr(Jmp(0));
        fs.code := fs.code + after;
        fs.scopes := fs.scopes[i := fs.scopes[i].(breakJumps := fs.scopes[i].breakJumps + [jpc])];
        OneBreak(after, jpc);
        Associative(old(fs.code), [Jmp(0)], after);
      }
    }

    lemma {:induction false} BreakStmt(sc: Scope, ln: Option<nat>, cs: CS)
      ensures CStmt(sc, Break, ln, cs) == if ln.None? then SFrag([], sc, Fail(cs, BreakOutsideLoop))
                                          else SFrag([BreakJump] + Lift(if |sc| > ln.value then [Close(RegTop(sc))] else []), sc, cs)
    {
      assert Lift([]) == [] && Lift([Close(RegTop(sc))]) == [Op(Close(RegTop(sc)))];
    }

    // -- if ---------------------------------------------------------------------------------------------

    /** One elseif branch: its guard, its block and the jump to the end, returned unpatched. */
    method CompileElseIf(cond: Expr, body: Block, exits: seq<nat>) returns (exits': seq<nat>)
      requires fs.Valid() && fs.exprDepth == 0 && Parsed(body)
      modifies fs
      ensures var ln := LoopLocals(old(fs.scopes));
              var g := CCond(fs.locals, cond, false, old(fs.State()));
              var h := CScope(fs.locals, body, ln, g.cs);
              && fs.Valid() && fs.exprDepth == 0 && fs.locals == old(fs.locals) && fs.State() == h.cs
              && fs.code == old(fs.code) + (g.code + [Jmp(|h.code| + 1)] + Lower(h.code)) + [Jmp(0)]
              && exits' == exits + [|old(fs.code)| + |g.code| + 1 + |h.code|]
              && fs.scopes == AddBreaks(old(fs.scopes), BreakPcs(h.code, |old(fs.code)| + |g.code| + 1))
      decreases body, 2
    {
      hide LookupOk, MemoOk, CCond, CScope, Lower, BreakPcs, LoopLocals, AddBreaks, Grows, RegTop;
      CompileCondJump(cond, false);
      var elifJump := fs.EmitInstr(Jmp(0));
      CompileScope(body);
      var end := fs.EmitInstr(Jmp(0));
      exits' := exits + [end];
      fs.PatchJump(elifJump);
    }

    /** The branches after the then-block; the jumps in exits still have to be sent to the end. */
    method CompileTail(t: Tail, exits: seq<nat>) returns (exits': seq<nat>)
      requires fs.Valid() && fs.exprDepth == 0 && ParsedTail(t) && forall pc | pc in exits :: pc < |fs.code|
      modifies fs
      ensures var k := CTail(fs.locals, t, LoopLocals(old(fs.scopes)), old(fs.State()));
              && fs.Valid() && fs.exprDepth == 0 && fs.locals == old(fs.locals) && fs.State() == k.cs
              && fs.scopes == AddBreaks(old(fs.scopes), BreakPcs(k.code, |old(fs.code)|))
              && (forall pc | pc in exits' :: pc < |fs.code|) && |fs.code| == |old(fs.code)| + |k.code|
              && Patched(fs.code, exits', |fs.code|) == Patched(old(fs.code), exits, |fs.code|) + Lower(k.code)
      decreases t, 0
    {
      hide LookupOk, MemoOk, CCond, CScope, Lower, BreakPcs, LoopLocals, AddBreaks, Grows, RegTop, Patched, Lift;
      ghost var (code0, scopes0, ln) := (fs.code, fs.scopes, LoopLocals(fs.scopes));
      ghost var k0 := CTail(fs.locals, t, ln, fs.State());
      ghost var end := |code0| + |k0.code|;
      ghost var done: seq<Slot> := [];
      exits' := exits;
      var cur := t;
      NothingDone(code0, scopes0, k0.code);
      assert Patched(code0, exits, end) + Lower([]) == Patched(code0, exits, end);
      while cur.ElseIf?
        invariant ParsedTail(cur) && fs.Valid() && fs.exprDepth == 0 && fs.locals == old(fs.locals)
        invariant cur == t || (t decreases to cur)
        invariant LoopLocals(fs.scopes) == ln && fs.scopes == AddBreaks(scopes0, BreakPcs(done, |code0|))
        invariant |fs.code| == |code0| + |done| && forall pc | pc in exits' :: pc < |fs.code|
        invariant Patched(fs.code, exits', end) == Patched(code0, exits, end) + Lower(done)
        invariant var k := CTail(fs.locals, cur, ln, fs.State()); done + k.code == k0.code && k.cs == k0.cs
        decreases cur
      {
        ghost var g := CCond(fs.locals, cur.cond, false, fs.State());
        ghost var h := CScope(fs.locals, cur.body, ln, g.cs);
        ghost var k := CTail(fs.locals, cur.rest, ln, h.cs);
        ghost var (code1, exits1) := (fs.code, exits');
        exits' := CompileElseIf(cur.cond, cur.body, exits');
        ghost var part := Lift(g.code + [Jmp(|h.code| + 1)]) + h.code + Lift([Jmp(|k.code|)]);
        assert done + (part + k.code) == (done + part) + k.code;
        ExitBranch(code0, exits, code1, exits1, done, g.code + [Jmp(|h.code| + 1)], h.code, |k.code|, end);
        ExitBreaks(|code0|, scopes0, done, g.code + [Jmp(|h.code| + 1)], h.code, |k.code|);
        done := done + part;
        cur := cur.rest;
      }
      ghost var k := CTail(fs.locals, cur, ln, fs.State());
      MoreDone(code0, scopes0, done, k.code);
      Associative(Patched(code0, exits, end), Lower(done), Lower(k.code));
      LowerAppend(done, k.code);
      if cur.Else? {
        PatchedAfter(fs.code, exits', Lower(k.code), end);
        CompileScope(cur.body);
      } else {
        assert done + [] == done;
      }
    }

    /** The guard of a then-block and the jump over it, left unpatched. */
    method CompileGuard(cond: Expr) returns (thenJump: Option<nat>)
      requires fs.Valid() && fs.exprDepth == 0
      modifies fs
      ensures var g := CGuard(fs.locals, cond, 0, old(fs.State()));
              && fs.Emitted(g)
              && thenJump == (if g.code == [] then None else Some(|old(fs.code)| + |g.code| - 1))
    {
      hide LookupOk, MemoOk, CCond, RegTop, Grows;
      thenJump := None;
      if !IsConstTrue(cond) {
        if !IsConstFalsy(cond) {
          CompileCondJump(cond, false);
        }
        var jmp := fs.EmitInstr(Jmp(0));
        thenJump := Some(jmp);
      }
    }

    lemma GuardPatched(code: seq<Instr>, rest: seq<Instr>, sc: Scope, cond: Expr, skip: nat, cs: CS)
      ensures var g := CGuard(sc, cond, 0, cs);
              var g' := CGuard(sc, cond, skip, cs);
              && g'.cs == g.cs && |g'.code| == |g.code|
              && (g.code == [] ==> g'.code == [])
              && (g.code != [] ==> (code + g.code + rest)[|code| + |g.code| - 1 := Jmp(skip)] == code + g'.code + rest)
    {
      hide CCond;
    }

    /** The then-block of an if, and the jump past the other branches when there are any. */
    method CompileThen(s: Stmt) returns (exits: seq<nat>)
      requires s.If? && ParsedStmt(s) && fs.Valid() && fs.exprDepth == 0
      modifies fs
      ensures var h := CScope(fs.locals, s.thn, LoopLocals(old(fs.scopes)), CGuard(fs.locals, s.cond, 0, old(fs.State())).cs);
              var exit := if s.tail.NoElse? then [] else [Jmp(0)];
              var g := CGuard(fs.locals, s.cond, |h.code| + |exit|, old(fs.State()));
              && fs.Valid() && fs.exprDepth == 0 && fs.locals == old(fs.locals) && fs.State() == h.cs
              && fs.code == old(fs.code) + g.code + (Lower(h.code) + exit)
              && exits == (if s.tail.NoElse? then [] else [|old(fs.code)| + |g.code| + |h.code|])
              && fs.scopes == AddBreaks(old(fs.scopes), BreakPcs(h.code, |old(fs.code)| + |g.code|))
      decreases s, 0
    {
      hide LookupOk, MemoOk, CGuard, CScope, Lower, BreakPcs, LoopLocals, AddBreaks, Grows, RegTop;
      ghost var (code0, sc, cs0) := (fs.code, fs.locals, fs.State());
      var thenJump := CompileGuard(s.cond);
      ghost var h := CScope(sc, s.thn, LoopLocals(fs.scopes), fs.State());
      CompileScope(s.thn);
      exits := [];
      if !s.tail.NoElse? {
        var exit := fs.EmitInstr(Jmp(0));
        exits := [exit];
      }
      ghost var exit := if s.tail.NoElse? then [] else [Jmp(0)];
      GuardPatched(code0, Lower(h.code) + exit, sc, s.cond, |h.code| + |exit|, cs0);
      assert fs.code == code0 + CGuard(sc, s.cond, 0, cs0).code + (Lower(h.code) + exit);
      if thenJump.Some? {
        fs.PatchJump(thenJump.value);
      }
    }

    /** compileIfStmt. */
    method CompileIf(s: Stmt)
      requires s.If? && ParsedStmt(s) && fs.Valid() && fs.exprDepth == 0
      modifies fs
      ensures Compiled(CIf(old(fs.locals), s, LoopLocals(old(fs.scopes)), old(fs.State())))
      decreases s, 1
    {
      hide LookupOk, MemoOk, CGuard, CScope, CTail, Lower, BreakPcs, LoopLocals, AddBreaks, Grows, RegTop, Patched, Lift;
      ghost var (code0, scopes0, sc, cs0, ln) := (fs.code, fs.scopes, fs.locals, fs.State(), LoopLocals(fs.scopes));
      var exits := CompileThen(s);
      ghost var h := CScope(sc, s.thn, ln, CGuard(sc, s.cond, 0, cs0).cs);
      ghost var g := CGuard(sc, s.cond, |h.code| + if s.tail.NoElse? then 0 else 1, cs0);
      ghost var k := CTail(sc, s.tail, ln, h.cs);
      IfBreaks(|code0|, scopes0, g.code, h.code, if s.tail.NoElse? then [] else [Jmp(|k.code|)], k.code);
      IfExits(code0 + g.code + Lower(h.code), s.tail.NoElse?, |k.code|, k.code);
      Associative(code0 + g.code, Lower(h.code), if s.tail.NoElse? then [] else [Jmp(0)]);
      var exits' := CompileTail(s.tail, exits);
      PatchAll(exits');
    }

    // -- loops -----------------------------------------------------------------------------------------

    /** The jump back to target that ends a loop. */
    method JumpBack(target: nat)
      modifies fs`code
      ensures fs.code == old(fs.code) + [Jmp(target - (|old(fs.code)| + 1))]
    {
      var jpc := fs.EmitInstr(Jmp(0));
      var offset := target - |fs.code|;
      fs.code := fs.code[jpc := Jmp(offset)];
    }

    /** Leave the scope of a loop whose code, so far, is slots: its breaks go to the end. */
    method LeaveLoop(ghost code0: seq<Instr>, ghost slots: seq<Slot>, ghost scopes0: seq<ScopeInfo>, ghost sc: Scope)
      requires fs.Valid() && fs.exprDepth == 0 && fs.code == code0 + Lower(slots) && sc <= fs.locals
      requires fs.scopes == scopes0 + [ScopeInfo(|sc|, RegTop(sc), true, BreakPcs(slots, |code0|))]
      modifies fs
      ensures fs.Valid() && fs.exprDepth == 0 && fs.code == code0 + Lower(ResolveBreaks(slots)) && fs.locals == sc
      ensures fs.scopes == scopes0 && fs.State() == old(fs.State()).(free := RegTop(sc))
      ensures AddBreaks(scopes0, BreakPcs(ResolveBreaks(slots), |code0|)) == scopes0
    {
      hide LookupOk, MemoOk, Lower, BreakPcs, AddBreaks, Grows, RegTop, Patched, ResolveBreaks;
      PatchedIsResolved(code0, slots);
      LeaveScope();
      BreakPcsNone(ResolveBreaks(slots), |code0|);
      AddBreaksTwice(scopes0, [], []);
    }

    /** The body of a loop in the loop's scope. */
    method LoopBody(body: Block, ghost sc: Scope, ghost scopes0: seq<ScopeInfo>)
      requires fs.Valid() && fs.exprDepth == 0 && Parsed(body) && fs.locals == sc
      requires fs.scopes == scopes0 + [ScopeInfo(|sc|, RegTop(sc), true, [])]
      modifies fs
      ensures var h := CBlock(sc, body, Some(|sc|), old(fs.State()));
              && fs.Valid() && fs.exprDepth == 0 && fs.locals == h.sc && fs.State() == h.cs
              && fs.code == old(fs.code) + Lower(h.code)
              && fs.scopes == scopes0 + [ScopeInfo(|sc|, RegTop(sc), true, BreakPcs(h.code, |old(fs.code)|))]
      decreases body, 1
    {
      hide LookupOk, MemoOk, Lower, BreakPcs, AddBreaks, LoopLocals, Grows, RegTop, CBlock;
      AddBreaksLoop(scopes0, ScopeInfo(|sc|, RegTop(sc), true, []), BreakPcs(CBlock(sc, body, Some(|sc|), fs.State()).code, |fs.code|));
      CompileBlock(body);
    }

    lemma {:induction false} ForeverStmt(sc: Scope, s: Stmt, ln: Option<nat>, cs: CS)
      requires s.While? && IsConstTrue(s.cond) && ParsedStmt(s)
      ensures var h := CBlock(sc, s.body, Some(|sc|), cs);
              CStmt(sc, s, ln, cs) == SFrag(ResolveBreaks(h.code + Lift([Jmp(-(|h.code| + 1))])), sc, h.cs.(free := RegTop(sc)))
    {
      LiftOne(Jmp(-(|CBlock(sc, s.body, Some(|sc|), cs).code| + 1)));
    }

    lemma {:induction false} WhileStmt(sc: Scope, s: Stmt, ln: Option<nat>, cs: CS)
      requires s.While? && !IsConstTrue(s.cond) && ParsedStmt(s)
      ensures var g := CCond(sc, s.cond, false, cs);
              var h := CBlock(sc, s.body, Some(|sc|), g.cs);
              CStmt(sc, s, ln, cs) == SFrag(ResolveBreaks(Lift(g.code + [Jmp(|h.code| + 1)]) + h.code + [Op(Jmp(-(|g.code| + |h.code| + 2)))]),
                                            sc, h.cs.(free := RegTop(sc)))
    {
      hide CCond, CBlock, ResolveBreaks, Lift;
    }

    lemma {:induction false} RepeatStmt(sc: Scope, s: Stmt, ln: Option<nat>, cs: CS)
      requires s.Repeat? && ParsedStmt(s)
      ensures var h := CBlock(sc, s.body, Some(|sc|), cs);
              var g := CCond(h.sc, s.cond, false, h.cs);
              var (code, cs') := if IsConstTrue(s.cond) then (h.code, h.cs)
                else if IsConstFalsy(s.cond) then (h.code + Lift([Jmp(-(|h.code| + 1))]), h.cs)
                else (h.code + Lift(g.code + [Jmp(-(|h.code| + |g.code| + 1))]), g.cs);
              CStmt(sc, s, ln, cs) == SFrag(ResolveBreaks(code), sc, cs'.(free := RegTop(sc)))
    {
      hide CCond, CBlock, ResolveBreaks;
      LiftOne(Jmp(-(|CBlock(sc, s.body, Some(|sc|), cs).code| + 1)));
    }

    /** `while true`: no test. */
    method CompileForever(s: Stmt)
      requires s.While? && IsConstTrue(s.cond) && ParsedStmt(s) && fs.Valid() && fs.exprDepth == 0
      modifies fs
      ensures Compiled(CStmt(old(fs.locals), s, LoopLocals(old(fs.scopes)), old(fs.State())))
      decreases s, 0
    {
      hide LookupOk, MemoOk, Lower, BreakPcs, AddBreaks, LoopLocals, Grows, RegTop, CBlock, CCond, ResolveBreaks, Lift, CStmt;
      ghost var (code0, scopes0, sc) := (fs.code, fs.scopes, fs.locals);
      ghost var h := CBlock(sc, s.body, Some(|sc|), fs.State());
      ForeverStmt(sc, s, LoopLocals(fs.scopes), fs.State());
      var loopStart := |fs.code|;
      EnterScope(true);
      LoopBody(s.body, sc, scopes0);
      JumpBack(loopStart);
      LoopCode(code0, [], h.code, [Jmp(-(|h.code| + 1))]);
      LeaveLoop(code0, h.code + Lift([Jmp(-(|h.code| + 1))]), scopes0, sc);
    }

    /** compileWhileStmt. */
    method CompileWhile(s: Stmt)
      requires s.While? && ParsedStmt(s) && fs.Valid() && fs.exprDepth == 0
      modifies fs
      ensures Compiled(CStmt(old(fs.locals), s, LoopLocals(old(fs.scopes)), old(fs.State())))
      decreases s, 1
    {
      hide LookupOk, MemoOk, Lower, BreakPcs, AddBreaks, LoopLocals, Grows, RegTop, CBlock, CCond, ResolveBreaks, Lift, CStmt;
      if IsConstTrue(s.cond) {
        CompileForever(s);
        return;
      }
      ghost var (code0, scopes0, sc) := (fs.code, fs.scopes, fs.locals);
      ghost var g := CCond(sc, s.cond, false, fs.State());
      ghost var h := CBlock(sc, s.body, Some(|sc|), g.cs);
      WhileStmt(sc, s, LoopLocals(fs.scopes), fs.State());
      var loopStart := |fs.code|;
      EnterScope(true);
      CompileCondJump(s.cond, false);
      var exitJump := fs.EmitInstr(Jmp(0));
      LoopBody(s.body, sc, scopes0);
      JumpBack(loopStart);
      ghost var back := Jmp(-(|g.code| + |h.code| + 2));
      LoopCode(code0, g.code + [Jmp(0)], h.code, [back]);
      LeaveLoop(code0, Lift(g.code + [Jmp(0)]) + h.code + Lift([back]), scopes0, sc);
      ExitPatched(code0, g.code, h.code, back);
      NoBreaksLeft(Lift(g.code + [Jmp(|h.code| + 1)]) + h.code + [Op(back)], scopes0, |code0|);
      fs.PatchJump(exitJump);
    }

    /** compileRepeatStmt: the condition is compiled inside the body's scope. */
    method CompileRepeat(s: Stmt)
      requires s.Repeat? && ParsedStmt(s) && fs.Valid() && fs.exprDepth == 0
      modifies fs
      ensures Compiled(CStmt(old(fs.locals), s, LoopLocals(old(fs.scopes)), old(fs.State())))
      decreases s, 0
    {
      hide LookupOk, MemoOk, Lower, BreakPcs, AddBreaks, LoopLocals, Grows, RegTop, CBlock, CCond, ResolveBreaks, Lift, CStmt;
      ghost var (code0, scopes0, sc) := (fs.code, fs.scopes, fs.locals);
      ghost var h := CBlock(sc, s.body, Some(|sc|), fs.State());
      RepeatStmt(sc, s, LoopLocals(fs.scopes), fs.State());
      var loopStart := |fs.code|;
      EnterScope(true);
      LoopBody(s.body, sc, scopes0);
      if IsConstTrue(s.cond) {
        LeaveLoop(code0, h.code, scopes0, sc);
      } else if IsConstFalsy(s.cond) {
        JumpBack(loopStart);
        LoopCode(code0, [], h.code, [Jmp(-(|h.code| + 1))]);
        LeaveLoop(code0, h.code + Lift([Jmp(-(|h.code| + 1))]), scopes0, sc);
      } else {
        ghost var g := CCond(h.sc, s.cond, false, h.cs);
        ghost var back := Jmp(-(|h.code| + |g.code| + 1));
        CompileCondJump(s.cond, false);
        JumpBack(loopStart);
        LoopCode(code0, [], h.code, g.code + [back]);
        LeaveLoop(code0, h.code + Lift(g.code + [back]), scopes0, sc);
      }
    }
  }
}
