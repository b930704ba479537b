/**
 The expression compiler as the program runs it: a function state updated in
 place, a queue of pending steps instead of recursion along left spines, jumps
 emitted first and patched later, constants found through a map and folded
 values through a memo. Each method emits exactly what the recursive
 specification says.
*/
module ExprCompiler {
  import opened Wrappers
  import opened LuaValues
  import opened LuaSource
  import opened Machine
  import opened ExprSpec

  // -- the queue -----------------------------------------------------------------

  /** A queued step: an operand still to be compiled, or the rest of a spine link. */
  datatype PendItem =
    | Operand(e: Expr, reg: nat)
    | RestImmediate(tm: BinOp, reg: nat, leftReg: nat, imm: int)
    | RestBinop(op: BinOp, r: Expr, reg: nat, base: nat, leftReg: nat, free: nat)
    | RestTest(r: Expr, reg: nat, k: nat)
    | RestTestSet(r: Expr, reg: nat, tmp: nat, k: nat)
    | RestField(field: string, reg: nat, tableReg: nat, needFree: bool)
    | RestIndex(key: Expr, reg: nat, tableReg: nat, needFree: bool)

  function Size(e: Expr): (n: nat)
    ensures n > 0
  {
    match e
    case Bin(_, l, r) => 1 + Size(l) + Size(r)
    case Un(_, x) => 1 + Size(x)
    case Paren(x) => 1 + Size(x)
    case Field(t, _) => 1 + Size(t)
    case Index(t, k) => 1 + Size(t) + Size(k)
    case _ => 1
  }

  function ItemSize(i: PendItem): nat {
    match i
    case Operand(e, _) => Size(e)
    case RestBinop(_, r, _, _, _, _) => Size(r)
    case RestTest(r, _, _) => Size(r)
    case RestTestSet(r, _, _, _) => Size(r)
    case RestIndex(k, _, _, _) => Size(k)
    case _ => 0
  }

  /** The work left on a queue. A step replaces its item by smaller ones. */
  function PendSize(pend: seq<PendItem>): nat {
    if pend == [] then 0 else PendSize(pend[..|pend| - 1]) + 3 * ItemSize(pend[|pend| - 1]) + 1
  }

  /** What a queued step emits, by the recursive specification. */
  function RunItem(sc: Scope, i: PendItem, d: nat, cs: CS): Frag {
    match i
    case Operand(e, reg) => CStep(sc, e, reg, d, cs)
    case RestImmediate(tm, reg, leftReg, imm) => FinishImmediate(tm, reg, leftReg, imm, cs)
    case RestBinop(op, r, reg, base, leftReg, free) => FinishBinop(sc, op, r, reg, base, leftReg, d, cs.(free := free))
    case RestTest(r, reg, k) => FinishTest(sc, r, reg, k, d, cs)
    case RestTestSet(r, reg, tmp, k) => FinishTestSet(sc, r, reg, tmp, k, d, cs)
    case RestField(x, reg, tableReg, needFree) => FinishField(x, reg, tableReg, needFree, cs)
    case RestIndex(k, reg, tableReg, needFree) => FinishIndex(sc, k, reg, tableReg, needFree, d, cs)
  }

  /** What draining the queue, last in first out, emits. */
  function RunPend(sc: Scope, pend: seq<PendItem>, d: nat, cs: CS): Frag {
    if pend == [] then Frag([], cs)
    else
      var f := RunItem(sc, pend[|pend| - 1], d, cs);
      Then(f, RunPend(sc, pend[..|pend| - 1], d, f.cs))
  }

  /** Items pushed on top of a queue run before what was there. */
  lemma {:induction false} RunPendAppend(sc: Scope, pend: seq<PendItem>, top: seq<PendItem>, d: nat, cs: CS)
    ensures var f := RunPend(sc, top, d, cs);
            RunPend(sc, pend + top, d, cs) == Then(f, RunPend(sc, pend, d, f.cs))
    decreases |top|
  {
    hide RunItem;
    if top == [] {
      assert pend + top == pend;
    } else {
      var all := pend + top;
      var last := top[|top| - 1];
      assert all[|all| - 1] == last && all[..|all| - 1] == pend + top[..|top| - 1];
      var f := RunItem(sc, last, d, cs);
      RunPendAppend(sc, pend, top[..|top| - 1], d, f.cs);
      var g := RunPend(sc, top[..|top| - 1], d, f.cs);
      assert f.code + (g.code + RunPend(sc, pend, d, g.cs).code) == f.code + g.code + RunPend(sc, pend, d, g.cs).code;
    }
  }

  lemma {:induction false} PendSizeAppend(pend: seq<PendItem>, top: seq<PendItem>)
    ensures PendSize(pend + top) == PendSize(pend) + PendSize(top)
    decreases |top|
  {
    if top == [] {
      assert pend + top == pend;
    } else {
      var all := pend + top;
      assert all[..|all| - 1] == pend + top[..|top| - 1];
      PendSizeAppend(pend, top[..|top| - 1]);
    }
  }

  lemma PendSizeOne(i: PendItem)
    ensures PendSize([i]) == 3 * ItemSize(i) + 1
  {
    assert [i][..0] == [];
    assert PendSize([]) == 0;
  }

  /** Running the top item and queueing what it defers leaves the outcome of the whole queue as it was. */
  lemma {:induction false} DrainItem(sc: Scope, rest: seq<PendItem>, item: PendItem, added: seq<PendItem>, d: nat, code: seq<Instr>, cs: CS, code2: seq<Instr>, cs2: CS)
    requires var g := RunItem(sc, item, d, cs);
             Then(Frag(code2, cs2), RunPend(sc, added, d, cs2)) == Frag(code + g.code, g.cs)
    ensures Then(Frag(code2, cs2), RunPend(sc, rest + added, d, cs2)) == Then(Frag(code, cs), RunPend(sc, rest + [item], d, cs))
  {
    hide RunItem, RunPend;
    var g := RunItem(sc, item, d, cs);
    var h := RunPend(sc, added, d, cs2);
    var tail := RunPend(sc, rest, d, g.cs);
    RunPendAppend(sc, rest, added, d, cs2);
    RunPendLast(sc, rest, item, d, cs);
    Associative(code2, h.code, tail.code);
    Associative(code, g.code, tail.code);
  }

  lemma {:induction false} RunPendLast(sc: Scope, rest: seq<PendItem>, item: PendItem, d: nat, cs: CS)
    ensures var g := RunItem(sc, item, d, cs);
            RunPend(sc, rest + [item], d, cs) == Then(g, RunPend(sc, rest, d, g.cs))
  {
    hide RunItem;
    assert (rest + [item])[..|rest|] == rest;
  }

  lemma Associative(a: seq<Instr>, b: seq<Instr>, c: seq<Instr>)
    ensures a + (b + c) == (a + b) + c
  {
  }

  /** deferLeft: the operand on top of the rest of the link. */
  function Deferred(rest: PendItem, e: Expr, reg: nat): (top: seq<PendItem>)
    ensures |top| == 2
  {
    [rest, Operand(e, reg)]
  }

  lemma {:induction false} RunDeferred(sc: Scope, rest: PendItem, e: Expr, reg: nat, d: nat, cs: CS)
    ensures var g := CStep(sc, e, reg, d, cs);
            RunPend(sc, Deferred(rest, e, reg), d, cs) == Then(g, RunItem(sc, rest, d, g.cs))
    ensures PendSize(Deferred(rest, e, reg)) == 3 * ItemSize(rest) + 3 * Size(e) + 2
  {
    hide CStep;
    var top := Deferred(rest, e, reg);
    assert top[..1] == [rest] && [rest][..0] == [];
    assert PendSize([]) == 0;
    assert PendSize([rest]) == 3 * ItemSize(rest) + 1;
    var g := CStep(sc, e, reg, d, cs);
    var f := RunItem(sc, rest, d, g.cs);
    assert RunPend(sc, [], d, f.cs) == Frag([], f.cs);
    assert RunPend(sc, [rest], d, g.cs) == Then(f, Frag([], f.cs));
    assert f.code + [] == f.code;
  }

  // -- folding -----------------------------------------------------------------------

  /** Every memo entry is the folded value of its expression. */
  ghost predicate MemoOk(memo: map<Expr, Option<Int64>>) {
    forall e | e in memo :: memo[e] == NumericValue(e)
  }

  ghost predicate MemoGrows(memo: map<Expr, Option<Int64>>, memo': map<Expr, Option<Int64>>) {
    forall e | e in memo :: e in memo'
  }

  /** The constant map finds each pool constant at its first position. */
  ghost predicate LookupOk(consts: seq<Value>, lookup: map<Value, nat>) {
    (forall v :: v in lookup <==> v in consts) && forall v | v in lookup :: lookup[v] == IndexOf(consts, v)
  }

  lemma {:induction false} IndexOfAppend(consts: seq<Value>, v: Value, w: Value)
    ensures v in consts ==> IndexOf(consts + [w], v) == IndexOf(consts, v) < |consts|
    ensures v !in consts ==> IndexOf(consts, v) == |consts| && IndexOf(consts + [v], v) == |consts|
  {
    if consts != [] {
      IndexOfAppend(consts[1..], v, w);
      assert (consts + [w])[1..] == consts[1..] + [w] && (consts + [v])[1..] == consts[1..] + [v];
    }
  }

  /** What a step on e queues is smaller than e. */
  ghost predicate SmallItems(e: Expr, pend: seq<PendItem>, pend': seq<PendItem>) {
    && pend <= pend'
    && PendSize(pend'[|pend|..]) < 3 * Size(e)
    && forall i | |pend| <= i < |pend'| :: ItemSize(pend'[i]) < Size(e)
  }

  lemma {:induction false} StepAfterPreamble(sc: Scope, e: Expr, reg: nat, d: nat, cs: CS)
    ensures CStep(sc, e, reg, d, Preamble(reg, cs)) == CStep(sc, e, reg, d, cs)
  {
  }

  lemma {:induction false} NothingQueued(sc: Scope, pend: seq<PendItem>, d: nat, cs: CS)
    ensures pend[|pend|..] == [] && RunPend(sc, pend[|pend|..], d, cs) == Frag([], cs) && PendSize(pend[|pend|..]) == 0
  {
  }

  /** An open scope: where it began and the jumps of its breaks, still to be patched. */
  datatype ScopeInfo = ScopeInfo(nLocals: nat, baseReg: nat, isLoop: bool, breakJumps: seq<nat>)

  class FuncState {
    const lim: nat
    const varLim: nat
    var code: seq<Instr>
    var consts: seq<Value>
    var constLookup: map<Value, nat>
    var freeReg: nat
    var maxReg: nat
    var locals: Scope
    var scopes: seq<ScopeInfo>
    var err: CompileError
    var exprDepth: nat
    var foldMemo: map<Expr, Option<Int64>>

    ghost function State(): CS
      reads this
    {
      CS(freeReg, maxReg, consts, err, lim, varLim)
    }

    ghost predicate Valid()
      reads this
    {
      LookupOk(consts, constLookup) && MemoOk(foldMemo)
    }

    /** The method emitted f and left the allocator as f says; nothing else changed. */
    twostate predicate Emitted(f: Frag)
      reads this
    {
      Valid() && code == old(code) + f.code && State() == f.cs && locals == old(locals) && scopes == old(scopes) && exprDepth == old(exprDepth)
    }

    constructor (lim: nat, varLim: nat)
      ensures Valid() && code == [] && locals == [] && scopes == [] && exprDepth == 0
      ensures State() == CS(0, 0, [], NoError, lim, varLim)
    {
      this.lim, this.varLim := lim, varLim;
      code, consts, constLookup, freeReg, maxReg := [], [], map[], 0, 0;
      locals, scopes, err, exprDepth, foldMemo := [], [], NoError, 0, map[];
    }

    // -- emitting ----------------------------------------------------------------

    method EmitInstr(i: Instr) returns (pc: nat)
      modifies this`code
      ensures pc == old(|code|) && code == old(code) + [i]
    {
      pc := |code|;
      code := code + [i];
    }

    /** patchJump: the jump at jpc goes to the next instruction emitted. */
    method PatchJump(jpc: nat)
      requires jpc < |code|
      modifies this`code
      ensures code == old(code)[jpc := Jmp(|old(code)| - (jpc + 1))]
    {
      code := code[jpc := Jmp(|code| - (jpc + 1))];
    }

    method SetError(e: CompileError)
      modifies this`err
      ensures err == (if old(err) == NoError then e else old(err))
    {
      if err == NoError {
        err := e;
      }
    }

    /** Assign freeReg and keep the high-water mark. */
    method SetFreeReg(f: nat)
      modifies this`freeReg, this`maxReg
      ensures State() == SetFree(old(State()), f)
    {
      freeReg := f;
      if freeReg > maxReg {
        maxReg := freeReg;
      }
    }

    method CheckRegLimit()
      modifies this`err
      ensures State() == CheckLimit(old(State()))
    {
      if freeReg > lim {
        SetError(TooManyRegisters);
      }
    }

    method ReserveReg() returns (r: nat)
      modifies this`freeReg, this`maxReg, this`err
      ensures r == old(freeReg) && State() == Reserve(old(State()))
    {
      r := freeReg;
      SetFreeReg(freeReg + 1);
      CheckRegLimit();
    }

    /** A constant already in the pool keeps its index; a new one goes to the end. */
    method AddConstant(v: Value) returns (k: nat)
      requires Valid()
      modifies this`consts, this`constLookup
      ensures Valid() && k == ConstIndex(old(State()), v) && State() == AddConst(old(State()), v)
    {
      IndexOfAppend(consts, v, v);
      if v in constLookup {
        k := constLookup[v];
      } else {
        k := |consts|;
        forall w
          ensures w in consts ==> IndexOf(consts + [v], w) == IndexOf(consts, w)
        {
          IndexOfAppend(consts, w, v);
        }
        consts := consts + [v];
        constLookup := constLookup[v := k];
      }
    }

    method LoadConstant(reg: nat, k: nat)
      modifies this`code
      ensures code == old(code) + LoadConst(reg, k)
    {
      if k <= MAX_ARG_BX {
        var _ := EmitInstr(LoadK(reg, k));
      } else {
        var _ := EmitInstr(LoadKX(reg));
        var _ := EmitInstr(ExtraArg(k));
      }
    }

    method CompileInt(n: Int64, reg: nat)
      requires Valid()
      modifies this
      ensures Emitted(CInt(n, reg, old(State()))) && foldMemo == old(foldMemo)
    {
      hide LookupOk, MemoOk, IndexOf;
      if -OFFSET_SBX <= n <= OFFSET_SBX {
        var _ := EmitInstr(LoadI(reg, n));
      } else {
        var k := AddConstant(Int(n));
        LoadConstant(reg, k);
      }
    }

    method EmitInlinedConst(v: Value, reg: nat)
      requires Valid()
      modifies this
      ensures Emitted(CInlined(v, reg, old(State())))
    {
      hide LookupOk, MemoOk, IndexOf;
      match v
      case Nil => var _ := EmitInstr(LoadNil(reg, 0));
      case Bool(b) => var _ := EmitInstr(if b then LoadTrue(reg) else LoadFalse(reg));
      case Int(n) => CompileInt(n, reg);
      case Str(_) =>
        var k := AddConstant(v);
        LoadConstant(reg, k);
      case Other(_) => var _ := EmitInstr(LoadNil(reg, 0));
    }

    method EmitGetField(reg: nat, tableReg: nat, x: string)
      requires Valid()
      modifies this
      ensures Emitted(CGetField(reg, tableReg, x, old(State())))
    {
      hide LookupOk, MemoOk, IndexOf;
      var k := AddConstant(Str(x));
      if k <= MAX_ARG_C {
        var _ := EmitInstr(GetField(reg, tableReg, k));
      } else {
        var saved := freeReg;
        var key := ReserveReg();
        LoadConstant(key, k);
        var _ := EmitInstr(GetTable(reg, tableReg, key));
        freeReg := saved;
      }
    }

    method EmitGetTabUp(reg: nat, x: string)
      requires Valid()
      modifies this
      ensures Emitted(CGetTabUp(reg, x, old(State())))
    {
      hide LookupOk, MemoOk, IndexOf;
      var k := AddConstant(Str(x));
      if k <= MAX_ARG_C {
        var _ := EmitInstr(GetTabUp(reg, 0, k));
      } else {
        var saved := freeReg;
        var env := ReserveReg();
        var key := ReserveReg();
        var _ := EmitInstr(GetUpval(env, 0));
        LoadConstant(key, k);
        var _ := EmitInstr(GetTable(reg, env, key));
        freeReg := saved;
      }
    }

    method CompileName(x: string, reg: nat)
      requires Valid()
      modifies this
      ensures Emitted(CName(locals, x, reg, old(State())))
    {
      hide LookupOk, MemoOk, IndexOf;
      var inl := LookupInlined(locals, x);
      var loc := LookupLocal(locals, x);
      var env := LookupLocal(locals, ENV);
      if inl.Some? {
        EmitInlinedConst(inl.value, reg);
      } else if loc.Some? {
        if loc.value != reg {
          var _ := EmitInstr(Move(reg, loc.value));
        }
      } else if x == ENV {
        var _ := EmitInstr(GetUpval(reg, 0));
      } else if env.Some? {
        EmitGetField(reg, env.value, x);
      } else {
        EmitGetTabUp(reg, x);
      }
    }

    // -- constant folding through the memo ------------------------------------------------

    /** numericValue: the folded value of e, computing each node of the syntax tree at most once. */
    method FoldNumeric(e: Expr) returns (r: Option<Int64>)
      requires Valid()
      modifies this`foldMemo
      ensures Valid() && r == NumericValue(e) && MemoGrows(old(foldMemo), foldMemo)
      decreases Size(e), 2
    {
      match e
      case IntE(n) => return Some(n);
      case Bin(_, _, _) =>
        if e in foldMemo {
          return foldMemo[e];
        }
        FoldLeftSpine(e);
        r := foldMemo[e];
      case Un(op, x) =>
        if e in foldMemo {
          return foldMemo[e];
        }
        var v := FoldNumeric(x);
        r := None;
        if v.Some? {
          var w: int := v.value;
          if op.Neg? {
            r := Some(Wrap(0 - w));
          } else if op.BNot? {
            r := Some(Wrap(0 - w - 1));
          }
        }
        foldMemo := foldMemo[e := r];
      case _ => return None;
    }

    /** foldLeftSpine: walk down the left spine, then fold it bottom-up. */
    method FoldLeftSpine(top: Expr)
      requires Valid() && top.Bin?
      modifies this`foldMemo
      ensures Valid() && top in foldMemo && MemoGrows(old(foldMemo), foldMemo)
      decreases Size(top), 1
    {
      hide FindLocal, NumericValue, LookupOk;
      var spine: seq<Expr> := [];
      var n := top;
      while true
        invariant n.Bin? && Size(n) <= Size(top) && foldMemo == old(foldMemo)
        invariant forall i | 0 <= i < |spine| :: spine[i].Bin? && Size(spine[i]) <= Size(top)
        invariant if spine == [] then n == top else spine[0] == top
        invariant spine != [] ==> spine[|spine| - 1].l == n
        decreases Size(n)
      {
        if n in foldMemo {
          break;
        }
        spine := spine + [n];
        if !n.l.Bin? {
          break;
        }
        n := n.l;
      }
      var i := |spine|;
      while i > 0
        invariant 0 <= i <= |spine| && Valid() && MemoGrows(old(foldMemo), foldMemo)
        invariant forall j | i <= j < |spine| :: spine[j] in foldMemo
        invariant forall j | 0 <= j < |spine| :: spine[j].Bin? && Size(spine[j]) <= Size(top)
        invariant spine == [] ==> top in foldMemo
      {
        i := i - 1;
        var b := spine[i];
        var r := FoldArith(b);
        foldMemo := foldMemo[b := r];
      }
      assert spine != [] ==> spine[0] == top;
    }

    method FoldArith(b: Expr) returns (r: Option<Int64>)
      requires Valid() && b.Bin?
      modifies this`foldMemo
      ensures Valid() && r == NumericValue(b)
      ensures MemoGrows(old(foldMemo), foldMemo)
      decreases Size(b), 0
    {
      var x := FoldNumeric(b.l);
      if x.None? {
        return None;
      }
      var y := FoldNumeric(b.r);
      if y.None? {
        return None;
      }
      r := FoldIntOp(b.op, x.value, y.value);
    }

    /** The method emitted a part of f; draining what it pushed on the queue emits the rest. */
    twostate predicate Stepped(f: Frag, pend: seq<PendItem>, pend': seq<PendItem>)
      reads this
    {
      && Valid() && locals == old(locals) && scopes == old(scopes) && exprDepth == old(exprDepth) && pend <= pend'
      && Then(Frag(code, State()), RunPend(locals, pend'[|pend|..], exprDepth, State())) == Frag(old(code) + f.code, f.cs)
    }

    // -- expressions ------------------------------------------------------------------------

    /** compileExprToReg: start a queue of its own and drain it. */
    method CompileExprToReg(e: Expr, reg: nat)
      requires Valid()
      modifies this
      ensures Emitted(CToReg(locals, e, reg, exprDepth, old(State())))
      decreases Size(e), 4
    {
      hide LookupOk, MemoOk, CStep, FinishBinop, FinishTest, FinishTestSet, FinishIndex, FinishField, FinishImmediate, RunPend, PendSize, Size;
      if exprDepth >= MAX_EXPR_DEPTH {
        SetError(StackOverflow);
        return;
      }
      exprDepth := exprDepth + 1;
      ghost var f := CStep(locals, e, reg, exprDepth, State());
      var pend := CompileExprStep(e, reg, []);
      // runPending
      while |pend| > 0
        invariant Valid() && locals == old(locals) && scopes == old(scopes) && exprDepth == old(exprDepth) + 1
        invariant Then(Frag(code, State()), RunPend(locals, pend, exprDepth, State())) == Frag(old(code) + f.code, f.cs)
        invariant forall i | 0 <= i < |pend| :: ItemSize(pend[i]) < Size(e)
        decreases PendSize(pend)
      {
        var last := |pend| - 1;
        var item := pend[last];
        var rest := pend[..last];
        ghost var (code0, cs0) := (code, State());
        assert pend == rest + [item];
        PendSizeOne(item);
        PendSizeAppend(rest, [item]);
        if item.Operand? {
          pend := CompileExprStep(item.e, item.reg, rest);
        } else {
          RunRest(item);
          pend := rest;
          NothingQueued(locals, rest, exprDepth, State());
          assert code + [] == code;
        }
        ghost var added := pend[|rest|..];
        assert pend == rest + added;
        PendSizeAppend(rest, added);
        DrainItem(locals, rest, item, added, exprDepth, code0, cs0, code, State());
      }
      NothingQueued(locals, pend, exprDepth, State());
      assert pend[|pend|..] == pend && code + [] == code;
      exprDepth := exprDepth - 1;
    }

    /** One queued step that is not an operand. */
    method RunRest(item: PendItem)
      requires Valid() && !item.Operand?
      modifies this
      ensures Emitted(RunItem(locals, item, exprDepth, old(State())))
      decreases ItemSize(item), 6
    {
      hide LookupOk, MemoOk, CStep, CToReg, FinishBinop, FinishTest, FinishTestSet, FinishField, FinishIndex, FinishImmediate;
      match item
      case RestImmediate(tm, reg, leftReg, imm) => DoFinishImmediate(tm, reg, leftReg, imm);
      case RestBinop(op, r, reg, base, leftReg, free) =>
        freeReg := free;
        DoFinishBinop(op, r, reg, base, leftReg);
      case RestTest(r, reg, k) => DoFinishTest(r, reg, k);
      case RestTestSet(r, reg, tmp, k) => DoFinishTestSet(r, reg, tmp, k);
      case RestField(x, reg, tableReg, needFree) => DoFinishField(x, reg, tableReg, needFree);
      case RestIndex(k, reg, tableReg, needFree) => DoFinishIndex(k, reg, tableReg, needFree);
    }

    method EmitImmediatePair(tm: BinOp, reg: nat, leftReg: nat, imm: int)
      modifies this`code
      ensures code == old(code) + ImmediatePair(tm, reg, leftReg, imm)
    {
      var addend := if tm.Sub? then 0 - imm else imm;
      var _ := EmitInstr(AddI(reg, leftReg, addend));
      var _ := EmitInstr(MmBinI(leftReg, imm, tm, 0));
    }

    method DoFinishImmediate(tm: BinOp, reg: nat, leftReg: nat, imm: int)
      requires Valid()
      modifies this
      ensures Emitted(FinishImmediate(tm, reg, leftReg, imm, old(State())))
    {
      EmitImmediatePair(tm, reg, leftReg, imm);
      freeReg := leftReg;
    }

    method DoFinishBinop(op: BinOp, r: Expr, reg: nat, base: nat, leftReg: nat)
      requires Valid()
      modifies this
      ensures Emitted(FinishBinop(locals, op, r, reg, base, leftReg, exprDepth, old(State())))
      decreases Size(r), 5
    {
      hide LookupOk, MemoOk, CStep, CToReg;
      var inPlace := PlainLocal(locals, r);
      var rr: nat;
      if inPlace.Some? {
        rr := inPlace.value;
      } else {
        rr := freeReg;
        CompileExprToReg(r, rr);
      }
      var _ := EmitInstr(Arith(op, reg, leftReg, rr));
      var _ := EmitInstr(MmBin(leftReg, rr, op));
      freeReg := base;
    }

    method DoFinishTest(r: Expr, reg: nat, k: nat)
      requires Valid()
      modifies this
      ensures Emitted(FinishTest(locals, r, reg, k, exprDepth, old(State())))
      decreases Size(r), 5
    {
      hide LookupOk, MemoOk, CStep, CToReg;
      freeReg := reg + 1;
      var _ := EmitInstr(Test(reg, k));
      var jmp := EmitInstr(Jmp(0));
      CompileExprToReg(r, reg);
      PatchJump(jmp);
    }

    method DoFinishTestSet(r: Expr, reg: nat, tmp: nat, k: nat)
      requires Valid()
      modifies this
      ensures Emitted(FinishTestSet(locals, r, reg, tmp, k, exprDepth, old(State())))
      decreases Size(r), 5
    {
      hide LookupOk, MemoOk, CStep, CToReg;
      var _ := EmitInstr(TestSet(reg, tmp, k));
      var jmp := EmitInstr(Jmp(0));
      CompileExprToReg(r, reg);
      PatchJump(jmp);
      freeReg := tmp;
    }

    method DoFinishField(x: string, reg: nat, tableReg: nat, needFree: bool)
      requires Valid()
      modifies this
      ensures Emitted(FinishField(x, reg, tableReg, needFree, old(State())))
    {
      hide LookupOk, MemoOk, CGetField;
      EmitGetField(reg, tableReg, x);
      if needFree {
        freeReg := tableReg;
      }
    }

    method DoFinishIndex(k: Expr, reg: nat, tableReg: nat, needFree: bool)
      requires Valid()
      modifies this
      ensures Emitted(FinishIndex(locals, k, reg, tableReg, needFree, exprDepth, old(State())))
      decreases Size(k), 5
    {
      hide LookupOk, MemoOk, CStep, CToReg;
      if k.IntE? && 0 <= k.n <= MAX_ARG_C {
        var _ := EmitInstr(GetI(reg, tableReg, k.n));
        if needFree {
          freeReg := tableReg;
        }
      } else {
        var key := ReserveReg();
        CompileExprToReg(k, key);
        var _ := EmitInstr(GetTable(reg, tableReg, key));
        freeReg := if needFree then tableReg else key;
      }
    }

    /** operandToReg. */
    method OperandToReg(e: Expr) returns (r: nat)
      requires Valid()
      modifies this
      ensures r == OperandReg(locals, e, old(State())) && Emitted(COperand(locals, e, exprDepth, old(State())))
      decreases Size(e), 5
    {
      hide LookupOk, MemoOk, CStep, CToReg;
      var inPlace := PlainLocal(locals, e);
      if inPlace.Some? {
        r := inPlace.value;
      } else {
        r := ReserveReg();
        CompileExprToReg(e, r);
      }
    }

    /** The operand and the rest of its link: queued when the operand may extend the spine, compiled now otherwise. */
    method LinkOperand(e: Expr, reg: nat, rest: PendItem, pend: seq<PendItem>) returns (pend': seq<PendItem>)
      requires Valid() && !rest.Operand?
      modifies this
      ensures var g := CLeft(locals, e, reg, exprDepth, old(State()));
              Stepped(Then(g, RunItem(locals, rest, exprDepth, g.cs)), pend, pend')
      ensures PendSize(pend'[|pend|..]) <= 3 * ItemSize(rest) + 3 * Size(e) + 2
      ensures forall i | |pend| <= i < |pend'| :: ItemSize(pend'[i]) <= ItemSize(rest) || ItemSize(pend'[i]) <= Size(e)
      decreases Size(e) + ItemSize(rest), 7
    {
      hide LookupOk, MemoOk, CStep, CToReg, RunItem;
      if SpineLink(e) {
        RunDeferred(locals, rest, e, reg, exprDepth, State());
        pend' := pend + Deferred(rest, e, reg);
        assert pend'[|pend|..] == Deferred(rest, e, reg);
      } else {
        ghost var g := CLeft(locals, e, reg, exprDepth, State());
        ghost var h := RunItem(locals, rest, exprDepth, g.cs);
        CompileExprToReg(e, reg);
        RunRest(rest);
        pend' := pend;
        assert pend'[|pend|..] == [];
        assert old(code) + g.code + h.code == old(code) + (g.code + h.code);
        assert code + [] == code;
      }
    }

    /** compileExprStep: everything up to the leading operand of a spine link; the rest is queued. */
    method CompileExprStep(e: Expr, reg: nat, pend: seq<PendItem>) returns (pend': seq<PendItem>)
      requires Valid()
      modifies this
      ensures Stepped(CStep(locals, e, reg, exprDepth, old(State())), pend, pend') && SmallItems(e, pend, pend')
      decreases Size(e), 3
    {
      hide LookupOk, MemoOk, CToReg, CLeft, CUnop, CArith, CCompare, CLogical, RunPend, FinishField, FinishIndex, RegTop;
      StepAfterPreamble(locals, e, reg, exprDepth, State());
      if reg >= freeReg {
        SetFreeReg(reg + 1);
        CheckRegLimit();
      }
      pend' := pend;
      match e
      case Paren(inner) =>
        CompileExprToReg(inner, reg);
        NothingQueued(locals, pend, exprDepth, State());
      case Un(op, x) =>
        CompileUnop(op, x, reg);
        NothingQueued(locals, pend, exprDepth, State());
      case Field(_, _) => pend' := CompileField(e, reg, pend);
      case Index(_, _) => pend' := CompileIndex(e, reg, pend);
      case Bin(op, _, _) =>
        if op.And? || op.Or? {
          pend' := CompileLogical(e, reg, pend);
        } else if IsComparison(op) {
          CompileComparison(e, reg);
          NothingQueued(locals, pend, exprDepth, State());
        } else {
          pend' := CompileArith(e, reg, pend);
        }
      case _ =>
        CompileLeaf(e, reg);
        NothingQueued(locals, pend, exprDepth, State());
    }

    method CompileLeaf(e: Expr, reg: nat)
      requires Valid() && reg < freeReg && (e.NilE? || e.TrueE? || e.FalseE? || e.IntE? || e.StrE? || e.Name?)
      modifies this
      ensures Emitted(CStep(locals, e, reg, exprDepth, old(State())))
    {
      hide LookupOk, MemoOk, IndexOf, CName;
      match e
      case NilE => var _ := EmitInstr(LoadNil(reg, 0));
      case TrueE => var _ := EmitInstr(LoadTrue(reg));
      case FalseE => var _ := EmitInstr(LoadFalse(reg));
      case IntE(n) => CompileInt(n, reg);
      case StrE(s) =>
        var k := AddConstant(Str(s));
        LoadConstant(reg, k);
      case Name(x) => CompileName(x, reg);
    }

    method CompileUnop(op: UnOp, x: Expr, reg: nat)
      requires Valid()
      modifies this
      ensures Emitted(CUnop(locals, op, x, reg, exprDepth, old(State())))
      decreases Size(x), 5
    {
      hide LookupOk, MemoOk, CStep, CToReg;
      var inPlace := PlainLocal(locals, x);
      if inPlace.Some? {
        var _ := EmitInstr(Unary(op, reg, inPlace.value));
      } else if reg < RegTop(locals) {
        var tmp := ReserveReg();
        CompileExprToReg(x, tmp);
        var _ := EmitInstr(Unary(op, reg, tmp));
        freeReg := tmp;
      } else {
        CompileExprToReg(x, reg);
        var _ := EmitInstr(Unary(op, reg, reg));
      }
    }

    method CompileField(e: Expr, reg: nat, pend: seq<PendItem>) returns (pend': seq<PendItem>)
      requires Valid() && e.Field? && reg < freeReg
      modifies this
      ensures Stepped(CStep(locals, e, reg, exprDepth, old(State())), pend, pend') && SmallItems(e, pend, pend')
      decreases Size(e), 2
    {
      hide LookupOk, MemoOk, CToReg, CLeft, FinishField;
      var inPlace := PlainLocal(locals, e.table);
      if inPlace.Some? {
        DoFinishField(e.field, reg, inPlace.value, false);
        pend' := pend;
        NothingQueued(locals, pend, exprDepth, State());
      } else if reg < |locals| {
        var tableReg := ReserveReg();
        pend' := LinkOperand(e.table, tableReg, RestField(e.field, reg, tableReg, true), pend);
      } else {
        pend' := LinkOperand(e.table, reg, RestField(e.field, reg, reg, false), pend);
      }
    }

    method CompileIndex(e: Expr, reg: nat, pend: seq<PendItem>) returns (pend': seq<PendItem>)
      requires Valid() && e.Index? && reg < freeReg
      modifies this
      ensures Stepped(CStep(locals, e, reg, exprDepth, old(State())), pend, pend') && SmallItems(e, pend, pend')
      decreases Size(e), 2
    {
      hide LookupOk, MemoOk, CToReg, CLeft, FinishIndex;
      var inPlace := PlainLocal(locals, e.table);
      if inPlace.Some? {
        DoFinishIndex(e.key, reg, inPlace.value, false);
        pend' := pend;
        NothingQueued(locals, pend, exprDepth, State());
      } else if reg < |locals| {
        var tableReg := ReserveReg();
        pend' := LinkOperand(e.table, tableReg, RestIndex(e.key, reg, tableReg, true), pend);
      } else {
        pend' := LinkOperand(e.table, reg, RestIndex(e.key, reg, reg, false), pend);
      }
    }

    method CompileArith(e: Expr, reg: nat, pend: seq<PendItem>) returns (pend': seq<PendItem>)
      requires Valid() && e.Bin? && reg < freeReg
      modifies this
      ensures Stepped(CArith(locals, e, reg, exprDepth, old(State())), pend, pend') && SmallItems(e, pend, pend')
      decreases Size(e), 2
    {
      hide LookupOk, MemoOk, CLeft, FinishBinop, COperand, RunPend, NumericValue, PlainLocal, RegTop, IndexOf, FindLocal, Grows;
      pend' := pend;
      NothingQueued(locals, pend, exprDepth, State());
      var (op, l, r) := (e.op, e.l, e.r);
      var folded := FoldArith(e);
      if folded.Some? {
        CompileExprToReg(IntE(folded.value), reg);
        NothingQueued(locals, pend, exprDepth, State());
        return;
      }
      var (right, left) := (SmallIntConst(r), SmallIntConst(l));
      var inPlace := PlainLocal(locals, l);
      if (op.Add? || op.Sub?) && right.Some? {
        if inPlace.Some? {
          EmitImmediatePair(op, reg, inPlace.value, right.value);
          NothingQueued(locals, pend, exprDepth, State());
        } else {
          var leftReg := ReserveReg();
          pend' := LinkOperand(l, leftReg, RestImmediate(op, reg, leftReg, right.value), pend);
        }
      } else if op.Add? && left.Some? {
        var rr := OperandToReg(r);
        var _ := EmitInstr(AddI(reg, rr, left.value));
        var _ := EmitInstr(MmBinI(rr, left.value, Add, 1));
        if PlainLocal(locals, r).None? {
          freeReg := rr;
        }
        NothingQueued(locals, pend, exprDepth, State());
      } else {
        pend' := CompileArithRegisters(e, reg, pend);
      }
    }

    /** Both operands in registers. */
    method CompileArithRegisters(e: Expr, reg: nat, pend: seq<PendItem>) returns (pend': seq<PendItem>)
      requires Valid() && e.Bin? && reg < freeReg && NumericValue(e).None?
      requires !((e.op.Add? || e.op.Sub?) && SmallIntConst(e.r).Some?) && !(e.op.Add? && SmallIntConst(e.l).Some?)
      modifies this
      ensures Stepped(CArith(locals, e, reg, exprDepth, old(State())), pend, pend') && SmallItems(e, pend, pend')
      decreases Size(e), 1
    {
      hide LookupOk, MemoOk, CLeft, FinishBinop, RunPend, NumericValue;
      pend' := pend;
      var (op, l, r) := (e.op, e.l, e.r);
      var inPlace := PlainLocal(locals, l);
      var base := if freeReg < |locals| then |locals| else freeReg;
      if inPlace.Some? {
        DoFinishBinop(op, r, reg, base, inPlace.value);
        NothingQueued(locals, pend, exprDepth, State());
      } else if reg < |locals| {
        var leftReg := ReserveReg();
        pend' := LinkOperand(l, leftReg, RestBinop(op, r, reg, base, leftReg, leftReg + 1), pend);
      } else {
        pend' := LinkOperand(l, reg, RestBinop(op, r, reg, base, reg, base), pend);
      }
    }

    /** The test of a comparison between registers. */
    method RegisterTest(e: Expr, inv: bool)
      requires Valid() && e.Bin?
      modifies this
      ensures Emitted(CRegisterTest(locals, e, inv, exprDepth, old(State())))
      decreases Size(e), 0, 0
    {
      hide LookupOk, MemoOk, COperand;
      var base := freeReg;
      var a := OperandToReg(e.l);
      var b := OperandToReg(e.r);
      var _ := EmitInstr(RegisterCompare(e.op, a, b, inv));
      freeReg := base;
    }

    method CompileComparisonTest(e: Expr, inv: bool)
      requires Valid() && e.Bin?
      modifies this
      ensures Emitted(CCompareTest(locals, e, inv, exprDepth, old(State())))
      decreases Size(e), 1
    {
      hide LookupOk, MemoOk, COperand, CRegisterTest, RegisterCompare, OrderImmediate, IndexOf, RegTop, Grows;
      var (op, l, r) := (e.op, e.l, e.r);
      var base := freeReg;
      if op.Eq? || op.Ne? {
        CompileEqualityTest(e, inv);
      } else if SmallIntConst(r).Some? {
        var a := OperandToReg(l);
        var _ := EmitInstr(OrderImmediate(op, a, SmallIntConst(r).value, KFlag(inv)));
        freeReg := base;
      } else if SmallIntConst(l).Some? {
        var a := OperandToReg(r);
        var _ := EmitInstr(OrderImmediate(Mirror(op), a, SmallIntConst(l).value, KFlag(inv)));
        freeReg := base;
      } else {
        RegisterTest(e, inv);
      }
    }

    /** Equality with a small integer or a string from the pool. */
    method CompileEqualityTest(e: Expr, inv: bool)
      requires Valid() && e.Bin? && (e.op.Eq? || e.op.Ne?)
      modifies this
      ensures Emitted(CCompareTest(locals, e, inv, exprDepth, old(State())))
      decreases Size(e), 0
    {
      hide LookupOk, MemoOk, COperand, CRegisterTest, RegisterCompare, OrderImmediate, IndexOf, RegTop, Grows, FindLocal, FoldIntOp;
      var (op, l, r) := (e.op, e.l, e.r);
      var base := freeReg;
      var k := KFlag(op.Ne? != inv);
      var (x, c) := if IsImmediateEqConst(r) then (l, r) else (r, l);
      var imm := SmallIntConst(c);
      if imm.Some? {
        var a := OperandToReg(x);
        var _ := EmitInstr(EqI(a, imm.value, k));
        freeReg := base;
      } else if c.StrE? {
        var ki := AddConstant(Str(c.text));
        if ki <= MAX_ARG_B {
          var a := OperandToReg(x);
          var _ := EmitInstr(EqK(a, ki, k));
          freeReg := base;
        } else {
          RegisterTest(e, inv);
        }
      } else {
        RegisterTest(e, inv);
      }
    }

    method CompileComparison(e: Expr, reg: nat)
      requires Valid() && e.Bin?
      modifies this
      ensures Emitted(CCompare(locals, e, reg, exprDepth, old(State())))
      decreases Size(e), 2
    {
      hide LookupOk, MemoOk, CCompareTest;
      var base := freeReg;
      CompileComparisonTest(e, false);
      var jmpFalse := EmitInstr(Jmp(0));
      var _ := EmitInstr(LoadTrue(reg));
      var jmpEnd := EmitInstr(Jmp(0));
      PatchJump(jmpFalse);
      var _ := EmitInstr(LoadFalse(reg));
      PatchJump(jmpEnd);
      freeReg := base;
    }

    /** A comparison fused with the short-circuit after it. */
    method CompileFused(e: Expr, reg: nat)
      requires Valid() && e.Bin? && e.l.Bin? && IsComparison(e.l.op)
      modifies this
      ensures Emitted(CLogical(locals, e, reg, exprDepth, old(State())))
      decreases Size(e), 1
    {
      hide LookupOk, MemoOk, CToReg, CCompareTest, Grows, NumericValue;
      var isOr := e.op.Or?;
      CompileComparisonTest(e.l, isOr);
      var skip := EmitInstr(Jmp(0));
      CompileExprToReg(e.r, reg);
      var end := EmitInstr(Jmp(0));
      PatchJump(skip);
      var _ := EmitInstr(if isOr then LoadTrue(reg) else LoadFalse(reg));
      PatchJump(end);
    }

    method CompileLogical(e: Expr, reg: nat, pend: seq<PendItem>) returns (pend': seq<PendItem>)
      requires Valid() && e.Bin? && reg < freeReg
      modifies this
      ensures Stepped(CLogical(locals, e, reg, exprDepth, old(State())), pend, pend') && SmallItems(e, pend, pend')
      decreases Size(e), 2
    {
      hide LookupOk, MemoOk, CLeft, CToReg, CCompareTest, FinishTest, FinishTestSet, RunPend;
      var isOr := e.op.Or?;
      if e.l.Bin? && IsComparison(e.l.op) {
        CompileFused(e, reg);
        pend' := pend;
        NothingQueued(locals, pend, exprDepth, State());
      } else if reg < |locals| {
        var tmp := ReserveReg();
        pend' := LinkOperand(e.l, tmp, RestTestSet(e.r, reg, tmp, KFlag(isOr)), pend);
      } else {
        pend' := LinkOperand(e.l, reg, RestTest(e.r, reg, KFlag(isOr)), pend);
      }
    }
  }
}
