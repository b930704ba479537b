/**
 A whole block compiled and run: what the compiler emitted, as bytes of one
 instruction vector with every jump patched, does what the block means.
*/
module Chunk {
  import opened Wrappers
  import opened LuaValues
  import opened LuaSource
  import opened LuaStmts
  import opened Machine
  import opened ExprSpec
  import opened StmtSpec
  import opened ExprSim
  import opened AssignSim
  import opened StmtSim
  import opened ExprCompiler
  import opened StmtCompiler
  import Registers
  import StmtRegisters
  import Legality

  ghost predicate NoHoles(code: seq<Slot>) {
    forall k | 0 <= k < |code| :: code[k].Op?
  }

  // -- outside a loop no break is left to patch ------------------------------------------

  lemma {:induction false} BlockHasNoHoles(sc: Scope, b: Block, cs: CS)
    requires Parsed(b) && CBlock(sc, b, None, cs).cs.err == NoError
    ensures NoHoles(CBlock(sc, b, None, cs).code)
    decreases b, 0
  {
    hide RegTop, CStmt;
    if b.BCons? && cs.err == NoError {
      var g := CStmt(sc, b.s, None, cs);
      StmtHasNoHoles(sc, b.s, cs);
      BlockHasNoHoles(g.sc, b.rest, g.cs.(free := RegTop(g.sc)));
    }
  }

  lemma {:induction false} StmtHasNoHoles(sc: Scope, s: Stmt, cs: CS)
    requires ParsedStmt(s) && CStmt(sc, s, None, cs).cs.err == NoError
    ensures NoHoles(CStmt(sc, s, None, cs).code)
    decreases s, 0
  {
    hide RegTop, CLocalValues, CAssign, CCond, CBlock, CGuard, CTail;
    match s
    case Do(body) => BlockHasNoHoles(sc, body, cs);
    case If(cond, thn, tail) =>
      var cs1 := CGuard(sc, cond, 0, cs).cs;
      var h := CScope(sc, thn, None, cs1);
      var k := CTail(sc, tail, None, h.cs);
      assert k.cs.err == NoError;
      BlockHasNoHoles(sc, thn, cs1);
      TailHasNoHoles(sc, tail, h.cs);
    case _ =>
  }

  lemma {:induction false} TailHasNoHoles(sc: Scope, t: Tail, cs: CS)
    requires ParsedTail(t) && CTail(sc, t, None, cs).cs.err == NoError
    ensures NoHoles(CTail(sc, t, None, cs).code)
    decreases t, 0
  {
    hide RegTop, CCond, CBlock;
    match t
    case NoElse =>
    case Else(body) => BlockHasNoHoles(sc, body, cs);
    case ElseIf(cond, body, rest) =>
      var g := CCond(sc, cond, false, cs);
      var h := CScope(sc, body, None, g.cs);
      BlockHasNoHoles(sc, body, g.cs);
      TailHasNoHoles(sc, rest, h.cs);
  }

  lemma LoweredIsPlaced(p: Prog, pc: int, code: seq<Slot>, brk: int)
    requires NoHoles(code) && At(p, pc, Lower(code))
    ensures AtS(p, pc, code, brk)
  {
    forall k | 0 <= k < |code|
      ensures p.code[pc + k] == code[k].i
    {
      assert p.code[pc + k] == Lower(code)[k];
    }
  }

  // -- running the emitted code --------------------------------------------------------------

  /**
   The machine started at c does what the source run `res` did: it reaches `end` with the same
   outside events and every local in its register, raises after the same events, or is still
   executing instructions after as many steps as the run was given loop rounds.
  */
  ghost predicate RunsAs(p: Prog, c: Conf, end: int, fuel: nat, res: Res, sc: Scope) {
    match res
    case Normal(st, log) => exists r' :: Reaches(p, c, Run(end, r', st.up, log)) && Matches(sc, st, r')
    case Broke(_, _) => false
    case Failed(log) => Reaches(p, c, Raised(log))
    case Unfinished => RunsFor(p, c, fuel)
  }

  lemma {:induction false} BlockRuns(fuel: nat, p: Prog, sc: Scope, st: Store, c: Conf, b: Block, cs: CS)
    requires Parsed(b) && AtRest(sc, st, c, cs)
    requires var f := CScope(sc, b, None, cs);
             f.cs.err == NoError && f.cs.consts <= p.consts && At(p, c.pc, Lower(f.code))
    ensures RunsAs(p, c, c.pc + |CScope(sc, b, None, cs).code|, fuel, ExecScope(fuel, p.o, st, c.log, b), sc)
  {
    hide Reaches, Matches, Dense, CBlock, ExecBlock, At, Lower, RunsFor, RegTop;
    var f := CScope(sc, b, None, cs);
    BlockHasNoHoles(sc, b, cs);
    LoweredIsPlaced(p, c.pc, f.code, 0);
    var r' := ScopeSim(fuel, p, sc, st, c, b, None, cs, 0);
  }

  /** The empty scope of a chunk. */
  lemma ChunkAtRest(up: Value, r: Regs, log: Log, cs: CS)
    requires cs.free == 0
    ensures AtRest([], Store([], up), Run(0, r, up, log), cs)
  {
  }

  /** The registers the code of a block names, and the mark it leaves. */
  lemma {:induction false} StackIsEnough(b: Block, cs: CS)
    requires Parsed(b) && cs.err == NoError && cs.maxr <= cs.lim
    ensures var f := CScope([], b, None, cs);
            f.cs.err == NoError ==> Registers.AllUse(Lower(f.code), f.cs.maxr) && f.cs.maxr <= cs.lim
  {
    assert RegTop([]) == 0;
    hide CScope, RegTop, Registers.Fits;
    StmtRegisters.ScopeHolds([], b, None, cs);
    var f := CScope([], b, None, cs);
    HoleUse(f.cs.maxr);
  }

  /** A block is refused if it is not legal, or for a limit it exceeds, and for nothing else. */
  lemma {:induction false} WhyRefused(b: Block, cs: CS)
    requires Parsed(b) && cs.err == NoError && cs.free == 0
    ensures var f := CScope([], b, None, cs);
            && (f.cs.err == NoError ==> Legality.LegalBlock([], false, b) && Legality.Most(b, 0) <= cs.varLim)
            && (f.cs.err == AssignToConst || f.cs.err == InvalidTarget || f.cs.err == BreakOutsideLoop ==> !Legality.LegalBlock([], false, b))
            && (f.cs.err == TooManyRegisters ==> f.cs.maxr > cs.lim)
            && (f.cs.err == StackOverflow ==> !Legality.Shallow(b))
            && (f.cs.err == TooManyLocals ==> Legality.Most(b, 0) > cs.varLim)
  {
    assert Legality.Known([], []);
    hide CScope, Legality.LegalBlock, Legality.Shallow, Legality.Most;
    Legality.ScopeRefuses([], [], b, None, cs);
  }

  /** A break not yet patched names no register. */
  lemma HoleUse(n: nat)
    ensures Registers.Fits(Jmp(0), n)
  {
  }

  /** compileBlock on a fresh function state, inside the chunk's outermost scope. */
  method CompileChunk(b: Block, lim: nat, varLim: nat) returns (fs: FuncState)
    requires Parsed(b)
    ensures fresh(fs) && fs.Valid() && fs.freeReg == 0 && fs.locals == [] && fs.scopes == []
    ensures fs.err == NoError ==>
      forall o, up, r, log, fuel: nat :: RunsAs(Prog(fs.code, fs.consts, o), Run(0, r, up, log), |fs.code|, fuel,
                                           ExecScope(fuel, o, Store([], up), log, b), [])
    ensures fs.err == NoError ==> Registers.AllUse(fs.code, fs.maxReg) && fs.maxReg <= lim
    ensures fs.err == NoError ==> Legality.LegalBlock([], false, b) && Legality.Most(b, 0) <= varLim
    ensures fs.err == AssignToConst || fs.err == InvalidTarget || fs.err == BreakOutsideLoop ==> !Legality.LegalBlock([], false, b)
    ensures fs.err == TooManyRegisters ==> fs.maxReg > lim
    ensures fs.err == StackOverflow ==> !Legality.Shallow(b)
    ensures fs.err == TooManyLocals ==> Legality.Most(b, 0) > varLim
    ensures fs.err == NoError ==>
      forall o, up, r, log :: Stops(Prog(fs.code, fs.consts, o), Run(0, r, up, log)) <==> Finishes(o, Store([], up), log, b)
  {
    hide LookupOk, MemoOk, CBlock, Lower, BreakPcs, AddBreaks, RunsAs, ExecScope, ExecBlock, At, Grows, Stops, Finishes, Registers.AllUse, Legality.LegalBlock, Legality.Shallow, Legality.Most;
    fs := new FuncState(lim, varLim);
    var c := new Compiler(fs);
    ghost var cs0 := fs.State();
    c.CompileScope(b);
    ghost var f := CScope([], b, None, cs0);
    assert fs.code == [] + Lower(f.code) == Lower(f.code);
    ChunkScopes(BreakPcs(f.code, 0));
    StackIsEnough(b, cs0);
    WhyRefused(b, cs0);
    if fs.err == NoError {
      forall o, up, r, log, fuel: nat
        ensures RunsAs(Prog(fs.code, fs.consts, o), Run(0, r, up, log), |fs.code|, fuel, ExecScope(fuel, o, Store([], up), log, b), [])
      {
        var p := Prog(fs.code, fs.consts, o);
        WholeProgram(p, fs.code);
        ChunkAtRest(up, r, log, cs0);
        BlockRuns(fuel, p, [], Store([], up), Run(0, r, up, log), b, cs0);
      }
      forall o, up, r, log
        ensures Stops(Prog(fs.code, fs.consts, o), Run(0, r, up, log)) <==> Finishes(o, Store([], up), log, b)
      {
        StopsTogether(Prog(fs.code, fs.consts, o), Run(0, r, up, log), Store([], up), log, b, []);
      }
    }
  }

  lemma ChunkScopes(pcs: seq<nat>)
    ensures AddBreaks([], pcs) == [] && LoopLocals([]) == None
  {
  }

  lemma WholeProgram(p: Prog, code: seq<Instr>)
    requires p.code == code
    ensures At(p, 0, code)
  {
  }

  // -- termination --------------------------------------------------------------------------------

  /** The machine comes to a stop. */
  ghost predicate Stops(p: Prog, c: Conf) {
    exists n: nat :: !Live(p, StepN(p, n, c))
  }

  /** The source run finishes under some bound on its loops. */
  ghost predicate Finishes(o: Oracle, st: Store, log: Log, b: Block) {
    exists fuel: nat :: !ExecScope(fuel, o, st, log, b).Unfinished?
  }

  /** The emitted code stops exactly when the source run finishes. */
  lemma {:induction false} StopsTogether(p: Prog, c: Conf, st: Store, log: Log, b: Block, sc: Scope)
    requires forall fuel: nat :: RunsAs(p, c, |p.code|, fuel, ExecScope(fuel, p.o, st, log, b), sc)
    ensures Stops(p, c) <==> Finishes(p.o, st, log, b)
  {
    if Stops(p, c) {
      var n: nat :| !Live(p, StepN(p, n, c));
      assert RunsAs(p, c, |p.code|, n + 1, ExecScope(n + 1, p.o, st, log, b), sc);
    }
    if Finishes(p.o, st, log, b) {
      var fuel: nat :| !ExecScope(fuel, p.o, st, log, b).Unfinished?;
      assert RunsAs(p, c, |p.code|, fuel, ExecScope(fuel, p.o, st, log, b), sc);
    }
  }
}
