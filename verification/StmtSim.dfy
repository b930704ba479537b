/**
 The statement compiler preserves meaning. Whenever a block runs to an end in
 the source (normally, by break or by an error), its code, started at its first
 instruction, reaches the matching exit with every local in scope holding its
 variable's value and the outside world having been asked the same questions.
*/
module StmtSim {
  import opened Wrappers
  import opened LuaValues
  import opened LuaSource
  import opened LuaStmts
  import opened Machine
  import opened ExprSpec
  import opened ExprSim
  import opened StmtSpec
  import opened AssignSim
  import opened MultiSim

  /** Code with holes, placed in a program where breaks jump to brk. */
  ghost predicate AtS(p: Prog, pc: int, f: seq<Slot>, brk: int) {
    0 <= pc && pc + |f| <= |p.code| &&
    forall k | 0 <= k < |f| :: p.code[pc + k] == (match f[k] case Op(i) => i case BreakJump => Jmp(brk - (pc + k + 1)))
  }

  lemma AtSSplit(p: Prog, pc: int, f: seq<Slot>, g: seq<Slot>, brk: int)
    requires AtS(p, pc, f + g, brk)
    ensures AtS(p, pc, f, brk) && AtS(p, pc + |f|, g, brk)
  {
    forall k | 0 <= k < |f| ensures p.code[pc + k] == (match f[k] case Op(i) => i case BreakJump => Jmp(brk - (pc + k + 1))) {
      assert (f + g)[k] == f[k];
    }
    forall k | 0 <= k < |g| ensures p.code[pc + |f| + k] == (match g[k] case Op(i) => i case BreakJump => Jmp(brk - (pc + |f| + k + 1))) {
      assert (f + g)[|f| + k] == g[k];
    }
  }

  lemma AtSLift(p: Prog, pc: int, code: seq<Instr>, brk: int)
    requires AtS(p, pc, Lift(code), brk)
    ensures At(p, pc, code)
  {
    forall k | 0 <= k < |code| ensures p.code[pc + k] == code[k] {
      assert Lift(code)[k] == Op(code[k]);
    }
  }

  lemma AtSOp(p: Prog, pc: int, i: Instr, brk: int)
    requires AtS(p, pc, [Op(i)], brk)
    ensures At(p, pc, [i])
  {
    assert p.code[pc + 0] == i by {
      assert [Op(i)][0] == Op(i);
    }
  }

  /** Inside a loop, breaks go to the end of the loop. */
  lemma AtSResolve(p: Prog, pc: int, f: seq<Slot>, brk: int)
    requires AtS(p, pc, ResolveBreaks(f), brk)
    ensures AtS(p, pc, f, pc + |f|)
  {
    forall k | 0 <= k < |f|
      ensures p.code[pc + k] == (match f[k] case Op(i) => i case BreakJump => Jmp(pc + |f| - (pc + k + 1)))
    {
      assert ResolveBreaks(f)[k] == if f[k].BreakJump? then Op(Jmp(|f| - (k + 1))) else f[k];
    }
  }

  // -- conditions ----------------------------------------------------------------------

  lemma TestStep(p: Prog, c: Conf, a: nat, flag: bool)
    requires c.Run? && At(p, c.pc, [Test(a, KFlag(flag))])
    ensures Tests(p, c, c.pc + 1, Val(c.log, Get(c.r, a)), flag, c.r, 0)
  {
    assert p.code[c.pc + 0] == [Test(a, KFlag(flag))][0];
    ReachesStep(p, c);
  }

  lemma {:induction false} CondSim(p: Prog, sc: Scope, st: Store, c: Conf, cond: Expr, flag: bool, cs: CS) returns (r': Regs)
    requires Ready(sc, st, c, cs) && Placed(p, c.pc, CCond(sc, cond, flag, cs))
    ensures Tests(p, c, c.pc + |CCond(sc, cond, flag, cs).code|, Eval(p.o, st, c.log, cond), flag, r', cs.free)
    decreases cond
  {
    hide Reaches, At, Matches, RegTop, CToReg, CCompareTest, CompareValue, IntArith;
    var f := CCond(sc, cond, flag, cs);
    if cond.Paren? {
      r' := CondSim(p, sc, st, c, cond.inner, flag, cs);
    } else if cond.Un? && cond.uop.Not? {
      r' := CondSim(p, sc, st, c, cond.operand, !flag, cs);
    } else if cond.Bin? && IsComparison(cond.op) {
      r' := CompareTestSim(p, sc, st, c, cond, flag, 0, cs);
    } else if PlainLocal(sc, cond).Some? {
      PlainLocalEval(p.o, sc, st, c.r, c.log, cond);
      r' := c.r;
      TestStep(p, c, PlainLocal(sc, cond).value, flag);
    } else {
      r' := CondValueSim(p, sc, st, c, cond, flag, cs);
    }
  }

  lemma CondValueSim(p: Prog, sc: Scope, st: Store, c: Conf, cond: Expr, flag: bool, cs: CS) returns (r': Regs)
    requires Ready(sc, st, c, cs)
    requires var g := CToReg(sc, cond, cs.free, 0, cs);
             Placed(p, c.pc, Frag(g.code + [Test(cs.free, KFlag(flag))], g.cs.(free := cs.free)))
    ensures Tests(p, c, c.pc + |CToReg(sc, cond, cs.free, 0, cs).code| + 1, Eval(p.o, st, c.log, cond), flag, r', cs.free)
  {
    hide Reaches, At, Matches, RegTop, CToReg, Eval;
    var g := CToReg(sc, cond, cs.free, 0, cs);
    PlacedPart(p, c.pc, Frag(g.code + [Test(cs.free, KFlag(flag))], g.cs.(free := cs.free)), g, [Test(cs.free, KFlag(flag))]);
    r' := ToRegSim(p, sc, st, c, cond, cs.free, 0, cs);
    var out := Eval(p.o, st, c.log, cond);
    if out.Val? {
      var c1 := After(c, c.pc + |g.code|, out, r');
      TestStep(p, c1, cs.free, flag);
      TestsTrans(p, c, c1.pc, out, r', c1.pc + 1, out, flag, cs.free);
    }
  }

  /** The run from c passes through a jump at j that leads to d. */
  ghost predicate JumpsTo(p: Prog, c: Conf, j: Conf, d: Conf) {
    Reaches(p, c, j) && Live(p, j) && Step(p, j) == d
  }

  lemma JumpIsStep(p: Prog, c: Conf, n: int)
    requires c.Run? && At(p, c.pc, [Jmp(n)])
    ensures Live(p, c) && Step(p, c) == Run(c.pc + 1 + n, c.r, c.up, c.log)
  {
    assert p.code[c.pc + 0] == [Jmp(n)][0];
  }

  /** Decide a condition: fall through when it is true, else jump over `skip` instructions. */
  lemma CondJumpSim(p: Prog, sc: Scope, st: Store, c: Conf, cond: Expr, skip: int, cs: CS) returns (r': Regs, j: Conf)
    requires Ready(sc, st, c, cs)
    requires var g := CCond(sc, cond, false, cs); Placed(p, c.pc, g) && At(p, c.pc + |g.code|, [Jmp(skip)])
    ensures var g := CCond(sc, cond, false, cs);
            var out := Eval(p.o, st, c.log, cond);
            && Ends(p, c, c.pc + |g.code| + 1 + (if out.Val? && Truthy(out.v) then 0 else skip), out, r')
            && (out.Val? ==> KeepsAll(c.r, r', cs.free))
            && (out.Val? && !Truthy(out.v) ==> JumpsTo(p, c, j, After(c, c.pc + |g.code| + 1 + skip, out, r')))
  {
    hide Reaches, At, Matches, RegTop, CCond, Eval;
    j := c;
    var g := CCond(sc, cond, false, cs);
    r' := CondSim(p, sc, st, c, cond, false, cs);
    var out := Eval(p.o, st, c.log, cond);
    if out.Val? && !Truthy(out.v) {
      j := After(c, c.pc + |g.code|, out, r');
      JumpSim(p, j, skip);
      JumpIsStep(p, j, skip);
      EndsTrans(p, c, j.pc, out, r', j.pc + 1 + skip, out, r');
    }
  }

  /** The guard of an if, in its constant and general forms. */
  lemma GuardSim(p: Prog, sc: Scope, st: Store, c: Conf, cond: Expr, skip: nat, cs: CS) returns (r': Regs)
    requires Ready(sc, st, c, cs) && Placed(p, c.pc, CGuard(sc, cond, skip, cs))
    ensures var g := CGuard(sc, cond, skip, cs);
            var out := Eval(p.o, st, c.log, cond);
            && Ends(p, c, c.pc + |g.code| + (if out.Val? && Truthy(out.v) then 0 else skip), out, r')
            && (out.Val? ==> KeepsAll(c.r, r', cs.free))
  {
    hide Reaches, At, Matches, RegTop, CCond;
    if IsConstTrue(cond) {
      r' := c.r;
      ReachesRefl(p, c);
    } else if IsConstFalsy(cond) {
      r' := c.r;
      JumpSim(p, c, skip);
    } else {
      PlacedPart(p, c.pc, CGuard(sc, cond, skip, cs), CCond(sc, cond, false, cs), [Jmp(skip)]);
      var j: Conf;
      r', j := CondJumpSim(p, sc, st, c, cond, skip, cs);
    }
  }

  // -- results -----------------------------------------------------------------------------

  ghost predicate Sims(fuel: nat, p: Prog, c: Conf, pcEnd: int, brk: int, res: Res, sc: Scope, ln: Option<nat>, r': Regs) {
    match res
    case Normal(st, log) => Reaches(p, c, Run(pcEnd, r', st.up, log)) && Matches(sc, st, r')
    case Broke(st, log) =>
      && ln.Some? && ln.value <= |sc| && ln.value <= |st.vars|
      && Reaches(p, c, Run(brk, r', st.up, log)) && Matches(sc[..ln.value], st.(vars := st.vars[..ln.value]), r')
    case Failed(log) => Reaches(p, c, Raised(log))
    case Unfinished => RunsFor(p, c, fuel)
  }

  lemma SimsFrom(fuel: nat, p: Prog, c: Conf, c1: Conf, pcEnd: int, brk: int, res: Res, sc: Scope, ln: Option<nat>, r': Regs)
    requires Reaches(p, c, c1) && Sims(fuel, p, c1, pcEnd, brk, res, sc, ln, r')
    ensures Sims(fuel, p, c, pcEnd, brk, res, sc, ln, r')
  {
    hide Reaches, Matches;
    match res
    case Normal(st, log) => ReachesTrans(p, c, c1, Run(pcEnd, r', st.up, log));
    case Broke(st, log) => ReachesTrans(p, c, c1, Run(brk, r', st.up, log));
    case Failed(log) => ReachesTrans(p, c, c1, Raised(log));
    case Unfinished => RunsFromEarlier(p, c, c1, fuel);
  }

  /** One more round of a loop: at least the jump back was executed. */
  lemma SimsRound(fuel: nat, p: Prog, c: Conf, j: Conf, c1: Conf, pcEnd: int, brk: int, res: Res, sc: Scope, ln: Option<nat>, r': Regs)
    requires fuel > 0 && JumpsTo(p, c, j, c1) && Sims(fuel - 1, p, c1, pcEnd, brk, res, sc, ln, r')
    ensures Sims(fuel, p, c, pcEnd, brk, res, sc, ln, r')
  {
    hide Reaches, Matches, Live, Step, RunsFor;
    ReachesStep(p, j);
    ReachesTrans(p, c, j, c1);
    match res
    case Normal(st, log) => ReachesTrans(p, c, c1, Run(pcEnd, r', st.up, log));
    case Broke(st, log) => ReachesTrans(p, c, c1, Run(brk, r', st.up, log));
    case Failed(log) => ReachesTrans(p, c, c1, Raised(log));
    case Unfinished =>
      RunsOneMore(p, j, fuel - 1);
      RunsFromEarlier(p, c, j, fuel);
  }

  /** The outer locals still match after inner ones are dropped. */
  lemma MatchesTruncated(sc: Scope, sc2: Scope, st: Store, r: Regs)
    requires Dense(sc) && sc <= sc2 && Matches(sc2, st, r)
    ensures Matches(sc, st.(vars := st.vars[..|sc|]), r)
  {
    hide RegTop;
    DenseTop(sc);
    forall i | 0 <= i < |sc| ensures sc[i] == sc2[i] {
    }
  }

  ghost predicate InLoop(sc: Scope, ln: Option<nat>) {
    ln.Some? ==> ln.value <= |sc|
  }

  /** Ready to compile a statement: its code is in place and nothing went wrong. */
  ghost predicate PlacedS(p: Prog, pc: int, f: SFrag, brk: int) {
    AtS(p, pc, f.code, brk) && f.cs.consts <= p.consts && f.cs.err == NoError
  }

  lemma {:induction false} StmtDense(sc: Scope, s: Stmt, ln: Option<nat>, cs: CS)
    requires ParsedStmt(s) && Dense(sc) && cs.free == RegTop(sc)
    ensures Dense(CStmt(sc, s, ln, cs).sc)
  {
    hide RegTop, CToReg, CLocalValues;
    if s.Local? {
      NewLocalsDense(sc, s.names, s.consts, InlineLast(s.names, s.consts, s.values));
    }
  }

  lemma {:induction false} BlockDense(sc: Scope, b: Block, ln: Option<nat>, cs: CS)
    requires Parsed(b) && Dense(sc) && cs.free == RegTop(sc)
    ensures Dense(CBlock(sc, b, ln, cs).sc)
    ensures CBlock(sc, b, ln, cs).cs.free == RegTop(CBlock(sc, b, ln, cs).sc)
    decreases b
  {
    hide RegTop, CStmt;
    if b.BCons? && cs.err == NoError {
      var g := CStmt(sc, b.s, ln, cs);
      StmtDense(sc, b.s, ln, cs);
      BlockDense(g.sc, b.rest, ln, g.cs.(free := RegTop(g.sc)));
    }
  }

  // -- the main results ------------------------------------------------------------------------

  lemma {:induction false} BlockSim(fuel: nat, p: Prog, sc: Scope, st: Store, c: Conf, b: Block, ln: Option<nat>, cs: CS, brk: int) returns (r': Regs)
    requires Parsed(b) && AtRest(sc, st, c, cs) && InLoop(sc, ln) && PlacedS(p, c.pc, CBlock(sc, b, ln, cs), brk)
    ensures var f := CBlock(sc, b, ln, cs);
            Sims(fuel, p, c, c.pc + |f.code|, brk, ExecBlock(fuel, p.o, st, c.log, b), f.sc, ln, r')
    decreases fuel, b, 2
  {
    hide Reaches, AtS, Matches, RegTop, CStmt, Dense, ExecStmt;
    var f := CBlock(sc, b, ln, cs);
    match b
    case BNil =>
      r' := c.r;
      ReachesRefl(p, c);
    case BCons(s, rest) =>
      var g := CStmt(sc, s, ln, cs);
      var cs1 := g.cs.(free := RegTop(g.sc));
      var h := CBlock(g.sc, rest, ln, cs1);
      AtSSplit(p, c.pc, g.code, h.code, brk);
      StmtDense(sc, s, ln, cs);
      r' := OneStmtSim(fuel, p, sc, st, c, s, ln, cs, brk);
      var res := ExecStmt(fuel, p.o, st, c.log, s);
      match res
      case Normal(st2, log2) =>
        var c1 := Run(c.pc + |g.code|, r', st2.up, log2);
        r' := BlockSim(fuel, p, g.sc, st2, c1, rest, ln, cs1, brk);
        SimsFrom(fuel, p, c, c1, c.pc + |f.code|, brk, ExecBlock(fuel, p.o, st2, log2, rest), f.sc, ln, r');
      case Broke(_, _) => assert g.sc[..ln.value] == f.sc[..ln.value];
      case _ =>
  }

  lemma {:induction false} ScopeSim(fuel: nat, p: Prog, sc: Scope, st: Store, c: Conf, b: Block, ln: Option<nat>, cs: CS, brk: int) returns (r': Regs)
    requires Parsed(b) && AtRest(sc, st, c, cs) && InLoop(sc, ln) && PlacedS(p, c.pc, CScope(sc, b, ln, cs), brk)
    ensures var f := CScope(sc, b, ln, cs);
            Sims(fuel, p, c, c.pc + |f.code|, brk, ExecScope(fuel, p.o, st, c.log, b), sc, ln, r')
    decreases fuel, b, 3
  {
    hide Reaches, AtS, RegTop, CBlock, Dense, ExecBlock;
    var g := CBlock(sc, b, ln, cs);
    r' := BlockSim(fuel, p, sc, st, c, b, ln, cs, brk);
    match ExecBlock(fuel, p.o, st, c.log, b)
    case Normal(st2, _) => MatchesTruncated(sc, g.sc, st2, r');
    case Broke(_, _) => assert g.sc[..ln.value] == sc[..ln.value];
    case _ =>
  }

  lemma SimsSimple(fuel: nat, p: Prog, c: Conf, pcEnd: int, brk: int, res: Res, sc: Scope, ln: Option<nat>, r': Regs)
    requires (res.Normal? || res.Failed?) && Simulates(p, c, pcEnd, res, sc, r')
    ensures Sims(fuel, p, c, pcEnd, brk, res, sc, ln, r')
  {
  }

  lemma {:induction false} StoreAllEnds(o: Oracle, st: Store, log: Log, ps: seq<Place>, vs: seq<Value>)
    requires |ps| == |vs|
    ensures StoreAll(o, st, log, ps, vs).Normal? || StoreAll(o, st, log, ps, vs).Failed?
    decreases |ps|
  {
    if ps != [] {
      var r := StoreAt(o, st, log, ps[|ps| - 1], vs[|vs| - 1]);
      if r.Normal? {
        StoreAllEnds(o, r.st, r.log, ps[..|ps| - 1], vs[..|vs| - 1]);
      }
    }
  }

  lemma AssignEnds(o: Oracle, st: Store, log: Log, targets: seq<Expr>, values: seq<Expr>)
    ensures ExecAssign(o, st, log, targets, values).Normal? || ExecAssign(o, st, log, targets, values).Failed?
  {
    match EvalPlaces(o, st, log, targets)
    case PlacesErr(_) =>
    case Places(l, ps) =>
      match EvalList(o, st, l, values)
      case ErrList(_) =>
      case Vals(l2, vs) => StoreAllEnds(o, st, l2, ps, Adjust(vs, |ps|));
  }

  lemma AssignStmtSim(fuel: nat, p: Prog, sc: Scope, st: Store, c: Conf, targets: seq<Expr>, values: seq<Expr>, ln: Option<nat>, cs: CS, brk: int) returns (r': Regs)
    requires |targets| > 0 && |values| > 0 && AtRest(sc, st, c, cs) && Placed(p, c.pc, CAssign(sc, targets, values, cs))
    ensures Sims(fuel, p, c, c.pc + |CAssign(sc, targets, values, cs).code|, brk, ExecAssign(p.o, st, c.log, targets, values), sc, ln, r')
  {
    hide Reaches, At, RegTop, Dense, Matches, CMulti, CSingle, ExecAssign;
    if |targets| == 1 && |values| == 1 {
      assert targets == [targets[0]] && values == [values[0]];
      r' := SingleSim(p, sc, st, c, targets[0], values[0], cs);
    } else {
      r' := MultiAssignSim(p, sc, st, c, targets, values, cs);
    }
    AssignEnds(p.o, st, c.log, targets, values);
    SimsSimple(fuel, p, c, c.pc + |CAssign(sc, targets, values, cs).code|, brk, ExecAssign(p.o, st, c.log, targets, values), sc, ln, r');
  }

  /** Statement by statement. */
  lemma {:induction false} OneStmtSim(fuel: nat, p: Prog, sc: Scope, st: Store, c: Conf, s: Stmt, ln: Option<nat>, cs: CS, brk: int) returns (r': Regs)
    requires ParsedStmt(s) && AtRest(sc, st, c, cs) && InLoop(sc, ln) && PlacedS(p, c.pc, CStmt(sc, s, ln, cs), brk)
    ensures var f := CStmt(sc, s, ln, cs);
            Sims(fuel, p, c, c.pc + |f.code|, brk, ExecStmt(fuel, p.o, st, c.log, s), f.sc, ln, r')
    decreases fuel, s, 5
  {
    hide Reaches, At, AtS, RegTop, CScope, Dense, Matches, CLocal, CAssign, CIf, ExecLocal, ExecAssign, ExecScope, Eval;
    var f := CStmt(sc, s, ln, cs);
    match s
    case Local(names, consts, values) =>
      var code := LocalCode(sc, names, consts, values, cs);
      AtSLift(p, c.pc, code, brk);
      r' := LocalSim(p, sc, st, c, names, consts, values, cs);
      LocalEnds(p.o, st, c.log, names, values);
      SimsSimple(fuel, p, c, c.pc + |f.code|, brk, ExecLocal(p.o, st, c.log, names, values), f.sc, ln, r');
    case Assign(targets, values) =>
      AtSLift(p, c.pc, CAssign(sc, targets, values, cs).code, brk);
      r' := AssignStmtSim(fuel, p, sc, st, c, targets, values, ln, cs, brk);
    case Do(body) => r' := ScopeSim(fuel, p, sc, st, c, body, ln, cs, brk);
    case Empty =>
      r' := c.r;
      ReachesRefl(p, c);
    case Break => r' := BreakSim(fuel, p, sc, st, c, ln, cs, brk);
    case If(_, _, _) => r' := IfSim(fuel, p, sc, st, c, s, ln, cs, brk);
    case While(_, _) => r' := WhileSim(fuel, p, sc, st, c, s, ln, cs, brk);
    case Repeat(_, _) => r' := RepeatSim(fuel, p, sc, st, c, s, ln, cs, brk);
  }

  lemma LocalEnds(o: Oracle, st: Store, log: Log, names: seq<string>, values: seq<Expr>)
    ensures ExecLocal(o, st, log, names, values).Normal? || ExecLocal(o, st, log, names, values).Failed?
  {
  }

  lemma BreakSim(fuel: nat, p: Prog, sc: Scope, st: Store, c: Conf, ln: Option<nat>, cs: CS, brk: int) returns (r': Regs)
    requires AtRest(sc, st, c, cs) && InLoop(sc, ln) && PlacedS(p, c.pc, CStmt(sc, Break, ln, cs), brk)
    ensures Sims(fuel, p, c, c.pc + |CStmt(sc, Break, ln, cs).code|, brk, Broke(st, c.log), sc, ln, r')
  {
    hide RegTop, Dense;
    var f := CStmt(sc, Break, ln, cs);
    assert p.code[c.pc + 0] == Jmp(brk - (c.pc + 0 + 1)) by {
      assert f.code[0] == BreakJump;
    }
    r' := c.r;
    ReachesStep(p, c);
    DensePrefix(sc, ln.value);
    MatchesTruncated(sc[..ln.value], sc, st, r');
  }

  /** The rest of an if: the first true condition selects its block. */
  lemma {:induction false} TailSim(fuel: nat, p: Prog, sc: Scope, st: Store, c: Conf, t: Tail, ln: Option<nat>, cs: CS, brk: int) returns (r': Regs)
    requires ParsedTail(t) && AtRest(sc, st, c, cs) && InLoop(sc, ln) && PlacedS(p, c.pc, CTail(sc, t, ln, cs), brk)
    ensures Sims(fuel, p, c, c.pc + |CTail(sc, t, ln, cs).code|, brk, ExecTail(fuel, p.o, st, c.log, t), sc, ln, r')
    decreases fuel, t, 4
  {
    hide Reaches, At, AtS, RegTop, CScope, Dense, Matches, CCond, ExecScope, Eval;
    match t
    case NoElse =>
      r' := c.r;
      ReachesRefl(p, c);
    case Else(body) => r' := ScopeSim(fuel, p, sc, st, c, body, ln, cs, brk);
    case ElseIf(cond, body, rest) =>
      RestReady(sc, st, c, cs);
      var g := CCond(sc, cond, false, cs);
      var h := CScope(sc, body, ln, g.cs);
      var k := CTail(sc, rest, ln, h.cs);
      var (pg, ph) := (c.pc + |g.code|, c.pc + |g.code| + 1);
      TailParts(p, c.pc, g, h, k, brk);
      var j: Conf;
      r', j := CondJumpSim(p, sc, st, c, cond, |h.code| + 1, cs);
      var out := Eval(p.o, st, c.log, cond);
      if out.Val? {
        var r1 := r';
        MatchesKept(sc, st, c.r, r1);
        var pcEnd := ph + |h.code| + 1 + |k.code|;
        if Truthy(out.v) {
          var c1 := After(c, ph, out, r1);
          r' := ScopeSim(fuel, p, sc, st, c1, body, ln, g.cs, brk);
          var res := ExecScope(fuel, p.o, st, c1.log, body);
          if res.Normal? {
            var c2 := Run(ph + |h.code|, r', res.st.up, res.log);
            JumpSim(p, c2, |k.code|);
            ReachesTrans(p, c1, c2, Run(pcEnd, r', res.st.up, res.log));
          }
          SimsFrom(fuel, p, c, c1, pcEnd, brk, res, sc, ln, r');
        } else {
          var c1 := After(c, ph + |h.code| + 1, out, r1);
          r' := TailSim(fuel, p, sc, st, c1, rest, ln, h.cs, brk);
          SimsFrom(fuel, p, c, c1, pcEnd, brk, ExecTail(fuel, p.o, st, c1.log, rest), sc, ln, r');
        }
      }
  }

  lemma TailParts(p: Prog, pc: int, g: Frag, h: SFrag, k: SFrag, brk: int)
    requires AtS(p, pc, Lift(g.code + [Jmp(|h.code| + 1)]) + h.code + Lift([Jmp(|k.code|)]) + k.code, brk)
    ensures At(p, pc, g.code) && At(p, pc + |g.code|, [Jmp(|h.code| + 1)])
    ensures AtS(p, pc + |g.code| + 1, h.code, brk)
    ensures At(p, pc + |g.code| + 1 + |h.code|, [Jmp(|k.code|)])
    ensures AtS(p, pc + |g.code| + 1 + |h.code| + 1, k.code, brk)
  {
    var a := g.code + [Jmp(|h.code| + 1)];
    AtSSplit(p, pc, Lift(a) + h.code + Lift([Jmp(|k.code|)]), k.code, brk);
    AtSSplit(p, pc, Lift(a) + h.code, Lift([Jmp(|k.code|)]), brk);
    AtSSplit(p, pc, Lift(a), h.code, brk);
    AtSLift(p, pc, a, brk);
    AtSplit(p, pc, g.code, [Jmp(|h.code| + 1)]);
    AtSLift(p, pc + |a| + |h.code|, [Jmp(|k.code|)], brk);
  }

  lemma IfParts(p: Prog, pc: int, g: Frag, h: SFrag, exit: seq<Instr>, k: SFrag, brk: int)
    requires AtS(p, pc, Lift(g.code) + h.code + Lift(exit) + k.code, brk)
    ensures At(p, pc, g.code)
    ensures AtS(p, pc + |g.code|, h.code, brk)
    ensures At(p, pc + |g.code| + |h.code|, exit)
    ensures AtS(p, pc + |g.code| + |h.code| + |exit|, k.code, brk)
  {
    AtSSplit(p, pc, Lift(g.code) + h.code + Lift(exit), k.code, brk);
    AtSSplit(p, pc, Lift(g.code) + h.code, Lift(exit), brk);
    AtSSplit(p, pc, Lift(g.code), h.code, brk);
    AtSLift(p, pc, g.code, brk);
    AtSLift(p, pc + |g.code| + |h.code|, exit, brk);
  }

  lemma {:induction false} IfSim(fuel: nat, p: Prog, sc: Scope, st: Store, c: Conf, s: Stmt, ln: Option<nat>, cs: CS, brk: int) returns (r': Regs)
    requires s.If? && ParsedStmt(s) && AtRest(sc, st, c, cs) && InLoop(sc, ln) && PlacedS(p, c.pc, CIf(sc, s, ln, cs), brk)
    ensures Sims(fuel, p, c, c.pc + |CIf(sc, s, ln, cs).code|, brk, ExecStmt(fuel, p.o, st, c.log, s), sc, ln, r')
    decreases fuel, s, 4
  {
    hide Reaches, At, AtS, RegTop, CScope, CTail, Dense, Matches, CGuard, ExecScope, ExecTail, Eval;
    RestReady(sc, st, c, cs);
    var h := CScope(sc, s.thn, ln, CGuard(sc, s.cond, 0, cs).cs);
    var k := CTail(sc, s.tail, ln, h.cs);
    var exit := if s.tail.NoElse? then [] else [Jmp(|k.code|)];
    var skip := |h.code| + |exit|;
    var g := CGuard(sc, s.cond, skip, cs);
    GuardCs(sc, s.cond, skip, cs);
    IfParts(p, c.pc, g, h, exit, k, brk);
    NoElseEmpty(sc, s.tail, ln, h.cs);
    r' := GuardSim(p, sc, st, c, s.cond, skip, cs);
    var out := Eval(p.o, st, c.log, s.cond);
    if out.Val? {
      var r1 := r';
      MatchesKept(sc, st, c.r, r1);
      var ph := c.pc + |g.code|;
      var pcEnd := ph + skip + |k.code|;
      if Truthy(out.v) {
        var c1 := After(c, ph, out, r1);
        r' := ScopeSim(fuel, p, sc, st, c1, s.thn, ln, g.cs, brk);
        var res := ExecScope(fuel, p.o, st, c1.log, s.thn);
        if res.Normal? && !s.tail.NoElse? {
          var c2 := Run(ph + |h.code|, r', res.st.up, res.log);
          JumpSim(p, c2, |k.code|);
          ReachesTrans(p, c1, c2, Run(pcEnd, r', res.st.up, res.log));
        }
        SimsFrom(fuel, p, c, c1, pcEnd, brk, res, sc, ln, r');
      } else {
        var c1 := After(c, ph + skip, out, r1);
        r' := TailSim(fuel, p, sc, st, c1, s.tail, ln, h.cs, brk);
        SimsFrom(fuel, p, c, c1, pcEnd, brk, ExecTail(fuel, p.o, st, c1.log, s.tail), sc, ln, r');
      }
    }
  }

  lemma GuardCs(sc: Scope, cond: Expr, skip: nat, cs: CS)
    ensures CGuard(sc, cond, skip, cs).cs == CGuard(sc, cond, 0, cs).cs
  {
  }

  lemma {:induction false} NoElseEmpty(sc: Scope, t: Tail, ln: Option<nat>, cs: CS)
    requires ParsedTail(t)
    ensures t.NoElse? ==> CTail(sc, t, ln, cs).code == []
  {
  }

  // -- loops ---------------------------------------------------------------------------------

  lemma WhileParts(p: Prog, pc: int, g: Frag, h: SFrag, back: int, brk: int)
    requires AtS(p, pc, ResolveBreaks(Lift(g.code + [Jmp(|h.code| + 1)]) + h.code + [Op(Jmp(back))]), brk)
    ensures At(p, pc, g.code) && At(p, pc + |g.code|, [Jmp(|h.code| + 1)])
    ensures AtS(p, pc + |g.code| + 1, h.code, pc + |g.code| + |h.code| + 2)
    ensures At(p, pc + |g.code| + 1 + |h.code|, [Jmp(back)])
  {
    var a := g.code + [Jmp(|h.code| + 1)];
    var all := Lift(a) + h.code + [Op(Jmp(back))];
    AtSResolve(p, pc, all, brk);
    AtSSplit(p, pc, Lift(a) + h.code, [Op(Jmp(back))], pc + |all|);
    AtSSplit(p, pc, Lift(a), h.code, pc + |all|);
    AtSLift(p, pc, a, pc + |all|);
    AtSplit(p, pc, g.code, [Jmp(|h.code| + 1)]);
    AtSOp(p, pc + |a| + |h.code|, Jmp(back), pc + |all|);
  }

  lemma ForeverParts(p: Prog, pc: int, h: SFrag, back: int, brk: int)
    requires AtS(p, pc, ResolveBreaks(h.code + [Op(Jmp(back))]), brk)
    ensures AtS(p, pc, h.code, pc + |h.code| + 1) && At(p, pc + |h.code|, [Jmp(back)])
  {
    AtSResolve(p, pc, h.code + [Op(Jmp(back))], brk);
    AtSSplit(p, pc, h.code, [Op(Jmp(back))], pc + |h.code| + 1);
    AtSOp(p, pc + |h.code|, Jmp(back), pc + |h.code| + 1);
  }

  lemma {:induction false} LoopScope(sc: Scope, s: Stmt, ln: Option<nat>, cs: CS)
    requires (s.While? || s.Repeat?) && ParsedStmt(s)
    ensures CStmt(sc, s, ln, cs).sc == sc
  {
  }

  /** After one pass of the body: go round again, or leave. */
  lemma {:induction false} LoopBack(fuel: nat, p: Prog, sc: Scope, st: Store, c: Conf, c1: Conf, s: Stmt, ln: Option<nat>, cs: CS, brk: int, pcEnd: int, backPc: int, r1: Regs) returns (r': Regs)
    requires s.While? && ParsedStmt(s) && AtRest(sc, st, c, cs) && InLoop(sc, ln) && PlacedS(p, c.pc, CStmt(sc, s, ln, cs), brk)
    requires pcEnd == c.pc + |CStmt(sc, s, ln, cs).code| && c1.Run? && Reaches(p, c, c1) && c1.up == st.up
    requires Eval(p.o, st, c.log, s.cond).Val? && Truthy(Eval(p.o, st, c.log, s.cond).v) && c1.log == Eval(p.o, st, c.log, s.cond).log
    requires Sims(fuel, p, c1, backPc, pcEnd, ExecScope(fuel, p.o, st, c1.log, s.body), sc, Some(|sc|), r1)
    requires At(p, backPc, [Jmp(c.pc - (backPc + 1))])
    ensures Sims(fuel, p, c, pcEnd, brk, ExecStmt(fuel, p.o, st, c.log, s), sc, ln, r')
    decreases fuel, s, 2
  {
    hide Reaches, At, AtS, RegTop, Dense, Eval, CStmt, ExecScope;
    r' := r1;
    var res := ExecScope(fuel, p.o, st, c1.log, s.body);
    match res
    case Normal(st2, log2) =>
      if fuel > 0 {
        var c2 := Run(backPc, r1, st2.up, log2);
        JumpIsStep(p, c2, c.pc - (backPc + 1));
        var c3 := Run(c.pc, r1, st2.up, log2);
        ReachesTrans(p, c, c1, c2);
        LoopScope(sc, s, ln, cs);
        r' := OneStmtSim(fuel - 1, p, sc, st2, c3, s, ln, cs, brk);
        SimsRound(fuel, p, c, c2, c3, pcEnd, brk, ExecStmt(fuel - 1, p.o, st2, log2, s), sc, ln, r');
      }
    case Broke(st2, log2) =>
      assert sc[..|sc|] == sc;
      ReachesTrans(p, c, c1, Run(pcEnd, r1, st2.up, log2));
    case Failed(log2) => ReachesTrans(p, c, c1, Raised(log2));
    case Unfinished => RunsFromEarlier(p, c, c1, fuel);
  }

  lemma {:induction false} WhileSim(fuel: nat, p: Prog, sc: Scope, st: Store, c: Conf, s: Stmt, ln: Option<nat>, cs: CS, brk: int) returns (r': Regs)
    requires s.While? && ParsedStmt(s) && AtRest(sc, st, c, cs) && InLoop(sc, ln) && PlacedS(p, c.pc, CStmt(sc, s, ln, cs), brk)
    ensures Sims(fuel, p, c, c.pc + |CStmt(sc, s, ln, cs).code|, brk, ExecStmt(fuel, p.o, st, c.log, s), sc, ln, r')
    decreases fuel, s, 4
  {
    hide Reaches, At, AtS, RegTop, Dense, CScope, CCond, ExecScope, Matches, FindLocal, ExecBlock, CToReg;
    RestReady(sc, st, c, cs);
    var f := CStmt(sc, s, ln, cs);
    if IsConstTrue(s.cond) {
      var h := CScope(sc, s.body, Some(|sc|), cs);
      var back := -(|h.code| + 1);
      ForeverParts(p, c.pc, h, back, brk);
      r' := ScopeSim(fuel, p, sc, st, c, s.body, Some(|sc|), cs, c.pc + |f.code|);
      ReachesRefl(p, c);
      r' := LoopBack(fuel, p, sc, st, c, c, s, ln, cs, brk, c.pc + |f.code|, c.pc + |h.code|, r');
    } else {
      var g := CCond(sc, s.cond, false, cs);
      var h := CScope(sc, s.body, Some(|sc|), g.cs);
      WhileParts(p, c.pc, g, h, -(|g.code| + |h.code| + 2), brk);
      var j: Conf;
      r', j := CondJumpSim(p, sc, st, c, s.cond, |h.code| + 1, cs);
      var out := Eval(p.o, st, c.log, s.cond);
      if out.Val? {
        var r1 := r';
        MatchesKept(sc, st, c.r, r1);
        if Truthy(out.v) {
          var c1 := After(c, c.pc + |g.code| + 1, out, r1);
          r' := ScopeSim(fuel, p, sc, st, c1, s.body, Some(|sc|), g.cs, c.pc + |f.code|);
          r' := LoopBack(fuel, p, sc, st, c, c1, s, ln, cs, brk, c.pc + |f.code|, c1.pc + |h.code|, r');
        }
      }
    }
  }

  lemma RepeatParts(p: Prog, pc: int, h: SFrag, g: Frag, back: int, brk: int)
    requires AtS(p, pc, ResolveBreaks(h.code + Lift(g.code + [Jmp(back)])), brk)
    ensures AtS(p, pc, h.code, pc + |h.code| + |g.code| + 1)
    ensures At(p, pc + |h.code|, g.code) && At(p, pc + |h.code| + |g.code|, [Jmp(back)])
  {
    var a := g.code + [Jmp(back)];
    AtSResolve(p, pc, h.code + Lift(a), brk);
    AtSSplit(p, pc, h.code, Lift(a), pc + |h.code| + |a|);
    AtSLift(p, pc + |h.code|, a, pc + |h.code| + |a|);
    AtSplit(p, pc + |h.code|, g.code, [Jmp(back)]);
  }

  /** The body of a repeat has run; the condition, which still sees its locals, is next. */
  lemma {:induction false} RepeatBack(fuel: nat, p: Prog, sc: Scope, st: Store, c: Conf, s: Stmt, ln: Option<nat>, cs: CS, brk: int, sc2: Scope, st2: Store, j: Conf, c2: Conf, v: Value, pcEnd: int) returns (r': Regs)
    requires s.Repeat? && ParsedStmt(s) && AtRest(sc, st, c, cs) && InLoop(sc, ln) && PlacedS(p, c.pc, CStmt(sc, s, ln, cs), brk)
    requires pcEnd == c.pc + |CStmt(sc, s, ln, cs).code| && c2.Run? && Reaches(p, c, c2) && c2.up == st2.up
    requires sc <= sc2 && |sc| <= |st2.vars| && Matches(sc2, st2, c2.r) && c2.pc == if Truthy(v) then pcEnd else c.pc
    requires Truthy(v) || (fuel > 0 && JumpsTo(p, c, j, c2))
    ensures var st3 := st2.(vars := st2.vars[..|st.vars|]);
            Sims(fuel, p, c, pcEnd, brk, if Truthy(v) then Normal(st3, c2.log) else ExecStmt(fuel - 1, p.o, st3, c2.log, s), sc, ln, r')
    decreases fuel, s, 2
  {
    hide Reaches, At, AtS, RegTop, Eval, CStmt, ExecStmt;
    var st3 := st2.(vars := st2.vars[..|st.vars|]);
    MatchesTruncated(sc, sc2, st2, c2.r);
    r' := c2.r;
    if !Truthy(v) {
      LoopScope(sc, s, ln, cs);
      r' := OneStmtSim(fuel - 1, p, sc, st3, c2, s, ln, cs, brk);
      SimsRound(fuel, p, c, j, c2, pcEnd, brk, ExecStmt(fuel - 1, p.o, st3, c2.log, s), sc, ln, r');
    }
  }

  /** The condition of a repeat and the jump back, in all three forms. */
  lemma RepeatCond(p: Prog, sc2: Scope, st2: Store, c1: Conf, cond: Expr, cs2: CS, start: int, pcEnd: int) returns (r': Regs, j: Conf)
    requires Ready(sc2, st2, c1, cs2)
    requires if IsConstTrue(cond) then pcEnd == c1.pc
             else if IsConstFalsy(cond) then At(p, c1.pc, [Jmp(start - (c1.pc + 1))])
             else var g := CCond(sc2, cond, false, cs2);
                  Placed(p, c1.pc, g) && At(p, c1.pc + |g.code|, [Jmp(start - (c1.pc + |g.code| + 1))]) && pcEnd == c1.pc + |g.code| + 1
    ensures var out := Eval(p.o, st2, c1.log, cond);
            && Ends(p, c1, if out.Val? && Truthy(out.v) then pcEnd else start, out, r')
            && (out.Val? ==> KeepsAll(c1.r, r', cs2.free))
            && (out.Val? && !Truthy(out.v) ==> JumpsTo(p, c1, j, After(c1, start, out, r')))
  {
    hide Reaches, At, Matches, RegTop, CCond;
    j := c1;
    if IsConstTrue(cond) {
      r' := c1.r;
      ReachesRefl(p, c1);
    } else if IsConstFalsy(cond) {
      r' := c1.r;
      ReachesRefl(p, c1);
      JumpSim(p, c1, start - (c1.pc + 1));
      JumpIsStep(p, c1, start - (c1.pc + 1));
    } else {
      r', j := CondJumpSim(p, sc2, st2, c1, cond, start - pcEnd, cs2);
    }
  }

  lemma {:induction false} RepeatSim(fuel: nat, p: Prog, sc: Scope, st: Store, c: Conf, s: Stmt, ln: Option<nat>, cs: CS, brk: int) returns (r': Regs)
    requires s.Repeat? && ParsedStmt(s) && AtRest(sc, st, c, cs) && InLoop(sc, ln) && PlacedS(p, c.pc, CStmt(sc, s, ln, cs), brk)
    ensures Sims(fuel, p, c, c.pc + |CStmt(sc, s, ln, cs).code|, brk, ExecStmt(fuel, p.o, st, c.log, s), sc, ln, r')
    decreases fuel, s, 4
  {
    hide Reaches, At, AtS, RegTop, Dense, CBlock, CCond, ExecBlock, Matches, Eval;
    var f := CStmt(sc, s, ln, cs);
    var pcEnd := c.pc + |f.code|;
    var h := CBlock(sc, s.body, Some(|sc|), cs);
    RepeatPlaced(p, c.pc, sc, s, ln, cs, brk);
    BlockDense(sc, s.body, Some(|sc|), cs);
    r' := BlockSim(fuel, p, sc, st, c, s.body, Some(|sc|), cs, pcEnd);
    match ExecBlock(fuel, p.o, st, c.log, s.body)
    case Normal(st2, log2) =>
      var c1 := Run(c.pc + |h.code|, r', st2.up, log2);
      RestReady(h.sc, st2, c1, h.cs);
      MatchesSize(sc, h.sc, st, st2, c.r, r');
      var j: Conf;
      r', j := RepeatCond(p, h.sc, st2, c1, s.cond, h.cs, c.pc, pcEnd);
      var out := Eval(p.o, st2, log2, s.cond);
      if out.Err? {
        ReachesTrans(p, c, c1, Raised(out.log));
      } else {
        var c2 := After(c1, if Truthy(out.v) then pcEnd else c.pc, out, r');
        ReachesTrans(p, c, c1, c2);
        MatchesKept(h.sc, st2, c1.r, r');
        if Truthy(out.v) || fuel > 0 {
          if !Truthy(out.v) {
            ReachesTrans(p, c, c1, j);
          }
          r' := RepeatBack(fuel, p, sc, st, c, s, ln, cs, brk, h.sc, st2, j, c2, out.v, pcEnd);
        }
      }
    case Broke(st2, _) =>
      assert h.sc[..|sc|] == sc;
      MatchesSize(sc, sc, st, st, c.r, c.r);
    case _ =>
  }

  lemma MatchesSize(sc: Scope, sc2: Scope, st: Store, st2: Store, r: Regs, r2: Regs)
    requires sc <= sc2 && Matches(sc, st, r) && Matches(sc2, st2, r2)
    ensures |sc| == |st.vars| && |sc| <= |st2.vars|
  {
  }

  /** The parts of a repeat, in place. */
  lemma {:induction false} RepeatPlaced(p: Prog, pc: int, sc: Scope, s: Stmt, ln: Option<nat>, cs: CS, brk: int)
    requires s.Repeat? && ParsedStmt(s) && PlacedS(p, pc, CStmt(sc, s, ln, cs), brk)
    ensures var h := CBlock(sc, s.body, Some(|sc|), cs);
            var pcEnd := pc + |CStmt(sc, s, ln, cs).code|;
            && PlacedS(p, pc, h, pcEnd)
            && (if IsConstTrue(s.cond) then pcEnd == pc + |h.code|
                else if IsConstFalsy(s.cond) then At(p, pc + |h.code|, [Jmp(pc - (pc + |h.code| + 1))])
                else var g := CCond(h.sc, s.cond, false, h.cs);
                     && Placed(p, pc + |h.code|, g)
                     && At(p, pc + |h.code| + |g.code|, [Jmp(pc - (pc + |h.code| + |g.code| + 1))])
                     && pcEnd == pc + |h.code| + |g.code| + 1)
  {
    hide At, AtS, RegTop, CBlock, CCond;
    var h := CBlock(sc, s.body, Some(|sc|), cs);
    if IsConstTrue(s.cond) {
      AtSResolve(p, pc, h.code, brk);
    } else if IsConstFalsy(s.cond) {
      ForeverParts(p, pc, h, -(|h.code| + 1), brk);
    } else {
      var g := CCond(h.sc, s.cond, false, h.cs);
      RepeatParts(p, pc, h, g, -(|h.code| + |g.code| + 1), brk);
    }
  }
}
