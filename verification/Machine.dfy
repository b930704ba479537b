/**
 The register machine: the instructions the compiler model emits and one
 small-step meaning for each, after the comments of the opcode table.
*/
module Machine {
  import opened LuaValues

  datatype Instr =
    | Move(a: nat, b: nat)
    | LoadI(a: nat, i: Int64)
    | LoadK(a: nat, bx: nat)
    | LoadKX(a: nat)
    | LoadFalse(a: nat)
    | LoadTrue(a: nat)
    | LoadNil(a: nat, b: nat)
    | GetUpval(a: nat, b: nat)
    | SetUpval(a: nat, b: nat)
    | GetTabUp(a: nat, b: nat, c: nat)
    | GetTable(a: nat, b: nat, c: nat)
    | GetI(a: nat, b: nat, c: nat)
    | GetField(a: nat, b: nat, c: nat)
    | SetTabUp(a: nat, b: nat, c: nat, k: nat)
    | SetTable(a: nat, b: nat, c: nat, k: nat)
    | SetI(a: nat, b: nat, c: nat, k: nat)
    | SetField(a: nat, b: nat, c: nat, k: nat)
    | AddI(a: nat, b: nat, sc: int)
    | Arith(op: BinOp, a: nat, b: nat, c: nat)
    | MmBin(a: nat, b: nat, tm: BinOp)
    | MmBinI(a: nat, sb: int, tm: BinOp, k: nat)
    | Unary(uop: UnOp, a: nat, b: nat)
    | Close(a: nat)
    | Jmp(sj: int)
    | EqR(a: nat, b: nat, k: nat)
    | LtR(a: nat, b: nat, k: nat)
    | LeR(a: nat, b: nat, k: nat)
    | EqK(a: nat, b: nat, k: nat)
    | EqI(a: nat, sb: int, k: nat)
    | LtI(a: nat, sb: int, k: nat)
    | LeI(a: nat, sb: int, k: nat)
    | GtI(a: nat, sb: int, k: nat)
    | GeI(a: nat, sb: int, k: nat)
    | Test(a: nat, k: nat)
    | TestSet(a: nat, b: nat, k: nat)
    | ExtraArg(ax: nat)

  type Regs = map<nat, Value>

  function Get(r: Regs, i: nat): Value {
    if i in r then r[i] else Nil
  }

  function SetNils(r: Regs, a: nat, n: nat): (r': Regs)
    ensures forall i: nat :: Get(r', i) == if a <= i < a + n then Nil else Get(r, i)
    decreases n
  {
    if n == 0 then r else
      var r1 := SetNils(r, a, n - 1);
      var r2 := r1[a + n - 1 := Nil];
      assert forall i: nat :: Get(r2, i) == if i == a + n - 1 then Nil else Get(r1, i);
      r2
  }

  datatype Conf = Run(pc: int, r: Regs, up: Value, log: Log) | Raised(log: Log) | Stuck

  datatype Prog = Prog(code: seq<Instr>, consts: seq<Value>, o: Oracle)

  function Const(p: Prog, i: nat): Value {
    if i < |p.consts| then p.consts[i] else Nil
  }

  /** The register an arithmetic instruction writes: the target of the MMBIN after it. */
  function Dest(i: Instr): nat {
    match i
    case Arith(_, a, _, _) => a
    case AddI(a, _, _) => a
    case _ => 0
  }

  /** Put the value of `out` in register a and go on at pc, or raise. */
  function Put(c: Conf, out: Out, a: nat, pc: int): Conf
    requires c.Run?
  {
    match out
    case Val(l, v) => Run(pc, c.r[a := v], c.up, l)
    case Err(l) => Raised(l)
  }

  /** if (result ~= k) then pc++ */
  function Skip(c: Conf, out: Out, k: nat): Conf
    requires c.Run?
  {
    match out
    case Val(l, v) => Run(if Truthy(v) != (k != 0) then c.pc + 2 else c.pc + 1, c.r, c.up, l)
    case Err(l) => Raised(l)
  }

  function Goto(c: Conf, out: Out): Conf
    requires c.Run?
  {
    match out
    case Val(l, _) => Run(c.pc + 1, c.r, c.up, l)
    case Err(l) => Raised(l)
  }

  function RK(p: Prog, r: Regs, c: nat, k: nat): Value {
    if k != 0 then Const(p, c) else Get(r, c)
  }

  function SmallInt(i: int): Value {
    Int(Wrap(i))
  }

  function Step(p: Prog, c: Conf): Conf {
    if !c.Run? then c
    else if !(0 <= c.pc < |p.code|) then c
    else
      var r := c.r;
      var next := c.pc + 1;
      match p.code[c.pc]
      case Move(a, b) => Put(c, Val(c.log, Get(r, b)), a, next)
      case LoadI(a, i) => Put(c, Val(c.log, Int(i)), a, next)
      case LoadK(a, bx) => Put(c, Val(c.log, Const(p, bx)), a, next)
      case LoadKX(a) =>
        if next < |p.code| && p.code[next].ExtraArg?
        then Put(c, Val(c.log, Const(p, p.code[next].ax)), a, next + 1) else Stuck
      case LoadFalse(a) => Put(c, Val(c.log, Bool(false)), a, next)
      case LoadTrue(a) => Put(c, Val(c.log, Bool(true)), a, next)
      case LoadNil(a, b) => Run(next, SetNils(r, a, b + 1), c.up, c.log)
      case GetUpval(a, _) => Put(c, Val(c.log, c.up), a, next)
      case SetUpval(a, _) => Run(next, r, Get(r, a), c.log)
      case GetTabUp(a, _, k) => Put(c, Ask(p.o, c.log, EvIndex(c.up, Const(p, k))), a, next)
      case GetTable(a, b, k) => Put(c, Ask(p.o, c.log, EvIndex(Get(r, b), Get(r, k))), a, next)
      case GetI(a, b, k) => Put(c, Ask(p.o, c.log, EvIndex(Get(r, b), SmallInt(k))), a, next)
      case GetField(a, b, k) => Put(c, Ask(p.o, c.log, EvIndex(Get(r, b), Const(p, k))), a, next)
      case SetTabUp(_, b, v, k) => Goto(c, Ask(p.o, c.log, EvNewIndex(c.up, Const(p, b), RK(p, r, v, k))))
      case SetTable(a, b, v, k) => Goto(c, Ask(p.o, c.log, EvNewIndex(Get(r, a), Get(r, b), RK(p, r, v, k))))
      case SetI(a, b, v, k) => Goto(c, Ask(p.o, c.log, EvNewIndex(Get(r, a), SmallInt(b), RK(p, r, v, k))))
      case SetField(a, b, v, k) => Goto(c, Ask(p.o, c.log, EvNewIndex(Get(r, a), Const(p, b), RK(p, r, v, k))))
      // Arithmetic: an integer result skips the MMBIN that follows; anything else falls into it.
      case AddI(a, b, sc) =>
        if Get(r, b).Int? then Put(c, Val(c.log, Int(Wrap(Get(r, b).i + sc))), a, next + 1)
        else Run(next, r, c.up, c.log)
      case Arith(op, a, b, d) =>
        if !IsArith(op) then Stuck
        else if Get(r, b).Int? && Get(r, d).Int? then Put(c, ArithValue(p.o, c.log, op, Get(r, b), Get(r, d)), a, next + 1)
        else Run(next, r, c.up, c.log)
      case MmBin(a, b, tm) =>
        if c.pc == 0 then Stuck
        else Put(c, Ask(p.o, c.log, EvArith(tm, Get(r, a), Get(r, b))), Dest(p.code[c.pc - 1]), next)
      case MmBinI(a, sb, tm, k) =>
        if c.pc == 0 then Stuck
        else
          var ev := if k == 0 then EvArith(tm, Get(r, a), SmallInt(sb)) else EvArith(tm, SmallInt(sb), Get(r, a));
          Put(c, Ask(p.o, c.log, ev), Dest(p.code[c.pc - 1]), next)
      case Unary(op, a, b) => Put(c, UnaryValue(p.o, c.log, op, Get(r, b)), a, next)
      case Close(_) => Run(next, r, c.up, c.log)
      case Jmp(sj) => Run(next + sj, r, c.up, c.log)
      case EqR(a, b, k) => Skip(c, EqualValue(p.o, c.log, Get(r, a), Get(r, b)), k)
      case LtR(a, b, k) => Skip(c, LessValue(p.o, c.log, Get(r, a), Get(r, b)), k)
      case LeR(a, b, k) => Skip(c, LessEqValue(p.o, c.log, Get(r, a), Get(r, b)), k)
      case EqK(a, b, k) => Skip(c, EqualValue(p.o, c.log, Get(r, a), Const(p, b)), k)
      case EqI(a, sb, k) => Skip(c, EqualValue(p.o, c.log, Get(r, a), SmallInt(sb)), k)
      case LtI(a, sb, k) => Skip(c, LessValue(p.o, c.log, Get(r, a), SmallInt(sb)), k)
      case LeI(a, sb, k) => Skip(c, LessEqValue(p.o, c.log, Get(r, a), SmallInt(sb)), k)
      case GtI(a, sb, k) => Skip(c, LessValue(p.o, c.log, SmallInt(sb), Get(r, a)), k)
      case GeI(a, sb, k) => Skip(c, LessEqValue(p.o, c.log, SmallInt(sb), Get(r, a)), k)
      case Test(a, k) =>
        Run(if (!Truthy(Get(r, a))) == (k != 0) then next + 1 else next, r, c.up, c.log)
      case TestSet(a, b, k) =>
        if (!Truthy(Get(r, b))) == (k != 0) then Run(next + 1, r, c.up, c.log)
        else Put(c, Val(c.log, Get(r, b)), a, next)
      case ExtraArg(_) => Stuck
  }

  function StepN(p: Prog, n: nat, c: Conf): Conf {
    if n == 0 then c else StepN(p, n - 1, Step(p, c))
  }

  ghost predicate Reaches(p: Prog, c: Conf, d: Conf) {
    exists n: nat :: StepN(p, n, c) == d
  }

  lemma {:induction false} StepNAdd(p: Prog, n: nat, m: nat, c: Conf)
    ensures StepN(p, n + m, c) == StepN(p, m, StepN(p, n, c))
  {
    if n > 0 {
      StepNAdd(p, n - 1, m, Step(p, c));
    }
  }

  lemma ReachesTrans(p: Prog, c: Conf, d: Conf, e: Conf)
    requires Reaches(p, c, d) && Reaches(p, d, e)
    ensures Reaches(p, c, e)
  {
    var n: nat :| StepN(p, n, c) == d;
    var m: nat :| StepN(p, m, d) == e;
    StepNAdd(p, n, m, c);
  }

  lemma ReachesRefl(p: Prog, c: Conf)
    ensures Reaches(p, c, c)
  {
    assert StepN(p, 0, c) == c;
  }

  lemma ReachesStep(p: Prog, c: Conf)
    ensures Reaches(p, c, Step(p, c))
  {
    assert StepN(p, 1, c) == StepN(p, 0, Step(p, c));
  }

  // -- runs that go on ------------------------------------------------------------------

  /** The machine has an instruction to execute. */
  predicate Live(p: Prog, c: Conf) {
    c.Run? && 0 <= c.pc < |p.code|
  }

  /** At least n instructions are executed from c. */
  ghost predicate RunsFor(p: Prog, c: Conf, n: nat) {
    forall k: nat | k < n :: Live(p, StepN(p, k, c))
  }

  lemma {:induction false} StoppedStays(p: Prog, c: Conf, n: nat)
    requires !Live(p, c)
    ensures StepN(p, n, c) == c
  {
    if n > 0 {
      StoppedStays(p, c, n - 1);
    }
  }

  /** A configuration that leads to a running one has not stopped. */
  lemma RunsFromEarlier(p: Prog, c: Conf, c1: Conf, n: nat)
    requires Reaches(p, c, c1) && RunsFor(p, c1, n)
    ensures RunsFor(p, c, n)
  {
    var m: nat :| StepN(p, m, c) == c1;
    forall k: nat | k < n
      ensures Live(p, StepN(p, k, c))
    {
      var d := StepN(p, k, c);
      if !Live(p, d) {
        assert Live(p, StepN(p, 0, c1));
        if k <= m {
          StepNAdd(p, k, m - k, c);
          StoppedStays(p, d, m - k);
        } else {
          StepNAdd(p, m, k - m, c);
        }
      }
    }
  }

  lemma RunsOneMore(p: Prog, c: Conf, n: nat)
    requires Live(p, c) && RunsFor(p, Step(p, c), n)
    ensures RunsFor(p, c, n + 1)
  {
    forall k: nat | k < n + 1
      ensures Live(p, StepN(p, k, c))
    {
      if k > 0 {
        assert Live(p, StepN(p, k - 1, Step(p, c)));
      }
    }
  }
}
