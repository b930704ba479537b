/**
 Multiple assignment: the stores run right to left, yet every table, key and
 environment they use is the one from before the statement, although only the
 operands a later target overwrites were copied aside.
*/
module MultiSim {
  import opened Wrappers
  import opened LuaValues
  import opened LuaSource
  import opened LuaStmts
  import opened Machine
  import opened ExprSpec
  import opened ExprSim
  import opened StmtSpec
  import opened AssignSim

  /** The operands of a target, read from the registers, are its place. */
  ghost predicate Denotes(p: Prog, sc: Scope, st: Store, op: Operand, target: Expr, r: Regs, pl: Place) {
    match op
    case ByInt(t, n) => n <= MAX_ARG_C && pl == TablePlace(Get(r, t), SmallInt(n))
    case ByReg(t, k) => pl == TablePlace(Get(r, t), Get(r, k))
    case ByField(t, f) => f < |p.consts| && p.consts[f].Str? && pl == TablePlace(Get(r, t), p.consts[f])
    case EnvCopy(t) => target.Name? && IsGlobal(sc, target.name) && pl == TablePlace(Get(r, t), Str(target.name))
    case NoOperand => if target.Name? then pl == NamePlace(st, target.name) else !target.Field? && !target.Index? && pl == NoPlace
  }

  /** Register t keeps its value while the targets after i are stored. */
  ghost predicate Pinned(sc: Scope, targets: seq<Expr>, i: nat, t: nat, top: nat) {
    t < top && (t < RegTop(sc) ==> !Conflicts(sc, targets, i, t))
  }

  ghost predicate OpPinned(sc: Scope, targets: seq<Expr>, i: nat, op: Operand, top: nat) {
    match op
    case ByInt(t, _) => Pinned(sc, targets, i, t, top)
    case ByReg(t, k) => Pinned(sc, targets, i, t, top) && Pinned(sc, targets, i, k, top)
    case ByField(t, _) => Pinned(sc, targets, i, t, top)
    case EnvCopy(t) => Pinned(sc, targets, i, t, top)
    case NoOperand => true
  }

  // -- the environment copy ------------------------------------------------------------

  /** A global target without a copy of _ENV has no later target that rebinds _ENV. */
  ghost predicate EnvSafe(sc: Scope, targets: seq<Expr>, ops: seq<Operand>, n: nat) {
    forall i, j | 0 <= i < j < n <= |targets| && i < |ops| ::
      targets[i].Name? && IsGlobal(sc, targets[i].name) && ops[i].NoOperand? ==> !RebindsEnv(sc, targets[j])
  }

  lemma {:induction false} PendingGlobals(sc: Scope, targets: seq<Expr>, n: nat, cs: CS)
    requires n <= |targets|
    ensures var ts := CTargets(sc, targets, n, cs);
            && EnvSafe(sc, targets, ts.ops, n)
            && (EnvTargeted(targets) ==>
                 forall i | 0 <= i < n :: i in ts.pending <==> targets[i].Name? && IsGlobal(sc, targets[i].name) && ts.ops[i].NoOperand?)
            && (forall i | i in ts.pending :: 0 <= i < n)
  {
    hide CToReg, Conflicts;
    if n > 0 {
      PendingGlobals(sc, targets, n - 1, cs);
      if !EnvTargeted(targets) {
        forall j | 0 <= j < n ensures !RebindsEnv(sc, targets[j]) {
          assert targets[j] != Name(ENV);
        }
      }
    }
  }

  // -- places -------------------------------------------------------------------------------

  /** The register of an operand stays reserved, or is a local no later target assigns. */
  lemma {:induction false} TargetOperandFree(sc: Scope, st: Store, r: Regs, targets: seq<Expr>, i: nat, e: Expr, cs: CS)
    requires Matches(sc, st, r) && RegTop(sc) <= |sc| && RegTop(sc) <= cs.free && CTargetOperand(sc, targets, i, e, cs).cs.err == NoError
    ensures var f := CTargetOperand(sc, targets, i, e, cs);
            Pinned(sc, targets, i, TargetReg(sc, targets, i, e, cs), f.cs.free) && f.cs.free >= cs.free
  {
    hide Eval, Matches, RegTop, CToReg, Conflicts;
    if PlainLocal(sc, e).Some? {
      PlainLocalEval(log => Throw, sc, st, r, [], e);
    }
  }

  lemma TargetOperandSim(p: Prog, sc: Scope, st: Store, c: Conf, targets: seq<Expr>, i: nat, e: Expr, cs: CS) returns (r': Regs)
    requires Ready(sc, st, c, cs) && Placed(p, c.pc, CTargetOperand(sc, targets, i, e, cs))
    ensures var f := CTargetOperand(sc, targets, i, e, cs);
            var t := TargetReg(sc, targets, i, e, cs);
            var out := Eval(p.o, st, c.log, e);
            && Ends(p, c, c.pc + |f.code|, out, r')
            && (out.Val? ==> Get(r', t) == out.v && KeepsAll(c.r, r', cs.free))
  {
    hide Reaches, At, Eval, Matches, RegTop, CToReg, Conflicts;
    var l := PlainLocal(sc, e);
    if l.Some? {
      PlainLocalEval(p.o, sc, st, c.r, c.log, e);
    }
    if l.Some? && !Conflicts(sc, targets, i, l.value) {
      r' := c.r;
      ReachesRefl(p, c);
    } else {
      r' := ToRegSim(p, sc, st, c, e, cs.free, 0, Reserve(cs));
    }
  }

  function PlacesOut'(out: PlacesOut): Out {
    match out
    case Places(l, _) => Val(l, Nil)
    case PlacesErr(l) => Err(l)
  }

  function PlaceOut'(out: PlaceOut): Out {
    match out
    case PlaceAt(l, _) => Val(l, Nil)
    case PlaceErr(l) => Err(l)
  }

  lemma {:induction false} EvalPlacesSnoc(o: Oracle, st: Store, log: Log, es: seq<Expr>, n: nat)
    requires 0 < n <= |es|
    ensures EvalPlaces(o, st, log, es[..n]) ==
            (match EvalPlaces(o, st, log, es[..n - 1])
             case PlacesErr(l) => PlacesErr(l)
             case Places(l, ps) =>
               match EvalPlace(o, st, l, es[n - 1])
               case PlaceAt(l2, pl) => Places(l2, ps + [pl])
               case PlaceErr(l2) => PlacesErr(l2))
  {
    assert es[..n][..n - 1] == es[..n - 1];
  }

  /** The first n places are in the registers their operands name. */
  ghost predicate AllDenote(p: Prog, sc: Scope, st: Store, targets: seq<Expr>, ops: seq<Operand>, n: nat, r: Regs, ps: seq<Place>, top: nat) {
    n <= |targets| && n <= |ops| && n <= |ps| &&
    forall i | 0 <= i < n :: Denotes(p, sc, st, ops[i], targets[i], r, ps[i]) && OpPinned(sc, targets, i, ops[i], top)
  }

  lemma DenotesKept(p: Prog, sc: Scope, st: Store, targets: seq<Expr>, i: nat, op: Operand, target: Expr, r: Regs, r': Regs, pl: Place, top: nat, top': nat)
    requires Denotes(p, sc, st, op, target, r, pl) && OpPinned(sc, targets, i, op, top) && KeepsAll(r, r', top) && top <= top'
    ensures Denotes(p, sc, st, op, target, r', pl) && OpPinned(sc, targets, i, op, top')
  {
    hide Conflicts, RegTop;
  }

  lemma AllDenoteKept(p: Prog, sc: Scope, st: Store, targets: seq<Expr>, ops: seq<Operand>, n: nat, r: Regs, r': Regs, ps: seq<Place>, top: nat, top': nat)
    requires AllDenote(p, sc, st, targets, ops, n, r, ps, top) && KeepsAll(r, r', top) && top <= top'
    ensures AllDenote(p, sc, st, targets, ops, n, r', ps, top')
  {
    hide Denotes, OpPinned, KeepsAll;
    forall i | 0 <= i < n
      ensures Denotes(p, sc, st, ops[i], targets[i], r', ps[i]) && OpPinned(sc, targets, i, ops[i], top')
    {
      DenotesKept(p, sc, st, targets, i, ops[i], targets[i], r, r', ps[i], top, top');
    }
  }

  /** One indexed target on top of the targets before it. */
  lemma IndexedTargetSim(p: Prog, sc: Scope, st: Store, c: Conf, targets: seq<Expr>, i: nat, cs: CS, f: Frag, op: Operand) returns (r': Regs)
    requires i < |targets| && (targets[i].Index? || targets[i].Field?) && Ready(sc, st, c, cs) && Placed(p, c.pc, f)
    requires (f, op) == IndexedTarget(sc, targets, i, cs)
    ensures var out := EvalPlace(p.o, st, c.log, targets[i]);
            && Ends(p, c, c.pc + |f.code|, PlaceOut'(out), r')
            && (out.PlaceAt? ==> Denotes(p, sc, st, op, targets[i], r', out.p) && KeepsAll(c.r, r', cs.free))
            && OpPinned(sc, targets, i, op, f.cs.free) && f.cs.free >= cs.free
  {
    hide Reaches, At, Eval, Matches, RegTop, CTargetOperand, TargetReg, Conflicts;
    var e := targets[i];
    var g := CTargetOperand(sc, targets, i, e.table, cs);
    var tr := TargetReg(sc, targets, i, e.table, cs);
    TargetOperandFree(sc, st, c.r, targets, i, e.table, cs);
    if e.Field? {
      assert AddConst(g.cs, Str(e.field)).consts[ConstIndex(g.cs, Str(e.field))] == Str(e.field);
      assert Placed(p, c.pc, g);
      r' := TargetOperandSim(p, sc, st, c, targets, i, e.table, cs);
    } else if SmallKey(e.key) {
      r' := TargetOperandSim(p, sc, st, c, targets, i, e.table, cs);
      var o1 := Eval(p.o, st, c.log, e.table);
      if o1.Val? {
        LiteralEval(p.o, st, o1.log, e.key);
        assert SmallInt(e.key.n) == Int(e.key.n);
      }
    } else {
      var h := CTargetOperand(sc, targets, i, e.key, g.cs);
      PlacedPart(p, c.pc, f, g, h.code);
      TargetOperandFree(sc, st, c.r, targets, i, e.key, g.cs);
      r' := TargetOperandSim(p, sc, st, c, targets, i, e.table, cs);
      var o1 := Eval(p.o, st, c.log, e.table);
      if o1.Val? {
        var r1 := r';
        var c1 := After(c, c.pc + |g.code|, o1, r1);
        MatchesKept(sc, st, c.r, r1);
        r' := TargetOperandSim(p, sc, st, c1, targets, i, e.key, g.cs);
        var o2 := Eval(p.o, st, c1.log, e.key);
        EndsTrans(p, c, c1.pc, o1, r1, c1.pc + |h.code|, o2, r');
      }
    }
  }

  /** The fragment and operands of an indexed target. */
  function IndexedTarget(sc: Scope, targets: seq<Expr>, i: nat, cs: CS): (r: (Frag, Operand))
    requires i < |targets| && (targets[i].Index? || targets[i].Field?)
    ensures Grows(cs, r.0.cs)
  {
    var e := targets[i];
    var g := CTargetOperand(sc, targets, i, e.table, cs);
    var tr := TargetReg(sc, targets, i, e.table, cs);
    if e.Field? then (Frag(g.code, AddConst(g.cs, Str(e.field))), ByField(tr, ConstIndex(g.cs, Str(e.field))))
    else if SmallKey(e.key) then (g, ByInt(tr, e.key.n))
    else
      var h := CTargetOperand(sc, targets, i, e.key, g.cs);
      (Frag(g.code + h.code, h.cs), ByReg(tr, TargetReg(sc, targets, i, e.key, g.cs)))
  }

  lemma TargetsStep(sc: Scope, targets: seq<Expr>, n: nat, cs: CS)
    requires 0 < n <= |targets| && (targets[n - 1].Index? || targets[n - 1].Field?)
    ensures var prev := CTargets(sc, targets, n - 1, cs);
            var x := IndexedTarget(sc, targets, n - 1, prev.f.cs);
            CTargets(sc, targets, n, cs) == Targets(Frag(prev.f.code + x.0.code, x.0.cs), prev.ops + [x.1], prev.pending)
  {
    hide CTargetOperand, TargetReg;
    var prev := CTargets(sc, targets, n - 1, cs);
    var e := targets[n - 1];
    if e.Index? && !SmallKey(e.key) {
      var g := CTargetOperand(sc, targets, n - 1, e.table, prev.f.cs);
      var h := CTargetOperand(sc, targets, n - 1, e.key, g.cs);
      assert prev.f.code + g.code + h.code == prev.f.code + (g.code + h.code);
    }
  }

  /** Copying the environment aside for the globals that came before. */
  lemma SnapshotSim(p: Prog, sc: Scope, st: Store, c: Conf, targets: seq<Expr>, ops: seq<Operand>, pending: set<nat>, n: nat, ps: seq<Place>, cs: CS) returns (r': Regs)
    requires n <= |targets| && |ops| == n && Ready(sc, st, c, cs)
    requires forall i | i in pending :: 0 <= i < n && targets[i].Name? && IsGlobal(sc, targets[i].name) && ops[i].NoOperand?
    requires AllDenote(p, sc, st, targets, ops, n, c.r, ps, cs.free)
    requires At(p, c.pc, [match LookupLocal(sc, ENV) case Some(env) => Move(cs.free, env) case None => GetUpval(cs.free, 0)])
    ensures Ends(p, c, c.pc + 1, Val(c.log, Nil), r') && KeepsAll(c.r, r', cs.free)
    ensures AllDenote(p, sc, st, targets, Settle(ops, pending, cs.free), n, r', ps, cs.free + 1)
  {
    hide RegTop, Conflicts;
    FindAgrees(sc, st.vars, ENV);
    var env := LookupLocal(sc, ENV);
    var code := [match LookupLocal(sc, ENV) case Some(e) => Move(cs.free, e) case None => GetUpval(cs.free, 0)];
    assert p.code[c.pc + 0] == code[0];
    r' := c.r[cs.free := EnvValue(st)];
    ReachesStep(p, c);
    SettleDenotes(p, sc, st, targets, ops, pending, n, c.r, r', ps, cs.free);
  }

  lemma {:induction false} SettleDenotes(p: Prog, sc: Scope, st: Store, targets: seq<Expr>, ops: seq<Operand>, pending: set<nat>, n: nat, r: Regs, r': Regs, ps: seq<Place>, snap: nat)
    requires n <= |targets| && |ops| == n && RegTop(sc) <= snap && |sc| == |st.vars| && (forall i | 0 <= i < |sc| :: sc[i].name == st.vars[i].0)
    requires forall i | i in pending :: 0 <= i < n && targets[i].Name? && IsGlobal(sc, targets[i].name) && ops[i].NoOperand?
    requires AllDenote(p, sc, st, targets, ops, n, r, ps, snap) && KeepsAll(r, r', snap) && Get(r', snap) == EnvValue(st)
    ensures AllDenote(p, sc, st, targets, Settle(ops, pending, snap), n, r', ps, snap + 1)
  {
    hide RegTop, Conflicts, EnvValue;
    var ops2 := Settle(ops, pending, snap);
    forall i | 0 <= i < n
      ensures Denotes(p, sc, st, ops2[i], targets[i], r', ps[i]) && OpPinned(sc, targets, i, ops2[i], snap + 1)
    {
      if i in pending {
        FindAgrees(sc, st.vars, targets[i].name);
      } else {
        DenotesKept(p, sc, st, targets, i, ops[i], targets[i], r, r', ps[i], snap, snap + 1);
      }
    }
  }

  /** After the operands of the first n targets every place is in registers that later stores leave alone. */
  lemma {:induction false} TargetsSim(p: Prog, sc: Scope, st: Store, c: Conf, targets: seq<Expr>, n: nat, cs: CS) returns (r': Regs)
    requires n <= |targets| && Ready(sc, st, c, cs) && Placed(p, c.pc, CTargets(sc, targets, n, cs).f)
    ensures var ts := CTargets(sc, targets, n, cs);
            var out := EvalPlaces(p.o, st, c.log, targets[..n]);
            && Ends(p, c, c.pc + |ts.f.code|, PlacesOut'(out), r')
            && (out.Places? ==> KeepsAll(c.r, r', cs.free) && AllDenote(p, sc, st, targets, ts.ops, n, r', out.ps, ts.f.cs.free))
    decreases n
  {
    hide Reaches, At, Eval, Matches, RegTop, CTargets, EvalPlace, AllDenote;
    var ts := CTargets(sc, targets, n, cs);
    if n == 0 {
      r' := c.r;
      NothingDenoted(p, sc, st, c, targets, cs);
    } else {
      var i := n - 1;
      var prev := CTargets(sc, targets, i, cs);
      EvalPlacesSnoc(p.o, st, c.log, targets, n);
      TargetsPrefix(sc, targets, n, cs);
      PlacedPart(p, c.pc, ts.f, prev.f, ts.f.code[|prev.f.code|..]);
      r' := TargetsSim(p, sc, st, c, targets, i, cs);
      var o1 := EvalPlaces(p.o, st, c.log, targets[..i]);
      TargetsFree(sc, st, c.r, targets, i, cs);
      if o1.Places? {
        var r1 := r';
        var c1 := After(c, c.pc + |prev.f.code|, PlacesOut'(o1), r1);
        MatchesKept(sc, st, c.r, r1);
        r' := OneMoreTarget(p, sc, st, c1, targets, n, cs, o1.ps);
        EndsTrans(p, c, c1.pc, PlacesOut'(o1), r1, c.pc + |ts.f.code|, PlaceOut'(EvalPlace(p.o, st, c1.log, targets[i])), r');
      }
    }
  }

  lemma {:induction false} IndexedFree(sc: Scope, st: Store, r: Regs, targets: seq<Expr>, i: nat, cs: CS)
    requires i < |targets| && (targets[i].Index? || targets[i].Field?) && Matches(sc, st, r) && RegTop(sc) <= |sc| && RegTop(sc) <= cs.free
    requires IndexedTarget(sc, targets, i, cs).0.cs.err == NoError
    ensures IndexedTarget(sc, targets, i, cs).0.cs.free >= cs.free
  {
    hide Matches, RegTop, CTargetOperand, TargetReg;
    var e := targets[i];
    var g := CTargetOperand(sc, targets, i, e.table, cs);
    TargetOperandFree(sc, st, r, targets, i, e.table, cs);
    if e.Index? && !SmallKey(e.key) {
      TargetOperandFree(sc, st, r, targets, i, e.key, g.cs);
    }
  }

  lemma {:induction false} TargetsFree(sc: Scope, st: Store, r: Regs, targets: seq<Expr>, n: nat, cs: CS)
    requires n <= |targets| && Matches(sc, st, r) && RegTop(sc) <= |sc| && RegTop(sc) <= cs.free && CTargets(sc, targets, n, cs).f.cs.err == NoError
    ensures CTargets(sc, targets, n, cs).f.cs.free >= cs.free
  {
    hide Matches, RegTop, CTargetOperand, TargetReg, IndexedTarget;
    if n > 0 {
      TargetsPrefix(sc, targets, n, cs);
      TargetsFree(sc, st, r, targets, n - 1, cs);
      if targets[n - 1].Index? || targets[n - 1].Field? {
        TargetsStep(sc, targets, n, cs);
        IndexedFree(sc, st, r, targets, n - 1, CTargets(sc, targets, n - 1, cs).f.cs);
      }
    }
  }

  lemma {:induction false} NothingDenoted(p: Prog, sc: Scope, st: Store, c: Conf, targets: seq<Expr>, cs: CS)
    requires c.Run?
    ensures CTargets(sc, targets, 0, cs) == Targets(Frag([], cs), [], {}) && targets[..0] == []
    ensures Reaches(p, c, c) && AllDenote(p, sc, st, targets, [], 0, c.r, [], cs.free) && KeepsAll(c.r, c.r, cs.free)
  {
    ReachesRefl(p, c);
  }

  lemma TargetsPrefix(sc: Scope, targets: seq<Expr>, n: nat, cs: CS)
    requires 0 < n <= |targets|
    ensures var (ts, prev) := (CTargets(sc, targets, n, cs), CTargets(sc, targets, n - 1, cs));
            && prev.f.code <= ts.f.code && Grows(prev.f.cs, ts.f.cs)
            && (!targets[n - 1].Index? && !targets[n - 1].Field? ==> ts.f.cs.free >= prev.f.cs.free)
  {
    hide CTargetOperand, TargetReg, Conflicts;
    if targets[n - 1].Index? || targets[n - 1].Field? {
      TargetsStep(sc, targets, n, cs);
    }
  }

  lemma AllDenoteSnoc(p: Prog, sc: Scope, st: Store, targets: seq<Expr>, ops: seq<Operand>, op: Operand, n: nat, r: Regs, ps: seq<Place>, pl: Place, top: nat)
    requires 0 < n <= |targets| && |ops| == |ps| == n - 1 && AllDenote(p, sc, st, targets, ops, n - 1, r, ps, top)
    requires Denotes(p, sc, st, op, targets[n - 1], r, pl) && OpPinned(sc, targets, n - 1, op, top)
    ensures AllDenote(p, sc, st, targets, ops + [op], n, r, ps + [pl], top)
  {
    hide Denotes, OpPinned;
  }

  /** Target n - 1, the places of the earlier ones being in registers already. */
  lemma OneMoreTarget(p: Prog, sc: Scope, st: Store, c: Conf, targets: seq<Expr>, n: nat, cs: CS, ps: seq<Place>) returns (r': Regs)
    requires 0 < n <= |targets| && |ps| == n - 1 && c.Run? && Placed(p, c.pc, NextTarget(sc, targets, n, cs))
    requires var prev := CTargets(sc, targets, n - 1, cs);
             Ready(sc, st, c, prev.f.cs) && AllDenote(p, sc, st, targets, prev.ops, n - 1, c.r, ps, prev.f.cs.free)
    ensures var (ts, prev) := (CTargets(sc, targets, n, cs), CTargets(sc, targets, n - 1, cs));
            var out := EvalPlace(p.o, st, c.log, targets[n - 1]);
            && Ends(p, c, c.pc + |NextTarget(sc, targets, n, cs).code|, PlaceOut'(out), r')
            && (out.PlaceAt? ==> KeepsAll(c.r, r', prev.f.cs.free) && AllDenote(p, sc, st, targets, ts.ops, n, r', ps + [out.p], ts.f.cs.free))
  {
    hide Reaches, At, Eval, Matches, RegTop, CTargetOperand, TargetReg, Conflicts, OpPinned, AllDenote, IndexOf;
    var i := n - 1;
    var (ts, prev) := (CTargets(sc, targets, n, cs), CTargets(sc, targets, i, cs));
    var out := EvalPlace(p.o, st, c.log, targets[i]);
    if targets[i].Index? || targets[i].Field? {
      TargetsStep(sc, targets, n, cs);
      var (f, op) := IndexedTarget(sc, targets, i, prev.f.cs);
      r' := IndexedTargetSim(p, sc, st, c, targets, i, prev.f.cs, f, op);
      if out.PlaceAt? {
        AllDenoteKept(p, sc, st, targets, prev.ops, i, c.r, r', ps, prev.f.cs.free, ts.f.cs.free);
        AllDenoteSnoc(p, sc, st, targets, prev.ops, op, n, r', ps, out.p, ts.f.cs.free);
      }
    } else if targets[i].Name? && EnvTargeted(targets) && RebindsEnv(sc, targets[i]) && prev.pending != {} {
      r' := OneMoreEnv(p, sc, st, c, targets, n, cs, ps);
    } else {
      r' := c.r;
      ReachesRefl(p, c);
      NoOperandPinned(p, sc, st, targets, i, r', ts.f.cs.free);
      AllDenoteSnoc(p, sc, st, targets, prev.ops, NoOperand, n, r', ps, out.p, ts.f.cs.free);
    }
  }

  /** A target that rebinds the environment some earlier target still needs. */
  lemma OneMoreEnv(p: Prog, sc: Scope, st: Store, c: Conf, targets: seq<Expr>, n: nat, cs: CS, ps: seq<Place>) returns (r': Regs)
    requires 0 < n <= |targets| && |ps| == n - 1 && c.Run? && Placed(p, c.pc, NextTarget(sc, targets, n, cs))
    requires var prev := CTargets(sc, targets, n - 1, cs);
             && Ready(sc, st, c, prev.f.cs) && AllDenote(p, sc, st, targets, prev.ops, n - 1, c.r, ps, prev.f.cs.free)
             && targets[n - 1].Name? && EnvTargeted(targets) && RebindsEnv(sc, targets[n - 1]) && prev.pending != {}
    ensures var (ts, prev) := (CTargets(sc, targets, n, cs), CTargets(sc, targets, n - 1, cs));
            var out := EvalPlace(p.o, st, c.log, targets[n - 1]);
            && Ends(p, c, c.pc + |NextTarget(sc, targets, n, cs).code|, PlaceOut'(out), r')
            && (out.PlaceAt? ==> KeepsAll(c.r, r', prev.f.cs.free) && AllDenote(p, sc, st, targets, ts.ops, n, r', ps + [out.p], ts.f.cs.free))
  {
    hide Reaches, At, Eval, Matches, RegTop, CTargetOperand, TargetReg, Conflicts, OpPinned, AllDenote, IndexOf, FindLocal;
    var i := n - 1;
    var (ts, prev) := (CTargets(sc, targets, n, cs), CTargets(sc, targets, i, cs));
    var out := EvalPlace(p.o, st, c.log, targets[i]);
    PendingGlobals(sc, targets, i, cs);
    r' := SnapshotSim(p, sc, st, c, targets, prev.ops, prev.pending, i, ps, prev.f.cs);
    NoOperandPinned(p, sc, st, targets, i, r', ts.f.cs.free);
    AllDenoteSnoc(p, sc, st, targets, Settle(prev.ops, prev.pending, prev.f.cs.free), NoOperand, n, r', ps, out.p, ts.f.cs.free);
  }

  lemma NoOperandPinned(p: Prog, sc: Scope, st: Store, targets: seq<Expr>, i: nat, r: Regs, top: nat)
    requires i < |targets| && !targets[i].Index? && !targets[i].Field?
    ensures Denotes(p, sc, st, NoOperand, targets[i], r, EvalPlace(p.o, st, [], targets[i]).p) && OpPinned(sc, targets, i, NoOperand, top)
    ensures forall log :: EvalPlace(p.o, st, log, targets[i]) == PlaceAt(log, EvalPlace(p.o, st, [], targets[i]).p)
  {
  }

  /** The code target n - 1 adds. */
  function NextTarget(sc: Scope, targets: seq<Expr>, n: nat, cs: CS): Frag
    requires 0 < n <= |targets|
  {
    var (ts, prev) := (CTargets(sc, targets, n, cs), CTargets(sc, targets, n - 1, cs));
    Frag(if |prev.f.code| <= |ts.f.code| then ts.f.code[|prev.f.code|..] else [], ts.f.cs)
  }

  // -- values ------------------------------------------------------------------------------------

  lemma {:induction false} ValuesFree(sc: Scope, values: seq<Expr>, n: nat, cs: CS)
    requires n <= |values|
    ensures CValues(sc, values, n, cs.free, cs).cs.free == cs.free + n
  {
  }

  /** Value i of the list ends in register valBase + i. */
  lemma {:induction false} ValuesSim(p: Prog, sc: Scope, st: Store, c: Conf, values: seq<Expr>, n: nat, m: nat, cs: CS) returns (r': Regs)
    requires n <= |values| && Ready(sc, st, c, cs) && Placed(p, c.pc, CValues(sc, values, n, cs.free, cs))
    ensures var out := EvalList(p.o, st, c.log, values[..n]);
            && Ends(p, c, c.pc + |CValues(sc, values, n, cs.free, cs).code|, AsOut(out), r')
            && (out.Vals? ==> KeepsAll(c.r, r', cs.free) && Holds(r', cs.free, out.vs, m))
    decreases n
  {
    hide Reaches, At, CToReg, Eval, Matches, RegTop, Holds;
    if n == 0 {
      r' := c.r;
      HoldsNothing(p, c, cs.free, m);
    } else {
      var base := cs.free;
      var prev := CValues(sc, values, n - 1, base, cs);
      var f := CValues(sc, values, n, base, cs);
      ValuesFree(sc, values, n - 1, cs);
      var reg := base + n - 1;
      var g := CToReg(sc, values[n - 1], reg, 0, prev.cs);
      PlacedPart(p, c.pc, f, prev, g.code);
      EvalListSnoc(p.o, st, c.log, values, n);
      r' := ValuesSim(p, sc, st, c, values, n - 1, m, cs);
      var o1 := EvalList(p.o, st, c.log, values[..n - 1]);
      if o1.Vals? {
        var r1 := r';
        var c1 := After(c, c.pc + |prev.code|, AsOut(o1), r1);
        MatchesKept(sc, st, c.r, r1);
        r' := ToRegSim(p, sc, st, c1, values[n - 1], reg, 0, prev.cs);
        var out := Eval(p.o, st, o1.log, values[n - 1]);
        EndsTrans(p, c, c1.pc, AsOut(o1), r1, c1.pc + |g.code|, out, r');
        if out.Val? {
          HoldsSnoc(r1, r', base, o1.vs, out.v, m, reg);
        }
      }
    }
  }

  /** Targets without a value get nil, one register at a time. */
  lemma {:induction false} NilEachSim(p: Prog, c: Conf, base: nat, i: nat, n: nat) returns (r': Regs)
    requires c.Run? && At(p, c.pc, NilEach(base, i, n))
    ensures Reaches(p, c, Run(c.pc + |NilEach(base, i, n)|, r', c.up, c.log))
    ensures forall j: nat :: Get(r', j) == if base + i <= j < base + n then Nil else Get(c.r, j)
    decreases n - i
  {
    if i >= n {
      r' := c.r;
      ReachesRefl(p, c);
    } else {
      AtSplit(p, c.pc, [LoadNil(base + i, 0)], NilEach(base, i + 1, n));
      var c1 := LoadNilStep(p, c, base + i);
      r' := NilEachSim(p, c1, base, i + 1, n);
      ReachesTrans(p, c, c1, Run(c1.pc + |NilEach(base, i + 1, n)|, r', c.up, c.log));
    }
  }

  lemma LoadNilStep(p: Prog, c: Conf, a: nat) returns (c1: Conf)
    requires c.Run? && At(p, c.pc, [LoadNil(a, 0)])
    ensures c1.Run? && Reaches(p, c, c1) && c1.pc == c.pc + 1 && c1.up == c.up && c1.log == c.log
    ensures forall j: nat :: Get(c1.r, j) == if j == a then Nil else Get(c.r, j)
  {
    assert p.code[c.pc + 0] == [LoadNil(a, 0)][0];
    ReachesStep(p, c);
    c1 := Step(p, c);
  }

  // -- stores ------------------------------------------------------------------------------------

  ghost predicate KeepsBut(r: Regs, r': Regs, top: nat, a: Option<nat>) {
    forall i: nat :: i < top && a != Some(i) ==> Get(r', i) == Get(r, i)
  }

  /** Between two stores: the temporaries of the statement lie above the locals. */
  ghost predicate Storing(sc: Scope, st: Store, c: Conf, cs: CS) {
    c.Run? && Dense(sc) && Matches(sc, st, c.r) && c.up == st.up && RegTop(sc) <= cs.free
  }

  predicate OpBelow(op: Operand, top: nat) {
    match op
    case ByInt(t, _) => t < top
    case ByReg(t, k) => t < top && k < top
    case ByField(t, _) => t < top
    case EnvCopy(t) => t < top
    case NoOperand => true
  }

  lemma MoveStep(p: Prog, c: Conf, a: nat, b: nat)
    requires c.Run? && At(p, c.pc, [Move(a, b)])
    ensures Reaches(p, c, Run(c.pc + 1, c.r[a := Get(c.r, b)], c.up, c.log))
  {
    assert p.code[c.pc + 0] == [Move(a, b)][0];
    ReachesStep(p, c);
  }

  lemma StoreLocalSim(p: Prog, sc: Scope, st: Store, c: Conf, x: string, v: nat, cs: CS) returns (r': Regs)
    requires Storing(sc, st, c, cs) && RegTop(sc) <= v < cs.free && !IsConstLocal(sc, x) && LookupLocal(sc, x).Some?
    requires At(p, c.pc, [Move(LookupLocal(sc, x).value, v)])
    ensures Simulates(p, c, c.pc + 1, StoreAt(p.o, st, c.log, NamePlace(st, x), Get(c.r, v)), sc, r')
    ensures KeepsBut(c.r, r', cs.free, LookupLocal(sc, x))
  {
    hide Reaches, At, RegTop;
    FindAgrees(sc, st.vars, x);
    var i := FindLocal(sc, x);
    r' := c.r[sc[i].loc.r := Get(c.r, v)];
    MoveStep(p, c, sc[i].loc.r, v);
    MatchesAssigned(sc, st, c.r, r', i, Get(c.r, v));
  }

  /** A store to a name that is not an indexed target. */
  lemma StoreNameSim(p: Prog, sc: Scope, st: Store, c: Conf, target: Expr, op: Operand, v: nat, pl: Place, cs: CS) returns (r': Regs)
    requires target.Name? && (op.NoOperand? || op.EnvCopy?)
    requires Storing(sc, st, c, cs) && Denotes(p, sc, st, op, target, c.r, pl) && RegTop(sc) <= v < cs.free
    requires OpBelow(op, cs.free) && Placed(p, c.pc, CStoreTarget(sc, target, op, v, cs))
    ensures Simulates(p, c, c.pc + |CStoreTarget(sc, target, op, v, cs).code|, StoreAt(p.o, st, c.log, pl, Get(c.r, v)), sc, r')
    ensures KeepsBut(c.r, r', cs.free, AssignedReg(sc, target))
  {
    hide Reaches, At, RegTop, CSetField, CSetGlobal, EnvValue;
    var x := target.name;
    FindAgrees(sc, st.vars, x);
    if LookupLocal(sc, x).Some? {
      r' := StoreLocalSim(p, sc, st, c, x, v, cs);
    } else if x == ENV {
      SetUpvalStep(p, c, v);
      r' := c.r;
    } else {
      var (k, cs1) := (ConstIndex(cs, Str(x)), AddConst(cs, Str(x)));
      assert cs1.consts[k] == Str(x) && cs1.consts <= p.consts;
      if op.EnvCopy? {
        r' := SetFieldSim(p, c, x, op.t, k, v, 0, cs1);
      } else {
        r' := SetGlobalSim(p, sc, st, c, x, k, v, 0, cs1);
      }
      MatchesKept(sc, st, c.r, r');
    }
  }

  /** One store: the machine does to the registers and the world what StoreAt does to the store. */
  lemma StoreTargetSim(p: Prog, sc: Scope, st: Store, c: Conf, target: Expr, op: Operand, v: nat, pl: Place, cs: CS) returns (r': Regs)
    requires Storing(sc, st, c, cs) && Denotes(p, sc, st, op, target, c.r, pl) && RegTop(sc) <= v < cs.free
    requires OpBelow(op, cs.free) && Placed(p, c.pc, CStoreTarget(sc, target, op, v, cs))
    ensures Simulates(p, c, c.pc + |CStoreTarget(sc, target, op, v, cs).code|, StoreAt(p.o, st, c.log, pl, Get(c.r, v)), sc, r')
    ensures KeepsBut(c.r, r', cs.free, if op.NoOperand? || op.EnvCopy? then AssignedReg(sc, target) else None)
  {
    hide Reaches, At, RegTop, CSetField, CSetGlobal, EnvValue;
    match op
    case ByInt(t, n) =>
      SetIStep(p, c, t, n, v, 0);
      r' := c.r;
    case ByReg(t, k) =>
      SetTableStep(p, c, t, k, v, 0);
      r' := c.r;
    case ByField(t, k) =>
      r' := SetFieldSim(p, c, p.consts[k].s, t, k, v, 0, cs);
      MatchesKept(sc, st, c.r, r');
    case _ =>
      r' := StoreNameSim(p, sc, st, c, target, op, v, pl, cs);
  }

  /** Storing to target n - 1 does not move the place of an earlier target. */
  lemma {:induction false} PlaceSurvives(p: Prog, sc: Scope, st: Store, st': Store, targets: seq<Expr>, i: nat, n: nat, op: Operand, opN: Operand, r: Regs, r': Regs, pl: Place, top: nat, free: nat, log: Log, v: Value)
    requires i < n - 1 < |targets| && Matches(sc, st, r) && top <= free
    requires Denotes(p, sc, st, op, targets[i], r, pl) && OpPinned(sc, targets, i, op, top)
    requires KeepsBut(r, r', free, if opN.NoOperand? || opN.EnvCopy? then AssignedReg(sc, targets[n - 1]) else None)
    requires forall x, a: nat :: LookupLocal(sc, x) == Some(a) ==> a < RegTop(sc)
    requires targets[i].Name? && IsGlobal(sc, targets[i].name) && op.NoOperand? ==> EnvValue(st') == EnvValue(st)
    requires |st'.vars| == |st.vars| && forall j | 0 <= j < |st.vars| :: st'.vars[j].0 == st.vars[j].0
    ensures Denotes(p, sc, st', op, targets[i], r', pl)
  {
    hide RegTop, EnvValue, Matches;
    forall t: nat | Pinned(sc, targets, i, t, top)
      ensures Get(r', t) == Get(r, t)
    {
      if AssignedReg(sc, targets[n - 1]) == Some(t) {
        assert Conflicts(sc, targets, i, t);
      }
    }
    if targets[i].Name? && op.NoOperand? {
      SameNames(st.vars, st'.vars, targets[i].name);
      GlobalByFind(sc, st, r, targets[i].name);
    }
  }

  lemma {:induction false} SameNames(a: seq<(string, Value)>, b: seq<(string, Value)>, x: string)
    requires |a| == |b| && forall j | 0 <= j < |a| :: a[j].0 == b[j].0
    ensures Find(a, x) == Find(b, x)
  {
    if a != [] && a[|a| - 1].0 != x {
      SameNames(a[..|a| - 1], b[..|b| - 1], x);
    }
  }

  lemma {:induction false} GlobalByFind(sc: Scope, st: Store, r: Regs, x: string)
    requires Matches(sc, st, r)
    ensures IsGlobal(sc, x) <==> Find(st.vars, x) < 0 && x != ENV
  {
    FindAgrees(sc, st.vars, x);
  }

  /** The places still to be stored to, in the current store and registers. */
  ghost predicate Remaining(p: Prog, sc: Scope, st: Store, targets: seq<Expr>, ops: seq<Operand>, n: nat, r: Regs, ps: seq<Place>, top: nat) {
    AllDenote(p, sc, st, targets, ops, n, r, ps, top) && EnvSafe(sc, targets, ops, |targets|)
  }

  lemma PinnedBelow(sc: Scope, targets: seq<Expr>, i: nat, op: Operand, top: nat, free: nat)
    requires OpPinned(sc, targets, i, op, top) && top <= free
    ensures OpBelow(op, free)
  {
    hide Conflicts, RegTop;
  }

  /** What a store does to the variables besides one value: nothing. */
  lemma StoreAtNames(o: Oracle, st: Store, log: Log, pl: Place, v: Value)
    requires StoreAt(o, st, log, pl, v).Normal?
    ensures var st' := StoreAt(o, st, log, pl, v).st;
            |st'.vars| == |st.vars| && forall j | 0 <= j < |st.vars| :: st'.vars[j].0 == st.vars[j].0
  {
  }

  /** Only a target that rebinds _ENV changes the environment. */
  lemma StoreKeepsEnv(p: Prog, sc: Scope, st: Store, r: Regs, log: Log, target: Expr, op: Operand, pl: Place, v: Value)
    requires Matches(sc, st, r) && Denotes(p, sc, st, op, target, r, pl) && !RebindsEnv(sc, target)
    requires StoreAt(p.o, st, log, pl, v).Normal? && (op.NoOperand? && target.Name? ==> !IsConstLocal(sc, target.name))
    ensures EnvValue(StoreAt(p.o, st, log, pl, v).st) == EnvValue(st)
  {
    hide RegTop;
    var st' := StoreAt(p.o, st, log, pl, v).st;
    StoreAtNames(p.o, st, log, pl, v);
    SameNames(st.vars, st'.vars, ENV);
    FindAgrees(sc, st.vars, ENV);
    if target.Name? {
      FindAgrees(sc, st.vars, target.name);
    }
  }

  lemma {:induction false} StoresSim(p: Prog, sc: Scope, st: Store, c: Conf, targets: seq<Expr>, ops: seq<Operand>, n: nat, ps: seq<Place>, vs: seq<Value>, valBase: nat, cs: CS) returns (r': Regs)
    requires n <= |targets| == |ops| == |ps| == |vs| && Storing(sc, st, c, cs)
    requires RegTop(sc) <= valBase && valBase + |targets| <= cs.free
    requires Remaining(p, sc, st, targets, ops, n, c.r, ps, valBase) && Holds(c.r, valBase, vs, n)
    requires Placed(p, c.pc, CStores(sc, targets, ops, n, valBase, cs))
    ensures Simulates(p, c, c.pc + |CStores(sc, targets, ops, n, valBase, cs).code|, StoreAll(p.o, st, c.log, ps[..n], vs[..n]), sc, r')
    decreases n
  {
    hide Reaches, At, RegTop, CStoreTarget, Denotes, OpPinned, EnvSafe, Dense, StoreAt, Matches;
    if n == 0 {
      r' := c.r;
      ReachesRefl(p, c);
    } else {
      var i := n - 1;
      var f := CStores(sc, targets, ops, n, valBase, cs);
      var g := CStoreTarget(sc, targets[i], ops[i], valBase + i, cs);
      var h := CStores(sc, targets, ops, i, valBase, g.cs);
      PlacedPart(p, c.pc, f, g, h.code);
      PinnedBelow(sc, targets, i, ops[i], valBase, cs.free);
      r' := StoreTargetSim(p, sc, st, c, targets[i], ops[i], valBase + i, ps[i], cs);
      var res := StoreAt(p.o, st, c.log, ps[i], vs[i]);
      assert ps[..n][..i] == ps[..i] && vs[..n][..i] == vs[..i];
      if res.Normal? {
        var c1 := Run(c.pc + |g.code|, r', res.st.up, res.log);
        RemainingStep(p, sc, st, c.log, targets, ops, n, ps, vs[i], c.r, r', valBase, cs);
        var r1 := r';
        r' := StoresSim(p, sc, res.st, c1, targets, ops, i, ps, vs, valBase, g.cs);
        SimulatesFrom(p, c, c1, c.pc + |f.code|, StoreAll(p.o, res.st, res.log, ps[..i], vs[..i]), sc, r');
      } else {
        StoreAtEnds(p.o, st, c.log, ps[i], vs[i]);
      }
    }
  }

  lemma StoreAtEnds(o: Oracle, st: Store, log: Log, pl: Place, v: Value)
    ensures StoreAt(o, st, log, pl, v).Normal? || StoreAt(o, st, log, pl, v).Failed?
  {
  }

  lemma SimulatesFrom(p: Prog, c: Conf, c1: Conf, pcEnd: int, res: Res, sc: Scope, r': Regs)
    requires Reaches(p, c, c1) && Simulates(p, c1, pcEnd, res, sc, r')
    ensures Simulates(p, c, pcEnd, res, sc, r')
  {
    match res
    case Normal(st, log) => ReachesTrans(p, c, c1, Run(pcEnd, r', st.up, log));
    case Failed(log) => ReachesTrans(p, c, c1, Raised(log));
    case _ =>
  }

  /** Storing to target n - 1 leaves the places of the first n - 1 targets and the pending values alone. */
  lemma {:induction false} RemainingStep(p: Prog, sc: Scope, st: Store, log: Log, targets: seq<Expr>, ops: seq<Operand>, n: nat, ps: seq<Place>, v: Value, r: Regs, r': Regs, valBase: nat, cs: CS)
    requires 0 < n <= |targets| == |ops| == |ps| && Dense(sc) && Matches(sc, st, r) && RegTop(sc) <= valBase <= cs.free
    requires Remaining(p, sc, st, targets, ops, n, r, ps, valBase)
    requires StoreAt(p.o, st, log, ps[n - 1], v).Normal? && CStoreTarget(sc, targets[n - 1], ops[n - 1], valBase + n - 1, cs).cs.err == NoError
    requires KeepsBut(r, r', cs.free, if ops[n - 1].NoOperand? || ops[n - 1].EnvCopy? then AssignedReg(sc, targets[n - 1]) else None)
    ensures Remaining(p, sc, StoreAt(p.o, st, log, ps[n - 1], v).st, targets, ops, n - 1, r', ps, valBase)
    ensures forall i: nat :: RegTop(sc) <= i < cs.free ==> Get(r', i) == Get(r, i)
  {
    hide RegTop, Denotes, OpPinned, StoreAt, EnvValue, Matches, Conflicts;
    var st' := StoreAt(p.o, st, log, ps[n - 1], v).st;
    LocalsBelow(sc);
    StoreAtNames(p.o, st, log, ps[n - 1], v);
    forall i | 0 <= i < n - 1
      ensures Denotes(p, sc, st', ops[i], targets[i], r', ps[i])
    {
      if targets[i].Name? && IsGlobal(sc, targets[i].name) && ops[i].NoOperand? {
        StoreKeepsEnv(p, sc, st, r, log, targets[n - 1], ops[n - 1], ps[n - 1], v);
      }
      PlaceSurvives(p, sc, st, st', targets, i, n, ops[i], ops[n - 1], r, r', ps[i], valBase, cs.free, log, v);
    }
  }

  lemma {:induction false} LocalsBelow(sc: Scope)
    requires Dense(sc)
    ensures forall x, a: nat :: LookupLocal(sc, x) == Some(a) ==> a < RegTop(sc)
  {
    DenseTop(sc);
  }

  // -- the statement ---------------------------------------------------------------------------------

  lemma NilsHold(r: Regs, r': Regs, base: nat, vs: seq<Value>, n: nat)
    requires Holds(r, base, vs, n)
    requires forall j: nat :: Get(r', j) == if base + |vs| <= j < base + n then Nil else Get(r, j)
    ensures Holds(r', base, Adjust(vs, n), n) && KeepsAll(r, r', base)
  {
  }

  /** Multiple assignment gives the store of: all places, all values, then the stores right to left. */
  lemma MultiAssignSim(p: Prog, sc: Scope, st: Store, c: Conf, targets: seq<Expr>, values: seq<Expr>, cs: CS) returns (r': Regs)
    requires AtRest(sc, st, c, cs) && Placed(p, c.pc, CMulti(sc, targets, values, cs))
    ensures Simulates(p, c, c.pc + |CMulti(sc, targets, values, cs).code|, ExecAssign(p.o, st, c.log, targets, values), sc, r')
  {
    hide Reaches, At, RegTop, CStores, CTargets, CValues, NilEach, Matches, Dense, StoreAll, AllDenote, EnvSafe, Holds, KeepsAll, EvalList, EvalPlaces, Adjust;
    RestReady(sc, st, c, cs);
    var n := |targets|;
    assert targets[..n] == targets && values[..|values|] == values;
    var f := CMulti(sc, targets, values, cs);
    var ts := CTargets(sc, targets, n, cs);
    var valBase := ts.f.cs.free;
    var cs1 := CheckRegsAt(ts.f.cs, valBase + n);
    var vs := CValues(sc, values, |values|, valBase, cs1);
    var nils := NilEach(valBase, |values|, n);
    var cs2 := if |values| < n then SetFree(vs.cs, valBase + n) else vs.cs;
    var ss := CStores(sc, targets, ts.ops, n, valBase, cs2);
    var rest := vs.code + (nils + ss.code);
    assert f.code == ts.f.code + rest;
    PlacedPart(p, c.pc, f, ts.f, rest);
    AtSplit(p, c.pc + |ts.f.code|, vs.code, nils + ss.code);
    AtSplit(p, c.pc + |ts.f.code| + |vs.code|, nils, ss.code);
    TargetsFree(sc, st, c.r, targets, n, cs);
    ValuesFree(sc, values, |values|, cs1);
    PendingGlobals(sc, targets, n, cs);
    r' := TargetsSim(p, sc, st, c, targets, n, cs);
    var o1 := EvalPlaces(p.o, st, c.log, targets);
    if o1.Places? {
      var r1 := r';
      var c1 := After(c, c.pc + |ts.f.code|, PlacesOut'(o1), r1);
      MatchesKept(sc, st, c.r, r1);
      r' := ValuesSim(p, sc, st, c1, values, |values|, n, cs1);
      var o2 := EvalList(p.o, st, c1.log, values);
      EndsTrans(p, c, c1.pc, PlacesOut'(o1), r1, c1.pc + |vs.code|, AsOut(o2), r');
      if o2.Vals? {
        var r2 := r';
        var c2 := After(c, c1.pc + |vs.code|, AsOut(o2), r2);
        r' := NilEachSim(p, c2, valBase, |values|, n);
        var c3 := Run(c2.pc + |nils|, r', c.up, c2.log);
        ReachesTrans(p, c, c2, c3);
        NilsHold(r2, r', valBase, o2.vs, n);
        KeepsTrans(r1, r2, r', valBase);
        MatchesKept(sc, st, r1, r');
        AllDenoteKept(p, sc, st, targets, ts.ops, n, r1, r', o1.ps, valBase, valBase);
        var all := Adjust(o2.vs, n);
        r' := StoresSim(p, sc, st, c3, targets, ts.ops, n, o1.ps, all, valBase, cs2);
        assert o1.ps[..n] == o1.ps && all[..n] == all;
        SimulatesFrom(p, c, c3, c.pc + |f.code|, StoreAll(p.o, st, c3.log, o1.ps, all), sc, r');
      }
    }
  }
}
