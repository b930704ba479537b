/**
 Compiling whole functions, as far as scopes, variables and jumps go: what is
 accepted is what the scoping rules accept, and every break and goto comes out right.
*/
module CloseBlocks {
  import opened Wrappers
  import opened CloseRules
  import opened CloseCompiler
  import opened CloseWalk
  import opened CloseFollow

  /** The compiler has come from was to where the statements say; k0: the labels that were in sight at was. */
  ghost predicate Follows(fs: FuncState, was: Snap, w: World, k0: nat)
    reads fs
  {
    fs.err == w.bad && (!fs.err ==> Same(fs, w) && k0 <= |w.places| && Went(was, Now(fs), w.wants, w.places[k0..]))
  }

  // -- what the invariant of the compiler says -------------------------------------------------

  lemma OpensOpen(fs: FuncState)
    requires fs.Valid()
    ensures AllOpen(Now(fs))
  {
    hide LocalsOk, AllCode, Apart, Landings, ScopesOk, BreaksOk, LiveOk, LevelOk, HeldOk, SettledOk;
    forall i | 0 <= i < |fs.pendGotos|
      ensures fs.pendGotos[i] < |fs.jumps| && fs.jumps[fs.pendGotos[i]].target == -1 && fs.jumps[fs.pendGotos[i]].dst == -1
    {
      var q := fs.pendGotos[i];
      assert q in fs.pendGotos && q < |fs.jumps|;
      assert Known(fs.hist, fs.lives[q], fs.jumps[q]) && Status(fs.hist, fs.ids, fs.Frozen(), fs.lives[q], fs.jumps[q], q in fs.pendCloses, q in fs.pendGotos);
    }
  }

  lemma ScopesNested(fs: FuncState)
    requires fs.Valid()
    ensures Nested(fs.scopes) && BreaksOk(fs.scopes, fs.jumps, fs.home, fs.pendGotos) && |fs.ids| == |fs.locals| && |fs.lives| == |fs.jumps|
    ensures forall s :: 0 <= s < |fs.scopes| ==> fs.scopes[s].n + fs.scopes[s].header <= |fs.locals| && fs.scopes[s].firstLabel <= |fs.labels| && fs.scopes[s].baseReg == RegBase(fs.locals, fs.scopes[s].n)
    ensures forall l :: 0 <= l < |fs.labels| ==> fs.labels[l].n <= |fs.locals|
    ensures forall s, l :: 0 <= s < |fs.scopes| && 0 <= l < fs.scopes[s].firstLabel ==> fs.labels[l].n <= fs.scopes[s].n
  {
    hide AllCode, Apart, Landings, Tracked, RegBase, BreaksOk, LiveOk, Lists;
  }

  lemma ScopeLocals(fs: FuncState, w: World)
    requires fs.Valid() && Same(fs, w)
    ensures InScope(w) == fs.locals && |w.scope| == |fs.locals|
  {
    hide AllCode, Apart, Landings, Tracked, ScopesOk, BreaksOk, Lists, LiveOk;
    ScopeIsLocals(w, fs.hist, fs.ids, fs.locals);
  }

  // -- code and variables ------------------------------------------------------------------------

  method CaptureAll(fs: FuncState, names: seq<string>, ghost w: World)
    requires fs.Valid() && !fs.ended && (!fs.err ==> Same(fs, w))
    modifies fs
    ensures fs.Valid() && !fs.ended && fs.err == old(fs.err) && |fs.locals| == |old(fs.locals)| && Now(fs) == old(Now(fs))
    ensures !fs.err ==> Same(fs, CapturedAll(w, names, |names|))
  {
    hide EndsOk, LabelsAre, InScope, LocalsOk, AllCode, Apart, Landings, Tracked, ScopesOk, BreaksOk, Lists;
    var i := 0;
    while i < |names|
      invariant i <= |names| && fs.Valid() && !fs.ended && fs.err == old(fs.err) && |fs.locals| == |old(fs.locals)| && Now(fs) == old(Now(fs))
      invariant !fs.err ==> Same(fs, CapturedAll(w, names, i))
    {
      ghost var u := CapturedAll(w, names, i);
      ghost var h, k := fs.hist, Innermost(fs.locals, names[i]);
      if !fs.err { ScopeLocals(fs, u); }
      fs.CaptureLocal(names[i]);
      if !fs.err {
        CapturedOne(h, fs.hist, fs.ids, k);
        EndsGrew(fs.code, h, fs.hist, fs.ids, fs.ids, fs.jumps, u.ends);
      }
      i := i + 1;
    }
  }

  lemma CapturedOne(h: seq<Local>, h': seq<Local>, ids: seq<nat>, k: int)
    requires h' == h || (0 <= k < |ids| && ids[k] < |h| && h' == h[ids[k] := h[ids[k]].(captured := true)])
    ensures Grew(h, h', ids) && More(ids, ids, |h|)
  {
    assert ids[..|ids|] == ids;
  }

  /** Instructions without jumps. */
  method EmitOthers(fs: FuncState, size: nat)
    requires fs.Valid()
    modifies fs`code
    ensures fs.Valid() && |fs.code| == |old(fs.code)| + size && fs.code[..|old(fs.code)|] == old(fs.code) && (forall i :: |old(fs.code)| <= i < |fs.code| ==> fs.code[i] == Other(0))
  {
    hide LocalsOk, AllCode, Apart, Landings, Tracked, ScopesOk, BreaksOk, Lists;
    var i := 0;
    while i < size
      invariant i <= size && fs.Valid() && |fs.code| == |old(fs.code)| + i && fs.code[..|old(fs.code)|] == old(fs.code) && (forall i :: |old(fs.code)| <= i < |fs.code| ==> fs.code[i] == Other(0))
    {
      var _ := fs.Emit(Other(0));
      i := i + 1;
    }
  }

  method RunCode(fs: FuncState, code: Code, ghost w: World)
    requires fs.Valid() && !fs.ended && (!fs.err ==> Same(fs, w))
    modifies fs
    ensures fs.Valid() && !fs.ended && fs.err == old(fs.err) && |fs.locals| == |old(fs.locals)| && Now(fs) == old(Now(fs))
    ensures !fs.err ==> Same(fs, Run(w, code))
  {
    hide EndsOk, LabelsAre, LocalsOk, AllCode, Apart, Landings, Tracked, ScopesOk, BreaksOk, Lists, CapturedAll;
    CaptureAll(fs, code.captures, w);
    ghost var before := fs.code;
    EmitOthers(fs, code.size);
    if !fs.err { EndsAppended(before, fs.code, fs.hist, fs.ids, fs.jumps, CapturedAll(w, code.captures, |code.captures|).ends); }
  }

  /** A new local in the next free register, or none for an inlined constant. */
  method DeclareNext(fs: FuncState, name: string, close: bool, inlined: bool, ghost w: World)
    requires fs.Valid() && !fs.ended && !(close && inlined) && Same(fs, w)
    modifies fs
    ensures fs.Valid() && !fs.ended && fs.err == old(fs.err) && |fs.locals| == |old(fs.locals)| + 1
    ensures Now(fs) == old(Now(fs)).(ids := fs.ids) && |fs.ids| == |old(fs.ids)| + 1 && fs.ids[..|old(fs.ids)|] == old(fs.ids)
    ensures Same(fs, Declared(w, name, close, inlined))
  {
    hide EndsOk, LabelsAre, InScope, LocalsOk, AllCode, Apart, Landings, Tracked, ScopesOk, BreaksOk, Lists;
    ScopeLocals(fs, w);
    ScopesNested(fs);
    var top := fs.RegBaseForLocals(|fs.locals|);
    ghost var h := fs.hist;
    fs.DeclareLocal(Local(name, if inlined then -1 else top, close, false, inlined));
    DeclaredOne(h, fs.hist, old(fs.ids), fs.ids);
    EndsGrew(fs.code, h, fs.hist, old(fs.ids), fs.ids, fs.jumps, w.ends);
    LabelsOn(fs.labels, w.places, old(fs.ids), fs.ids, |old(fs.ids)|);
  }

  lemma DeclaredOne(h: seq<Local>, h': seq<Local>, ids: seq<nat>, ids': seq<nat>)
    requires |h'| == |h| + 1 && h'[..|h|] == h && ids' == ids + [|h|]
    ensures Grew(h, h', ids) && More(ids, ids', |h|)
  {
    assert ids'[..|ids|] == ids;
    assert forall x :: 0 <= x < |h| ==> h'[x] == h'[..|h|][x];
  }

  /** The control slots and variables of a for loop, or the parameters of a function. */
  method DeclareVars(fs: FuncState, hidden: seq<bool>, vars: seq<string>, ghost w: World)
    requires fs.Valid() && !fs.ended && Same(fs, w)
    modifies fs
    ensures fs.Valid() && !fs.ended && fs.err == old(fs.err) && |fs.locals| == |old(fs.locals)| + |hidden| + |vars|
    ensures Now(fs) == old(Now(fs)).(ids := fs.ids) && |fs.ids| >= |old(fs.ids)| && fs.ids[..|old(fs.ids)|] == old(fs.ids)
    ensures Same(fs, DeclaredAll(w, hidden, vars, |hidden| + |vars|))
  {
    hide EndsOk, LabelsAre, LocalsOk, AllCode, Apart, Landings, Tracked, ScopesOk, BreaksOk, Lists, Declared;
    var i := 0;
    while i < |hidden| + |vars|
      invariant i <= |hidden| + |vars| && fs.Valid() && !fs.ended && fs.err == old(fs.err) && |fs.locals| == |old(fs.locals)| + i
      invariant Now(fs) == old(Now(fs)).(ids := fs.ids) && |fs.ids| >= |old(fs.ids)| && fs.ids[..|old(fs.ids)|] == old(fs.ids)
      invariant Same(fs, DeclaredAll(w, hidden, vars, i))
    {
      ghost var ids := fs.ids;
      DeclareNext(fs, if i < |hidden| then "(for state)" else vars[i - |hidden|], i < |hidden| && hidden[i], false, DeclaredAll(w, hidden, vars, i));
      assert fs.ids[..|old(fs.ids)|] == fs.ids[..|ids|][..|old(fs.ids)|];
      i := i + 1;
    }
  }

  /** The variables of a round, from number n on, are closed before the loop goes on. */
  method CloseIteration(fs: FuncState, n: nat, round: Round, back: nat, ghost w: World)
    requires fs.Valid() && n <= |fs.locals| && (!fs.err ==> Same(fs, w))
    modifies fs`code
    ensures fs.Valid() && (!fs.err ==> Same(fs, Iterated(w, n, round)) && EndOk(fs.code, fs.hist, fs.jumps, End(w.pc, w.scope, n, OfRound(round, back))))
  {
    hide EndsOk, EndOk, LabelsAre, InScope, LocalsOk, AllCode, Apart, Landings, Tracked, ScopesOk, BreaksOk, Lists, NeedsFrom;
    ghost var before := fs.code;
    if !fs.err { ScopeLocals(fs, w); }
    var level := fs.RegBaseForLocals(n);
    var up := fs.NeedsClose(n);
    match round {
      case Until => EmitTestEnd(fs, up, level, back);
      case Again =>
        EmitClose(fs, up, level);
        var _ := fs.Emit(Jmp(back - (|fs.code| + 1)));
      case Count =>
        EmitClose(fs, up, level);
        var _ := fs.Emit(Back(|fs.code| - back));
      case Call =>
        EmitClose(fs, up, level);
        var _ := fs.Emit(Other(0));
        var _ := fs.Emit(Back(|fs.code| - back));
      case Once => EmitClose(fs, up, level);
    }
    if !fs.err {
      assert fs.code[..|before|] == before;
      RoundEnded(before, fs.code, fs.hist, fs.ids, fs.locals, fs.jumps, n, round, back);
      EndsAppended(before, fs.code, fs.hist, fs.ids, fs.jumps, w.ends);
    }
  }

  method EmitClose(fs: FuncState, up: bool, level: nat)
    requires fs.Valid()
    modifies fs`code
    ensures fs.Valid() && fs.code == old(fs.code) + if up then [Close(level)] else []
  {
    hide LocalsOk, AllCode, Apart, Landings, Tracked, ScopesOk, BreaksOk, Lists;
    if up { var _ := fs.Emit(Close(level)); }
  }

  /**
   The end of a repeat: when the test fails the loop goes back. With something to
   close both ways get a close of their own, the one back behind the test's jump.
  */
  method EmitTestEnd(fs: FuncState, up: bool, level: nat, back: nat)
    requires fs.Valid()
    modifies fs`code
    ensures fs.Valid() && fs.code == old(fs.code) + RoundCode(Until, up, level, |old(fs.code)|, back)
  {
    hide LocalsOk, AllCode, Apart, Landings, Tracked, ScopesOk, BreaksOk, Lists;
    if up {
      var _ := fs.Emit(Jmp(1));
      var _ := fs.Emit(Jmp(2));
      var _ := fs.Emit(Close(level));
      var _ := fs.Emit(Jmp(back - (|fs.code| + 1)));
      var _ := fs.Emit(Close(level));
    } else {
      var _ := fs.Emit(Jmp(back - (|fs.code| + 1)));
    }
  }

  // -- labels ------------------------------------------------------------------------------------

  /** Where a label of the innermost block sees the first n variables. */
  ghost predicate LabelSees(fs: FuncState, atEnd: bool, kept: seq<nat>)
    reads fs
  {
    && |fs.scopes| > 0
    && var s := fs.scopes[|fs.scopes| - 1];
       && |kept| == (if atEnd then s.n + s.header else |fs.locals|) && |kept| <= |fs.ids| && kept == fs.ids[..|kept|]
  }

  /** One label; was: the block's beginning. */
  method PlaceLabel(fs: FuncState, name: string, atEnd: bool, ghost was: Snap, ghost w: World, ghost k0: nat, ghost kept: seq<nat>)
    requires fs.Valid() && |fs.scopes| > 0 && (fs.ended ==> atEnd)
    requires Follows(fs, was, w, k0) && AllOpen(was)
    requires !fs.err ==> LabelSees(fs, atEnd, kept) && fs.scopes[|fs.scopes| - 1].firstGoto == |was.open|
    modifies fs
    ensures fs.Valid() && fs.scopes == old(fs.scopes) && fs.locals == old(fs.locals) && (fs.ended ==> atEnd) && fs.ids == old(fs.ids)
    ensures Follows(fs, was, Placed(w, name, |was.jumps|, kept), k0)
  {
    hide EndsOk, LabelsAre, LocalsOk, AllCode, Apart, Landings, Tracked, ScopesOk, BreaksOk, Lists, Skips, Went, AllOpen, Kept, Solved, StillThere, Find;
    ghost var b, labels, p := Now(fs), fs.labels, Place(name, |fs.code|, kept);
    OpensOpen(fs);
    if !fs.err {
      FirstIsFind(fs.labels, w.places, fs.ids, name);
      if Find(w.places, name) == None {
        MeetsLabel(was, b, w, k0, name, |kept|);
      }
    }
    fs.CompileLabel(name, atEnd);
    if !fs.err {
      EndsTouched(old(fs.code), fs.code, fs.hist, fs.ids, b.jumps, fs.jumps, b.lives, fs.lives, w.ends);
      LabelIsSet(b, Now(fs), |was.open|, name, p);
      WentLabel(was, b, Now(fs), w, k0, name, p);
      LabelsPlus(labels, w.places, fs.ids, p);
    }
  }

  lemma {:induction false} LabelIsSet(b: Snap, c: Snap, first: nat, x: string, p: Place)
    requires Solved(b.jumps, c.jumps, b.open, first, |b.open|, x, p.pc, |p.kept|)
    requires c.open == Waiters(b.jumps, b.open, first, |b.open|, x)
    requires StillThere(b.jumps, b.open, first, |b.open|, x, b.lives, b.ids, |p.kept|)
    requires c.lives == b.lives && c.scopes == b.scopes && c.ids == b.ids && Kept(b.jumps, c.jumps, b.lives, c.lives)
    requires p.name == x && |p.kept| <= |b.ids| && p.kept == b.ids[..|p.kept|]
    ensures LabelSet(b, c, first, x, p)
  {
  }

  lemma LabelsPlus(labels: seq<Label>, places: seq<Place>, ids: seq<nat>, p: Place)
    requires LabelsAre(labels, places, ids) && |p.kept| <= |ids| && p.kept == ids[..|p.kept|]
    ensures LabelsAre(labels + [Label(p.name, p.pc, |p.kept|)], places + [p], ids)
  {
  }

  /** A run of labels, the last first; at the end of the block they all see its variables gone. */
  method CompileRun(fs: FuncState, stmts: seq<Stmt>, i: nat, end: nat, atEnd: bool, ghost was: Snap, ghost w: World, ghost k0: nat, ghost kept: seq<nat>)
    requires fs.Valid() && |fs.scopes| > 0 && !fs.ended && i <= end <= |stmts| && forall k :: i <= k < end ==> stmts[k].Mark?
    requires Follows(fs, was, w, k0) && AllOpen(was)
    requires LabelSees(fs, atEnd, kept) && fs.scopes[|fs.scopes| - 1].firstGoto == |was.open|
    modifies fs
    ensures fs.Valid() && fs.scopes == old(fs.scopes) && fs.locals == old(fs.locals) && (fs.ended ==> atEnd)
    ensures Follows(fs, was, Marked(stmts, i, end, w, |was.jumps|, kept), k0)
  {
    hide Follows, AllOpen, LocalsOk, AllCode, Apart, Landings, Tracked, ScopesOk, BreaksOk, Lists, Placed;
    var j := end;
    while j > i
      invariant i <= j <= end && fs.Valid() && fs.scopes == old(fs.scopes) && fs.locals == old(fs.locals) && (fs.ended ==> atEnd) && fs.ids == old(fs.ids)
      invariant Follows(fs, was, Marked(stmts, j, end, w, |was.jumps|, kept), k0)
    {
      j := j - 1;
      PlaceLabel(fs, stmts[j].name, atEnd, was, Marked(stmts, j + 1, end, w, |was.jumps|, kept), k0, kept);
    }
  }

  // -- statements --------------------------------------------------------------------------------

  /** Where a statement may begin: nothing wrong so far, and the statements before it as they say. */
  ghost predicate Ready(fs: FuncState, w: World, loop: Option<nat>)
    reads fs
  {
    && fs.Valid() && |fs.scopes| > 0 && !fs.ended && !fs.err && !w.bad
    && Same(fs, w) && loop == LoopN(fs.scopes)
  }

  lemma LoopKept(a: seq<Scope>, b: seq<Scope>)
    requires SameScopes(a, b)
    ensures |a| == |b| && LoopN(a) == LoopN(b)
    ensures |a| > 0 ==> var s, t := a[|a| - 1], b[|b| - 1]; t.n == s.n && t.header == s.header && t.firstGoto == s.firstGoto && t.firstLabel == s.firstLabel && t.isLoop == s.isLoop
  {
    LoopSame(a, b);
  }

  lemma SameRefl(a: seq<Scope>)
    ensures SameScopes(a, a)
  {
  }

  lemma SameOn(a: seq<Scope>, b: seq<Scope>, c: seq<Scope>)
    requires SameScopes(a, b) && SameScopes(b, c)
    ensures SameScopes(a, c)
  {
    forall s | 0 <= s < |a| ensures c[s].breaks[..|a[s].breaks|] == a[s].breaks {
      assert c[s].breaks[..|a[s].breaks|] == c[s].breaks[..|b[s].breaks|][..|a[s].breaks|];
    }
  }

  method CompileBreak(fs: FuncState, ghost w: World, ghost loop: Option<nat>)
    requires Ready(fs, w, loop)
    modifies fs
    ensures fs.Valid() && !fs.ended && SameScopes(old(fs.scopes), fs.scopes) && |fs.locals| >= |old(fs.locals)|
    ensures Follows(fs, old(Now(fs)), WalkStmt(Break, w, loop), |w.places|)
  {
    hide EndsOk, LabelsAre, LocalsOk, AllCode, Apart, Landings, Tracked, ScopesOk, BreaksOk, Lists, Went, Kept, BrokenTo, SameScopes, LabelIs;
    ScopesNested(fs);
    ghost var a, k, pc := Now(fs), Loop(fs.scopes), |fs.code|;
    fs.CompileBreak();
    if !fs.err {
      BrokenSize(a.scopes, fs.scopes, k, a.jumps, fs.jumps, pc, |fs.code|, |fs.locals|);
      EndsJump(old(fs.code), fs.code, fs.hist, fs.ids, a.jumps, fs.jumps, w.ends);
      WentBreak(a, Now(fs), w.wants, pc, |fs.code|);
      assert w.places[|w.places|..] == [];
    }
  }

  lemma BrokenSize(was: seq<Scope>, now: seq<Scope>, k: nat, jumpsWere: seq<Jump>, jumps: seq<Jump>, from: nat, end: nat, locals: nat)
    requires BrokenTo(was, now, k, jumpsWere, jumps, from, end, locals)
    ensures k < |was| && |jumps| == |jumpsWere| + 1 && end == from + (if locals > was[k].n then 2 else 1) && jumps[..|jumpsWere|] == jumpsWere && Base(jumps[|jumpsWere|]) == from
  {
  }

  method CompileGoto(fs: FuncState, name: string, ghost w: World, ghost loop: Option<nat>)
    requires Ready(fs, w, loop)
    modifies fs
    ensures fs.Valid() && !fs.ended && SameScopes(old(fs.scopes), fs.scopes) && |fs.locals| >= |old(fs.locals)|
    ensures Follows(fs, old(Now(fs)), WalkStmt(Goto(name), w, loop), |w.places|)
  {
    hide EndsOk, LocalsOk, AllCode, Apart, Landings, Tracked, ScopesOk, BreaksOk, Lists, Went, Kept, Find, First;
    ScopesNested(fs);
    FirstIsFind(fs.labels, w.places, fs.ids, name);
    ghost var a, l, pc := Now(fs), First(fs.labels, name), |fs.code|;
    assert l < |fs.labels| ==> LabelIs(fs.labels[l], w.places[l], fs.ids);
    fs.CompileGoto(name);
    EndsJump(old(fs.code), fs.code, fs.hist, fs.ids, a.jumps, fs.jumps, w.ends);
    WentGoto(a, Now(fs), w.wants, pc, if l < |fs.labels| then At(w.places[l].pc, w.places[l].kept) else ToLabel(name));
    assert w.places[|w.places|..] == [];
  }

  method CompilePlain(fs: FuncState, s: Stmt, ghost w: World, ghost loop: Option<nat>)
    requires Ready(fs, w, loop) && (s.Plain? || s.Declare? || s.Inlined?)
    modifies fs
    ensures fs.Valid() && !fs.ended && SameScopes(old(fs.scopes), fs.scopes) && |fs.locals| >= |old(fs.locals)|
    ensures Follows(fs, old(Now(fs)), WalkStmt(s, w, loop), |w.places|)
  {
    hide EndsOk, LabelsAre, LocalsOk, AllCode, Apart, Landings, Tracked, ScopesOk, BreaksOk, Lists, Went, Run, Declared;
    ScopesNested(fs);
    ghost var a, v := Now(fs), WalkStmt(s, w, loop);
    StmtExtends(s, w, loop);
    RunOrDeclare(s, w, loop);
    match s {
      case Plain(code) => RunCode(fs, code, w);
      case Declare(name, close) => DeclareNext(fs, name, close, false, w);
      case Inlined(name) => DeclareNext(fs, name, false, true, w);
    }
    assert a.ids[..|a.ids|] == a.ids && w.places[|w.places|..] == [];
    WentNowhere(a, Now(fs), v.wants);
  }

  lemma {:induction false} RunOrDeclare(s: Stmt, w: World, loop: Option<nat>)
    requires s.Plain? || s.Declare? || s.Inlined?
    ensures var v := WalkStmt(s, w, loop); v.wants == w.wants && v.places == w.places && v.bad == w.bad
  {
    if s.Plain? { CapturedExtends(w, s.code.captures, |s.code.captures|); }
  }

  /** Into a scope, with the code and the variables at its head. */
  method OpenScope(fs: FuncState, isLoop: bool, before: Code, hidden: seq<bool>, vars: seq<string>, ghost w: World, ghost loop: Option<nat>) returns (ghost v: World)
    requires Ready(fs, w, loop)
    modifies fs
    ensures v == DeclaredAll(Run(w, before), hidden, vars, |hidden| + |vars|) && v.wants == w.wants && v.places == w.places
    ensures Ready(fs, v, if isLoop then Some(|w.scope|) else loop)
    ensures ScopeEntered(old(Now(fs)), Now(fs)) && |fs.scopes| == |old(fs.scopes)| + 1 && |fs.locals| == |old(fs.locals)| + |hidden| + |vars|
    ensures fs.scopes[|old(fs.scopes)|] == Scope(|w.scope|, fs.scopes[|old(fs.scopes)|].baseReg, isLoop, |w.places|, |fs.pendGotos|, |hidden| + |vars|, [])
  {
    hide EndsOk, LabelsAre, LocalsOk, AllCode, Apart, Landings, Tracked, ScopesOk, BreaksOk, Lists, Run, DeclaredAll;
    ghost var a := Now(fs);
    ScopeLocals(fs, w);
    ScopesNested(fs);
    fs.EnterScope(isLoop);
    LabelsCount(fs.labels, w.places, fs.ids);
    LoopEntered(a.scopes, fs.scopes);
    RunCode(fs, before, w);
    RunExtends(w, before);
    DeclareVars(fs, hidden, vars, Run(w, before));
    DeclaredExtends(Run(w, before), hidden, vars, |hidden| + |vars|);
    ghost var mid := fs.scopes;
    fs.SetHeader(|hidden| + |vars|);
    LoopHeader(mid, fs.scopes);
    v := DeclaredAll(Run(w, before), hidden, vars, |hidden| + |vars|);
    RunBad(w, before, hidden, vars, |hidden| + |vars|);
  }

  lemma LabelsCount(labels: seq<Label>, places: seq<Place>, ids: seq<nat>)
    requires LabelsAre(labels, places, ids)
    ensures |labels| == |places|
  {
  }

  lemma LoopEntered(a: seq<Scope>, b: seq<Scope>)
    requires |b| == |a| + 1 && b[..|a|] == a
    ensures LoopN(b) == if b[|a|].isLoop then Some(b[|a|].n) else LoopN(a)
  {
  }

  lemma LoopHeader(a: seq<Scope>, b: seq<Scope>)
    requires |a| == |b| > 0 && b == a[|a| - 1 := b[|a| - 1]] && b[|a| - 1].isLoop == a[|a| - 1].isLoop && b[|a| - 1].n == a[|a| - 1].n
    ensures LoopN(a) == LoopN(b)
  {
    LoopSame(a, b);
  }

  lemma {:induction false} RunBad(w: World, before: Code, hidden: seq<bool>, vars: seq<string>, n: nat)
    requires n <= |hidden| + |vars|
    ensures DeclaredAll(Run(w, before), hidden, vars, n).bad == w.bad
  {
    CapturedExtends(w, before.captures, |before.captures|);
    DeclaredExtends(Run(w, before), hidden, vars, n);
  }

  /** Code inside a block, between its statements. */
  method RunOn(fs: FuncState, code: Code, ghost was: Snap, ghost w: World, ghost k0: nat)
    requires fs.Valid() && !fs.ended && Follows(fs, was, w, k0)
    modifies fs
    ensures fs.Valid() && !fs.ended && fs.scopes == old(fs.scopes) && |fs.locals| == |old(fs.locals)| && Follows(fs, was, Run(w, code), k0)
  {
    hide EndsOk, LabelsAre, LocalsOk, AllCode, Apart, Landings, Tracked, ScopesOk, BreaksOk, Lists, Run, Went;
    RunExtends(w, code);
    RunBad(w, code, [], [], 0);
    ghost var now := Now(fs);
    RunCode(fs, code, w);
    assert Now(fs) == now;
  }

  method CloseRound(fs: FuncState, n: nat, round: Round, back: nat, ghost was: Snap, ghost w: World, ghost k0: nat)
    requires fs.Valid() && n <= |fs.locals| && Follows(fs, was, w, k0)
    modifies fs`code
    ensures fs.Valid() && Follows(fs, was, Iterated(w, n, round), k0)
    ensures !fs.err ==> EndOk(fs.code, fs.hist, fs.jumps, End(w.pc, w.scope, n, OfRound(round, back)))
  {
    hide EndsOk, EndOk, LabelsAre, LocalsOk, AllCode, Apart, Landings, Tracked, ScopesOk, BreaksOk, Lists, InScope, Went, NeedsFrom;
    CloseIteration(fs, n, round, back, w);
  }

  /** Out of the scope that was entered between a and d. */
  method LeaveBlock(fs: FuncState, ghost a: Snap, ghost d: Snap, ghost w: World, ghost v: World, isLoop: bool, ghost ends: seq<End>)
    requires fs.Valid() && SameScopes(d.scopes, fs.scopes) && Follows(fs, d, v, |w.places|)
    requires ScopeEntered(a, d) && |w.wants| == |a.jumps| && |w.scope| == |a.ids|
    requires d.scopes[|a.scopes|].isLoop == isLoop && d.scopes[|a.scopes|].firstLabel == |w.places| && Extends(w, v)
    requires !fs.err ==> forall q :: 0 <= q < |ends| ==> EndOk(fs.code, fs.hist, fs.jumps, ends[q]) && ends[q].live == fs.ids && |a.ids| <= ends[q].n
    modifies fs
    ensures fs.Valid() && !fs.ended && SameScopes(a.scopes, fs.scopes) && |fs.locals| == |a.ids|
    ensures Follows(fs, a, Left(w, v, isLoop, ends), |w.places|)
  {
    hide EndsOk, EndOk, Untouched, RegBase, LabelsAre, LocalsOk, AllCode, Apart, Landings, Tracked, ScopesOk, BreaksOk, Lists, Went, Left, SameScopes, ScopeEntered, NeedsFrom, Landed, Kept, LandAt, Nested, AllOpen, InScope;
    ghost var b, home, labels, n, k, code, locals := Now(fs), fs.home, fs.labels, |a.ids|, |w.places|, fs.code, fs.locals;
    ghost var end := |fs.code| + if NeedsFrom(fs.locals, n) then 1 else 0;
    ScopesNested(fs);
    OpensOpen(fs);
    TopScope(a, d, fs.scopes);
    if !fs.err {
      ScopeLocals(fs, v);
      LeftLabels(fs.labels, v.places, fs.ids, w.places, n);
    }
    fs.LeaveScope();
    if !fs.err {
      IsLeft(b, Now(fs), end);
      LeftIs(w, v, isLoop, n, end, ends);
      WentOut(a, d, b, Now(fs), home, w, v, end, isLoop, ends);
      EndsLeft(code, fs.code, fs.hist, b.ids, locals, b.jumps, fs.jumps, b.lives, fs.lives, v.ends, ends, n);
      assert w.places[|w.places|..] == [];
    } else {
      LeftBad(w, v, isLoop, ends);
    }
  }

  /** The ends seen before, those of the last round, and that of the block itself. */
  lemma {:induction false} EndsLeft(code: seq<Ins>, code': seq<Ins>, hist: seq<Local>, ids: seq<nat>, locals: seq<Local>, jumps: seq<Jump>, jumps': seq<Jump>, la: seq<seq<nat>>, lb: seq<seq<nat>>, ends: seq<End>, more: seq<End>, n: nat)
    requires EndsOk(code, hist, ids, jumps, ends) && Untouched(code, code', jumps) && Kept(jumps, jumps', la, lb) && |jumps| == |jumps'|
    requires LocalsOk(hist, ids, locals) && n <= |locals| && Apart(jumps, |code|)
    requires |code'| == |code| + (if NeedsFrom(locals, n) then 1 else 0) && (NeedsFrom(locals, n) ==> code'[|code|] == Close(RegBase(locals, n)))
    requires forall q :: 0 <= q < |more| ==> EndOk(code, hist, jumps, more[q]) && more[q].live == ids && n <= more[q].n
    ensures n <= |ids| && EndsOk(code', hist, ids[..n], jumps', ends + more + [End(|code|, ids, n, OfBlock)])
  {
    SameCounts(hist, ids, locals);
    EndsTouched(code, code', hist, ids, jumps, jumps', la, lb, ends);
    EndsLess(code', hist, ids, n, jumps', ends);
    KeptApart(jumps, jumps', la, lb, |code|);
    BlockEnded(code, code', hist, ids, locals, jumps', n);
    hide LocalsOk, EndOk, Gone, Kept, Apart, Untouched, NeedsFrom, RegBase;
    forall q | 0 <= q < |more| ensures EndOk(code', hist, jumps', more[q]) && Gone(ids[..n], more[q]) {
      EndTouched(code, code', hist, jumps, jumps', la, lb, more[q]);
      GoneOut(hist, ids, locals, n, more[q]);
    }
    GoneOut(hist, ids, locals, n, End(|code|, ids, n, OfBlock));
  }

  lemma SameCounts(hist: seq<Local>, ids: seq<nat>, locals: seq<Local>)
    requires LocalsOk(hist, ids, locals)
    ensures |ids| == |locals|
  {
  }

  lemma KeptApart(was: seq<Jump>, now: seq<Jump>, la: seq<seq<nat>>, lb: seq<seq<nat>>, n: int)
    requires Kept(was, now, la, lb) && |was| == |now| && Apart(was, n)
    ensures Apart(now, n)
  {
  }

  lemma LeftBad(w: World, v: World, isLoop: bool, ends: seq<End>)
    ensures Left(w, v, isLoop, ends).bad == v.bad
  {
  }

  /** The innermost scope is the one entered, and the others are as before. */
  lemma TopScope(a: Snap, d: Snap, scopes: seq<Scope>)
    requires ScopeEntered(a, d) && SameScopes(d.scopes, scopes)
    ensures |scopes| == |a.scopes| + 1 && SameScopes(a.scopes, scopes[..|a.scopes|])
    ensures var s := scopes[|a.scopes|]; s.n == |a.ids| && s.isLoop == d.scopes[|a.scopes|].isLoop && s.firstLabel == d.scopes[|a.scopes|].firstLabel
  {
    assert forall s :: 0 <= s < |a.scopes| ==> d.scopes[s] == d.scopes[..|a.scopes|][s];
  }

  lemma LeftLabels(labels: seq<Label>, places: seq<Place>, ids: seq<nat>, before: seq<Place>, n: nat)
    requires LabelsAre(labels, places, ids) && |before| <= |places| && places[..|before|] == before && n <= |ids|
    requires forall l :: 0 <= l < |before| && l < |labels| ==> labels[l].n <= n
    ensures |before| <= |labels| && LabelsAre(labels[..|before|], before, ids[..n])
  {
    var k := |before|;
    LabelsFewer(labels, places, ids, k);
    assert ids[..n][..n] == ids[..n];
    LabelsOn(labels[..k], before, ids, ids[..n], n);
  }

  lemma IsLeft(b: Snap, c: Snap, end: nat)
    requires |b.scopes| > 0 && Kept(b.jumps, c.jumps, b.lives, c.lives) && c.lives == b.lives
    requires var s := b.scopes[|b.scopes| - 1]; Landed(b.jumps, c.jumps, s.breaks, end) && s.n <= |b.ids| && c.ids == b.ids[..s.n]
    requires c.scopes == b.scopes[..|b.scopes| - 1] && c.open == b.open
    ensures ScopeLeft(b, c, end)
  {
  }

  lemma LeftIs(w: World, v: World, isLoop: bool, n: nat, end: nat, ends: seq<End>)
    requires Extends(w, v) && n == |w.scope| && end == v.pc + if NeedsFrom(InScope(v), n) then 1 else 0
    ensures var u := Left(w, v, isLoop, ends);
            u.pc == end && u.decls == v.decls && u.scope == v.scope[..n] == Take(v.scope, n) && u.places == w.places && |u.wants| == |v.wants| && u.bad == v.bad && u.ends == v.ends + ends + [End(v.pc, v.scope, n, OfBlock)]
  {
  }

  /** compileBlockWith: after an error nothing more is compiled. */
  method CompileBlock(fs: FuncState, stmts: seq<Stmt>, labelEnd: bool, ghost w: World, ghost loop: Option<nat>, ghost floor: nat)
    requires Ready(fs, w, loop)
    requires var s := fs.scopes[|fs.scopes| - 1]; floor == s.n + s.header && s.firstGoto == |fs.pendGotos|
    modifies fs
    ensures fs.Valid() && SameScopes(old(fs.scopes), fs.scopes) && |fs.locals| >= |old(fs.locals)| && (fs.ended ==> labelEnd)
    ensures Follows(fs, old(Now(fs)), Walk(stmts, 0, w, loop, |w.wants|, floor, labelEnd), |w.places|)
    decreases stmts, 0
  {
    hide EndsOk, LabelsAre, LocalsOk, AllCode, Apart, Landings, Tracked, ScopesOk, BreaksOk, Lists, Went, WalkStmt, Marked, AllOpen, SameScopes, Extends, Unseen, LoopN, Take;
    ghost var a, u := Now(fs), w;
    OpensOpen(fs);
    ScopesNested(fs);
    WentStart(a, w);
    ExtendsSelf(w);
    SameRefl(fs.scopes);
    var i := 0;
    while i < |stmts|
      invariant i <= |stmts| && fs.Valid() && SameScopes(a.scopes, fs.scopes) && |fs.locals| >= |old(fs.locals)| && (fs.ended ==> labelEnd && i == |stmts|)
      invariant Walk(stmts, 0, w, loop, |w.wants|, floor, labelEnd) == Walk(stmts, i, u, loop, |w.wants|, floor, labelEnd)
      invariant Extends(w, u) && Follows(fs, a, u, |w.places|)
    {
      if fs.err {
        WalkExtends(stmts, i, u, loop, |w.wants|, floor, labelEnd);
        StaysBad(u, Walk(stmts, i, u, loop, |w.wants|, floor, labelEnd));
        return;
      }
      LoopKept(a.scopes, fs.scopes);
      ghost var scopes := fs.scopes;
      ScopesNested(fs);
      if stmts[i].Mark? {
        var end := i + 1;
        assert RunEnd(stmts, i) == RunEnd(stmts, i + 1);
        while end < |stmts| && stmts[end].Mark?
          invariant i < end <= |stmts| && (forall k :: i <= k < end ==> stmts[k].Mark?) && RunEnd(stmts, i) == RunEnd(stmts, end)
        {
          end := end + 1;
        }
        var last := LabelAtBlockEnd(stmts, end);
        assert last <==> end == |stmts|;
        ghost var kept := Seen(stmts, end, u.scope, floor, labelEnd);
        SeenThere(fs.ids, floor);
        CompileRun(fs, stmts, i, end, labelEnd && last, a, u, |w.places|, kept);
        MarkedExtends(stmts, i, end, u, |w.wants|, kept);
        ExtendsOn(w, u, Marked(stmts, i, end, u, |w.wants|, kept));
        u := Marked(stmts, i, end, u, |w.wants|, kept);
        i := end;
      } else {
        ghost var b, v := Now(fs), WalkStmt(stmts[i], u, loop);
        CompileStmt(fs, stmts[i], u, loop);
        StmtExtends(stmts[i], u, loop);
        ExtendsOn(w, u, v);
        if !fs.err { WentFurther(a, b, Now(fs), u, v, |w.places|); }
        u := v;
        i := i + 1;
      }
      SameOn(a.scopes, scopes, fs.scopes);
    }
  }

  method LabelAtBlockEnd(stmts: seq<Stmt>, i: nat) returns (b: bool)
    ensures b == forall k :: i <= k < |stmts| ==> stmts[k].Mark?
  {
    var k := i;
    while k < |stmts|
      invariant forall m :: i <= m < k && m < |stmts| ==> stmts[m].Mark?
    {
      if !stmts[k].Mark? { return false; }
      k := k + 1;
    }
    b := true;
  }

  lemma WentStart(a: Snap, w: World)
    requires |w.wants| == |a.jumps| == |a.lives|
    ensures Went(a, a, w.wants, w.places[|w.places|..])
  {
    assert w.places[|w.places|..] == [] && a.ids[..|a.ids|] == a.ids;
    WentNowhere(a, a, w.wants);
  }

  lemma StaysBad(w: World, v: World)
    requires Extends(w, v) && w.bad
    ensures v.bad
  {
  }

  lemma SeenThere(ids: seq<nat>, floor: nat)
    requires floor <= |ids|
    ensures Take(ids, floor) == ids[..floor] && ids[..|ids|] == ids
  {
  }

  lemma WentFurther(a: Snap, b: Snap, c: Snap, u: World, v: World, k0: nat)
    requires k0 <= |u.places| && v.places == u.places && Extends(u, v) && Unseen(u, v)
    requires Went(a, b, u.wants, u.places[k0..]) && Went(b, c, v.wants, v.places[|u.places|..])
    ensures Went(a, c, v.wants, v.places[k0..])
  {
    assert v.places[|u.places|..] == [];
    WentOn(a, b, c, u, v, k0);
  }

  method CompileStmt(fs: FuncState, s: Stmt, ghost w: World, ghost loop: Option<nat>)
    requires Ready(fs, w, loop) && !s.Mark?
    modifies fs
    ensures fs.Valid() && !fs.ended && SameScopes(old(fs.scopes), fs.scopes) && |fs.locals| >= |old(fs.locals)|
    ensures Follows(fs, old(Now(fs)), WalkStmt(s, w, loop), |w.places|)
    decreases s
  {
    hide LocalsOk, AllCode, Apart, Landings, Tracked, ScopesOk, BreaksOk, Lists, Follows, Scoped, Ready;
    match s
    case Plain(_) => CompilePlain(fs, s, w, loop);
    case Declare(_, _) => CompilePlain(fs, s, w, loop);
    case Inlined(_) => CompilePlain(fs, s, w, loop);
    case Do(body) => CompileScoped(fs, None, NO_CODE, [], [], body, true, NO_CODE, w, loop);
    case While(cond, body) => CompileScoped(fs, Some(Again), cond, [], [], body, true, NO_CODE, w, loop);
    case Repeat(body, cond, round) => CompileScoped(fs, Some(round), NO_CODE, [], [], body, false, cond, w, loop);
    case For(init, hidden, vars, body, round) => CompileScoped(fs, Some(round), init, hidden, vars, body, true, NO_CODE, w, loop);
    case Break => CompileBreak(fs, w, loop);
    case Goto(name) => CompileGoto(fs, name, w, loop);
    case Mark(_) => assert false;
  }

  /** A block with what comes before and after its statements inside its scope. */
  method CompileScoped(fs: FuncState, round: Option<Round>, before: Code, hidden: seq<bool>, vars: seq<string>, body: seq<Stmt>, labelEnd: bool, after: Code, ghost w: World, ghost loop: Option<nat>)
    requires Ready(fs, w, loop)
    modifies fs
    ensures fs.Valid() && !fs.ended && SameScopes(old(fs.scopes), fs.scopes) && |fs.locals| >= |old(fs.locals)|
    ensures Follows(fs, old(Now(fs)), Scoped(w, loop, round, before, hidden, vars, body, labelEnd, after), |w.places|)
    decreases body, 2
  {
    hide EndsOk, EndOk, LabelsAre, LocalsOk, AllCode, Apart, Landings, Tracked, ScopesOk, BreaksOk, Lists, Went, Walk, Run, DeclaredAll, Follows, Left;
    ghost var a, n0 := Now(fs), |w.scope|;
    ScopeLocals(fs, w);
    var n := |fs.locals|;
    var start := |fs.code|;
    ghost var v := OpenScope(fs, round.Some?, before, hidden, vars, w, loop);
    ghost var d, loop' := Now(fs), if round.Some? then Some(n0) else loop;
    CompileBlock(fs, body, labelEnd, v, loop', n0 + |hidden| + |vars|);
    v := Walk(body, 0, v, loop', |w.wants|, n0 + |hidden| + |vars|, labelEnd);
    if !labelEnd {
      RunOn(fs, after, d, v, |w.places|);
      v := Run(v, after);
    }
    InsideExtends(w, loop, round, before, hidden, vars, body, labelEnd, after);
    if round.Some? {
      var back := if round.value.Count? || round.value.Call? then start + before.size else start;
      ghost var e := RoundEnd(w, v, n0 + |hidden|, round.value, before);
      CloseRound(fs, n + |hidden|, round.value, back, d, v, |w.places|);
      OnlyPc(w, v, Iterated(v, n0 + |hidden|, round.value));
      SameScope(fs, d, Iterated(v, n0 + |hidden|, round.value), |w.places|);
      LeaveBlock(fs, a, d, w, Iterated(v, n0 + |hidden|, round.value), true, [e]);
    } else {
      LeaveBlock(fs, a, d, w, v, false, []);
    }
  }

  lemma SameScope(fs: FuncState, was: Snap, w: World, k0: nat)
    requires Follows(fs, was, w, k0)
    ensures !fs.err ==> w.scope == fs.ids
  {
  }

  // -- whole functions ------------------------------------------------------------------------------

  /** No break outside a loop, no label twice in sight, no goto into the scope of a variable or without its label. */
  predicate Accepted(params: seq<string>, body: seq<Stmt>) {
    var w := Function(params, body);
    !w.bad && forall q :: 0 <= q < |w.wants| ==> !w.wants[q].dest.ToLabel?
  }

  /** Once every scope is left and every goto has found its label nothing is undecided. */
  lemma AllSound(fs: FuncState)
    requires fs.Valid() && fs.scopes == [] && fs.locals == [] && fs.pendGotos == []
    ensures |fs.lives| == |fs.jumps|
    ensures forall q :: 0 <= q < |fs.jumps| ==> Sound(fs.code, fs.hist, fs.lives[q], fs.jumps[q]) && CodeOk(fs.code, fs.jumps[q])
  {
    forall q | 0 <= q < |fs.jumps| ensures Sound(fs.code, fs.hist, fs.lives[q], fs.jumps[q]) && CodeOk(fs.code, fs.jumps[q]) {
      var j, live := fs.jumps[q], fs.lives[q];
      assert Known(fs.hist, live, j) && Status(fs.hist, fs.ids, 0, live, j, q in fs.pendCloses, false);
      assert CodeOk(fs.code, j);
      assert Landing(fs.jumps, j.target, |fs.code|);
      hide AllCode, Apart, Landings, Tracked;
      SettledIsSound(fs.code, fs.hist, fs.ids, 0, live, j);
    }
  }

  lemma JumpRight(code: seq<Ins>, decls: seq<Local>, now: Snap, q: nat, v: Want)
    requires q < |now.jumps| == |now.lives| && Goes(now, q, v, []) && now.scopes == [] && now.open == []
    requires Sound(code, decls, now.lives[q], now.jumps[q]) && CodeOk(code, now.jumps[q])
    ensures Right(code, decls, v)
  {
  }

  /** A goto still waiting is one whose label never came. */
  lemma NoneWaits(now: Snap, wants: seq<Want>)
    requires |now.jumps| == |now.lives| == |wants| && now.scopes == [] && AllOpen(now)
    requires forall q :: 0 <= q < |now.jumps| ==> Goes(now, q, wants[q], [])
    ensures now.open == [] <==> forall q :: 0 <= q < |wants| ==> !wants[q].dest.ToLabel?
  {
    if now.open != [] {
      var q := now.open[0];
      assert q < |now.jumps| && Goes(now, q, wants[q], []);
    }
    forall q | 0 <= q < |wants| && wants[q].dest.ToLabel? ensures now.open != [] {
      assert Goes(now, q, wants[q], []);
    }
  }

  /**
   A whole function is accepted exactly when it keeps the rules; then the code has
   the length the statements say, every break and goto in it is right, and so is
   every end of a round or a block.
  */
  method CompileFunction(params: seq<string>, body: seq<Stmt>) returns (code: seq<Ins>, ok: bool)
    ensures ok <==> Accepted(params, body)
    ensures ok ==> |code| == Function(params, body).pc
    ensures ok ==> forall q :: 0 <= q < |Function(params, body).wants| ==> Right(code, Function(params, body).decls, Function(params, body).wants[q])
    ensures ok ==> forall q :: 0 <= q < |Function(params, body).ends| ==> Ended(code, Function(params, body).decls, Function(params, body).ends[q])
  {
    hide EndsOk, LabelsAre, Function, Went, Right, LocalsOk, AllCode, Apart, Landings, Tracked, ScopesOk, BreaksOk, Lists;
    var fs := new FuncState();
    CompileBody(fs, params, body);
    ok := !fs.err && fs.pendGotos == [];
    code := fs.code;
    if !fs.err {
      Finished(fs, Function(params, body));
      EndsEnded(fs, Function(params, body));
    }
  }

  method CompileBody(fs: FuncState, params: seq<string>, body: seq<Stmt>)
    requires fs.Valid() && !fs.ended && !fs.err && fs.code == [] && fs.scopes == [] && fs.locals == [] && fs.jumps == []
    requires fs.hist == [] && fs.ids == [] && fs.lives == [] && fs.labels == [] && fs.pendGotos == []
    modifies fs
    ensures fs.Valid() && fs.scopes == [] && fs.locals == [] && fs.err == Function(params, body).bad
    ensures !fs.err ==> Same(fs, Function(params, body)) && Went(Snap([], [], [], [], []), Now(fs), Function(params, body).wants, [])
  {
    hide LocalsOk, AllCode, Apart, Landings, Tracked, ScopesOk, BreaksOk, Lists, Went, Walk, DeclaredAll, Left, LabelsAre, AllOpen;
    ghost var a, w := Now(fs), World([], [], 0, [], [], [], false);
    NoLabels();
    fs.EnterScope(false);
    DeclareVars(fs, [], params, w);
    DeclaredExtends(w, [], params, |params|);
    RunBad(w, NO_CODE, [], params, |params|);
    ghost var d, v := Now(fs), DeclaredAll(w, [], params, |params|);
    CompileBlock(fs, body, true, v, None, 0);
    WalkExtends(body, 0, v, None, 0, 0, true);
    v := Walk(body, 0, v, None, 0, 0, true);
    EmitOthers(fs, 1);
    v := v.(pc := v.pc + 1);
    LeaveBlock(fs, a, d, w, v, false, []);
    LeftExtends(w, v, false, []);
    assert Left(w, v, false, []).places == [];
  }

  lemma NoLabels()
    ensures LabelsAre([], [], []) && EndsOk([], [], [], [], [])
  {
  }

  lemma EndsEnded(fs: FuncState, w: World)
    requires Same(fs, w)
    ensures forall q :: 0 <= q < |w.ends| ==> Ended(fs.code, w.decls, w.ends[q])
  {
    hide LabelsAre, Ended, Gone;
    forall q | 0 <= q < |w.ends| ensures Ended(fs.code, w.decls, w.ends[q]) {
      assert EndOk(fs.code, fs.hist, fs.jumps, w.ends[q]);
    }
  }

  lemma Finished(fs: FuncState, w: World)
    requires fs.Valid() && fs.scopes == [] && fs.locals == [] && Same(fs, w) && |w.wants| == |fs.jumps|
    requires Went(Snap([], [], [], [], []), Now(fs), w.wants, [])
    ensures fs.pendGotos == [] <==> forall q :: 0 <= q < |w.wants| ==> !w.wants[q].dest.ToLabel?
    ensures fs.pendGotos == [] ==> forall q :: 0 <= q < |w.wants| ==> Right(fs.code, w.decls, w.wants[q])
  {
    hide EndsOk, LabelsAre, LocalsOk, AllCode, Apart, Landings, Tracked, ScopesOk, BreaksOk, Lists, Kept, Grown, Still, Goes, Sound, CodeOk, Right, AllOpen;
    OpensOpen(fs);
    NoneWaits(Now(fs), w.wants);
    if fs.pendGotos == [] {
      AllSound(fs);
      forall q | 0 <= q < |w.wants| ensures Right(fs.code, w.decls, w.wants[q]) {
        JumpRight(fs.code, w.decls, Now(fs), q, w.wants[q]);
      }
    }
  }

  /** while true do local x; break; f = function() x end end: a capture that comes after the break counts for it. */
  lemma {:induction false} CapturedLater(x: string)
    ensures var body := [While(NO_CODE, [Declare(x, false), Break, Plain(Code(1, [x]))])];
            var w := Function([], body);
            && Accepted([], body) && |w.wants| == 1 && LeavesNeedy(w.decls, w.wants[0].live, 0) && w.wants[0].dest == At(6, [])
            && |w.ends| == 3 && w.ends[0] == End(3, [0], 0, OfRound(Again, 0)) && LeavesNeedy(w.decls, w.ends[0].live, 0)
  {
    var inner := [Declare(x, false), Break, Plain(Code(1, [x]))];
    var body := [While(NO_CODE, inner)];
    var w0 := World([], [], 0, [], [], [], false);
    var v := InLoop(x);
    CapturedInLoop(x, inner);
    var e := End(3, [0], 0, OfRound(Again, 0));
    var u := World(v.decls, [], 6, [Want(0, [0], At(6, []))], [], [e, End(5, [0], 0, OfBlock)], false);
    hide Walk, Inside;
    assert InScope(v) == v.decls && Needs(InScope(v)[0]);
    assert RoundEnd(w0, v, 0, Again, NO_CODE) == e;
    RoundOfLater(x);
    assert Left(w0, v.(pc := 5), true, [e]) == u;
    assert WalkStmt(body[0], w0, None) == u;
    WalkOne(body, w0);
    assert Needs(v.decls[[0][0]]);
  }

  lemma {:induction false} RoundOfLater(x: string)
    ensures Iterated(InLoop(x), 0, Again) == InLoop(x).(pc := 5)
  {
    var v := InLoop(x);
    assert InScope(v) == v.decls && Needs(InScope(v)[0]);
  }

  lemma {:induction false} WalkOne(body: seq<Stmt>, w: World)
    requires |body| == 1 && !body[0].Mark?
    ensures Walk(body, 0, w, None, 0, 0, true) == WalkStmt(body[0], w, None)
  {
    assert Walk(body, 1, WalkStmt(body[0], w, None), None, 0, 0, true) == WalkStmt(body[0], w, None);
  }

  function InLoop(x: string): World {
    World([Local(x, 0, false, true, false)], [0], 3, [Want(0, [0], OutOfLoop)], [], [], false)
  }

  lemma {:induction false} CapturedInLoop(x: string, inner: seq<Stmt>)
    requires inner == [Declare(x, false), Break, Plain(Code(1, [x]))]
    ensures Inside(World([], [], 0, [], [], [], false), None, Some(Again), NO_CODE, [], [], inner, true, NO_CODE) == InLoop(x)
  {
    var w0 := World([], [], 0, [], [], [], false);
    assert Run(w0, NO_CODE) == w0 && DeclaredAll(w0, [], [], 0) == w0;
    ThreeStatements(x, inner);
    hide Walk, Run, CapturedAll, WalkStmt, Captured, Declared;
  }

  lemma {:induction false} ThreeStatements(x: string, inner: seq<Stmt>)
    requires inner == [Declare(x, false), Break, Plain(Code(1, [x]))]
    ensures Walk(inner, 0, World([], [], 0, [], [], [], false), Some(0), 0, 0, true) == InLoop(x)
  {
    var w0 := World([], [], 0, [], [], [], false);
    var l := Local(x, 0, false, false, false);
    var w1 := World([l], [0], 0, [], [], [], false);
    var w2 := World([l], [0], 2, [Want(0, [0], OutOfLoop)], [], [], false);
    var w3 := InLoop(x);
    assert WalkStmt(inner[0], w0, Some(0)) == w1;
    assert WalkStmt(inner[1], w1, Some(0)) == w2;
    CaptureOne(x, w2, l);
    hide WalkStmt;
    assert Walk(inner, 3, w3, Some(0), 0, 0, true) == w3;
    assert Walk(inner, 2, w2, Some(0), 0, 0, true) == w3;
    assert Walk(inner, 1, w1, Some(0), 0, 0, true) == w3;
  }

  lemma {:induction false} CaptureOne(x: string, w: World, l: Local)
    requires w.decls == [l] && w.scope == [0] && l.name == x && !l.inlined
    ensures WalkStmt(Plain(Code(1, [x])), w, Some(0)) == w.(decls := [l.(captured := true)], pc := w.pc + 1)
  {
    assert InScope(w) == [l] && Innermost([l], x) == 0;
    assert CapturedAll(w, [x], 1) == Captured(CapturedAll(w, [x], 0), x);
  }
}
