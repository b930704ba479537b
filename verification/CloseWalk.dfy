/**
 What the scoping rules say about a function body, read off the statements alone:
 where each local lives and whether it is captured or must be closed, where each
 break and goto stands in the code, which locals are in scope there, where it goes
 and which of them are still in scope at that place.
*/
module CloseWalk {
  import opened Wrappers
  import opened CloseRules

  /** Instructions without jumps or scopes, and the names the functions they create mention. */
  datatype Code = Code(size: nat, captures: seq<string>)

  /**
   How a round of a loop ends: with a jump back; with the loop instruction of a
   numeric for; with the call and the loop instruction of a generic for; behind a
   test, with a jump back if it fails; or not at all, the loop having one round.
  */
  datatype Round = Again | Count | Call | Until | Once

  /** The length of that code, when the variables of the round must be closed or need not. */
  function RoundSize(r: Round, closes: bool): nat {
    match r
    case Again => if closes then 2 else 1
    case Count => if closes then 2 else 1
    case Call => if closes then 3 else 2
    case Until => if closes then 5 else 1
    case Once => if closes then 1 else 0
  }

  /** The end of a block, or of a round of a loop that goes back to a place. */
  datatype How = OfBlock | OfRound(round: Round, back: nat)

  /** Where variables go out of scope: the code there, the locals in scope, and how many of them stay. */
  datatype End = End(pc: nat, live: seq<nat>, n: nat, how: How)

  /** hidden: the control slots of a for loop, true if to be closed. */
  datatype Stmt =
    | Plain(code: Code)
    | Declare(name: string, close: bool)
    | Inlined(name: string)
    | Do(body: seq<Stmt>)
    | While(cond: Code, body: seq<Stmt>)
    | Repeat(body: seq<Stmt>, cond: Code, round: Round)
    | For(init: Code, hidden: seq<bool>, vars: seq<string>, body: seq<Stmt>, round: Round)
    | Break
    | Goto(name: string)
    | Mark(name: string)

  /** A label in sight: its place in the code and the locals in scope there. */
  datatype Place = Place(name: string, pc: nat, kept: seq<nat>)

  /** A break is out of its loop, a goto to a label; both end At a place, with those locals still in scope. */
  datatype Dest = OutOfLoop | ToLabel(name: string) | At(pc: nat, kept: seq<nat>)

  datatype Want = Want(pc: nat, live: seq<nat>, dest: Dest)

  /**
   All locals ever declared, those in scope by number, the length of the code, the
   jumps, the labels in sight, the ends of rounds and blocks, and whether a rule was
   broken.
  */
  datatype World = World(decls: seq<Local>, scope: seq<nat>, pc: nat, wants: seq<Want>, places: seq<Place>, ends: seq<End>, bad: bool)

  /** Of the locals in scope at a jump the outermost are those kept. */
  predicate Keeps(live: seq<nat>, kept: seq<nat>) {
    |kept| <= |live| && live[..|kept|] == kept
  }

  const NOBODY := Local("", -1, false, false, true)

  function InScope(w: World): seq<Local> {
    seq(|w.scope|, k requires 0 <= k < |w.scope| => if w.scope[k] < |w.decls| then w.decls[w.scope[k]] else NOBODY)
  }

  // -- locals ---------------------------------------------------------------------------------

  /** A new local in the register above all others, or in none. */
  function Declared(w: World, name: string, close: bool, inlined: bool): World {
    var l := Local(name, if inlined then -1 else RegBase(InScope(w), |w.scope|), close, false, inlined);
    w.(decls := w.decls + [l], scope := w.scope + [|w.decls|])
  }

  function DeclaredAll(w: World, hidden: seq<bool>, vars: seq<string>, n: nat): World
    requires n <= |hidden| + |vars|
  {
    if n == 0 then w
    else
      var v := DeclaredAll(w, hidden, vars, n - 1);
      if n <= |hidden| then Declared(v, "(for state)", hidden[n - 1], false) else Declared(v, vars[n - 1 - |hidden|], false, false)
  }

  /** A function that mentions a name captures the innermost local of that name; a constant that was inlined is not captured. */
  function Captured(w: World, name: string): World {
    var locals := InScope(w);
    var k := Innermost(locals, name);
    if k < 0 || locals[k].inlined || w.scope[k] >= |w.decls| then w
    else w.(decls := w.decls[w.scope[k] := w.decls[w.scope[k]].(captured := true)])
  }

  function CapturedAll(w: World, names: seq<string>, n: nat): World
    requires n <= |names|
  {
    if n == 0 then w else Captured(CapturedAll(w, names, n - 1), names[n - 1])
  }

  function Run(w: World, code: Code): World {
    var v := CapturedAll(w, code.captures, |code.captures|);
    v.(pc := v.pc + code.size)
  }

  // -- jumps and labels --------------------------------------------------------------------------

  function Find(places: seq<Place>, name: string): (r: Option<Place>)
    ensures r.Some? ==> r.value in places && r.value.name == name
  {
    if places == [] then None
    else if places[0].name == name then Some(places[0])
    else Find(places[1..], name)
  }

  /** A jump, and a second slot if it may have to close: when it may leave a local behind. */
  function Jumping(w: World, dest: Dest, wide: bool): World {
    w.(wants := w.wants + [Want(w.pc, w.scope, dest)], pc := w.pc + if wide then 2 else 1)
  }

  function Take(s: seq<nat>, n: nat): seq<nat> {
    if n <= |s| then s[..n] else s
  }

  /** The end of the run of labels at i. */
  function RunEnd(stmts: seq<Stmt>, i: nat): (e: nat)
    requires i <= |stmts|
    ensures i <= e <= |stmts| && (i < |stmts| && stmts[i].Mark? ==> i < e)
    ensures (forall k :: i <= k < e ==> stmts[k].Mark?) && (e < |stmts| ==> !stmts[e].Mark?)
    decreases |stmts| - i
  {
    if i < |stmts| && stmts[i].Mark? then RunEnd(stmts, i + 1) else i
  }

  /** A goto of the block waits for the label, but a local was declared since. */
  predicate Skips(wants: seq<Want>, from: nat, name: string, kept: seq<nat>) {
    exists q :: from <= q < |wants| && wants[q].dest == ToLabel(name) && !Keeps(wants[q].live, kept)
  }

  /** A label, which must not be in sight already; from: the first jump of its block. */
  function Placed(w: World, name: string, from: nat, kept: seq<nat>): World {
    w.(places := w.places + [Place(name, w.pc, kept)],
       bad := w.bad || Find(w.places, name).Some? || Skips(w.wants, from, name, kept))
  }

  /** The labels of a run, the last first. */
  function Marked(stmts: seq<Stmt>, i: nat, e: nat, w: World, from: nat, kept: seq<nat>): World
    requires i <= e <= |stmts| && forall k :: i <= k < e ==> stmts[k].Mark?
    decreases e - i
  {
    if i == e then w else Placed(Marked(stmts, i + 1, e, w, from, kept), stmts[i].name, from, kept)
  }

  /** Labels see what is in scope; at the end of a block only what is outside it. */
  function Seen(stmts: seq<Stmt>, e: nat, scope: seq<nat>, floor: nat, labelEnd: bool): seq<nat> {
    if labelEnd && e == |stmts| then Take(scope, floor) else scope
  }

  /** The jumps of a block that is left: those out of a loop go to its end, gotos to the labels of the block. */
  function Settled(wants: seq<Want>, from: nat, loop: Option<Dest>, places: seq<Place>): (r: seq<Want>)
    ensures |r| == |wants|
    ensures forall q :: 0 <= q < |r| ==> r[q] == if q < from then wants[q] else wants[q].(dest := SettledDest(wants[q].dest, loop, places))
  {
    seq(|wants|, q requires 0 <= q < |wants| => if q < from then wants[q] else wants[q].(dest := SettledDest(wants[q].dest, loop, places)))
  }

  function SettledDest(d: Dest, loop: Option<Dest>, places: seq<Place>): Dest {
    match d
    case OutOfLoop => if loop.Some? then loop.value else d
    case ToLabel(x) =>
      (match Find(places, x)
       case Some(p) => At(p.pc, p.kept)
       case None => d)
    case At(_, _) => d
  }

  // -- statements -----------------------------------------------------------------------------------

  /**
   Statements from i on. loop: the number of locals outside the innermost loop;
   from: the first jump of the block; floor: how many locals a label at the end of
   the block sees.
  */
  function Walk(stmts: seq<Stmt>, i: nat, w: World, loop: Option<nat>, from: nat, floor: nat, labelEnd: bool): World
    requires i <= |stmts|
    decreases stmts, |stmts| - i
  {
    if i == |stmts| then w
    else if stmts[i].Mark? then
      var e := RunEnd(stmts, i);
      Walk(stmts, e, Marked(stmts, i, e, w, from, Seen(stmts, e, w.scope, floor, labelEnd)), loop, from, floor, labelEnd)
    else Walk(stmts, i + 1, WalkStmt(stmts[i], w, loop), loop, from, floor, labelEnd)
  }

  const NO_CODE := Code(0, [])

  function WalkStmt(s: Stmt, w: World, loop: Option<nat>): World
    decreases s
  {
    match s
    case Plain(code) => Run(w, code)
    case Declare(name, close) => Declared(w, name, close, false)
    case Inlined(name) => Declared(w, name, false, true)
    case Do(body) => Scoped(w, loop, None, NO_CODE, [], [], body, true, NO_CODE)
    case While(cond, body) => Scoped(w, loop, Some(Again), cond, [], [], body, true, NO_CODE)
    case Repeat(body, cond, round) => Scoped(w, loop, Some(round), NO_CODE, [], [], body, false, cond)
    case For(init, hidden, vars, body, round) => Scoped(w, loop, Some(round), init, hidden, vars, body, true, NO_CODE)
    case Break => Jumping(w, OutOfLoop, loop.Some? && |w.scope| > loop.value).(bad := w.bad || loop.None?)
    case Goto(x) =>
      (match Find(w.places, x)
       case Some(p) => Jumping(w, At(p.pc, p.kept), |w.scope| > |p.kept|)
       case None => Jumping(w, ToLabel(x), |w.scope| > 0))
    case Mark(_) => w
  }

  /** The statements inside a scope of their own. */
  function Inside(w: World, loop: Option<nat>, round: Option<Round>, before: Code, hidden: seq<bool>, vars: seq<string>, body: seq<Stmt>, labelEnd: bool, after: Code): World
    decreases body, |body| + 1
  {
    var w1 := DeclaredAll(Run(w, before), hidden, vars, |hidden| + |vars|);
    var w2 := Walk(body, 0, w1, if round.Some? then Some(|w.scope|) else loop, |w.wants|, |w.scope| + |hidden| + |vars|, labelEnd);
    if labelEnd then w2 else Run(w2, after)
  }

  /** The end of a round, whose variables are those from number n on. */
  function Iterated(w: World, n: nat, round: Round): World {
    w.(pc := w.pc + RoundSize(round, NeedsFrom(InScope(w), n)))
  }

  /** A block is left: its variables are closed if need be, and nothing of it is in scope or in sight any more. */
  function Left(w: World, v: World, isLoop: bool, ends: seq<End>): World {
    var end := v.pc + if NeedsFrom(InScope(v), |w.scope|) then 1 else 0;
    var kept := Take(v.scope, |w.scope|);
    var places := if |w.places| <= |v.places| then v.places else w.places;
    World(v.decls, kept, end,
          Settled(v.wants, |w.wants|, if isLoop then Some(At(end, kept)) else None, places[|w.places|..]),
          places[..|w.places|], v.ends + ends + [End(v.pc, v.scope, |w.scope|, OfBlock)], v.bad)
  }

  function Scoped(w: World, loop: Option<nat>, round: Option<Round>, before: Code, hidden: seq<bool>, vars: seq<string>, body: seq<Stmt>, labelEnd: bool, after: Code): World
    decreases body, |body| + 2
  {
    var v := Inside(w, loop, round, before, hidden, vars, body, labelEnd, after);
    var n := |w.scope| + |hidden|;
    if round.Some? then Left(w, Iterated(v, n, round.value), true, [RoundEnd(w, v, n, round.value, before)]) else Left(w, v, false, [])
  }

  /** A for loop goes back to the code after its preparation, the others to where they began. */
  function RoundEnd(w: World, v: World, n: nat, round: Round, before: Code): End {
    End(v.pc, v.scope, n, OfRound(round, if round.Count? || round.Call? then w.pc + before.size else w.pc))
  }

  /** A whole function: its parameters, its body and a return. */
  function Function(params: seq<string>, body: seq<Stmt>): World {
    var w := World([], [], 0, [], [], [], false);
    Left(w, InFunction(params, body), false, [])
  }

  function InFunction(params: seq<string>, body: seq<Stmt>): World {
    var w := World([], [], 0, [], [], [], false);
    var v := Walk(body, 0, DeclaredAll(w, [], params, |params|), None, 0, 0, true);
    v.(pc := v.pc + 1)
  }

  // -- what the code must show ---------------------------------------------------------------------------

  predicate LeavesNeedy(decls: seq<Local>, live: seq<nat>, n: nat) {
    exists k :: n <= k < |live| && live[k] < |decls| && (decls[live[k]].captured || decls[live[k]].close)
  }

  /** A close that reaches every local left behind that needs it, and none of the first n. */
  predicate ClosesAt(code: seq<Ins>, pc: nat, decls: seq<Local>, live: seq<nat>, n: nat) {
    && pc < |code| && code[pc].Close? && (forall k :: 0 <= k < |live| ==> live[k] < |decls|)
    && (forall k :: 0 <= k < n && k < |live| ==> decls[live[k]].reg < code[pc].level)
    && (forall k :: n <= k < |live| && (decls[live[k]].captured || decls[live[k]].close) ==> code[pc].level <= decls[live[k]].reg)
  }

  predicate JumpsAt(code: seq<Ins>, pc: nat, target: int) {
    pc < |code| && code[pc] == Jmp(target - (pc + 1))
  }

  predicate LoopsAt(code: seq<Ins>, pc: nat, target: int) {
    pc < |code| && code[pc] == Back(pc - target)
  }

  /** At the end of a block what it leaves is closed; at the end of a round too, before the loop goes on. */
  predicate Ended(code: seq<Ins>, decls: seq<Local>, e: End) {
    var closes := LeavesNeedy(decls, e.live, e.n);
    var at := if closes then e.pc + 1 else e.pc;
    match e.how
    case OfBlock => closes ==> ClosesAt(code, e.pc, decls, e.live, e.n)
    case OfRound(Again, back) => (closes ==> ClosesAt(code, e.pc, decls, e.live, e.n)) && JumpsAt(code, at, back)
    case OfRound(Count, back) => (closes ==> ClosesAt(code, e.pc, decls, e.live, e.n)) && LoopsAt(code, at, back)
    case OfRound(Call, back) => (closes ==> ClosesAt(code, e.pc, decls, e.live, e.n)) && at < |code| && code[at].Other? && LoopsAt(code, at + 1, back)
    case OfRound(Until, back) =>
      if closes then
        && JumpsAt(code, e.pc, e.pc + 2) && JumpsAt(code, e.pc + 1, e.pc + 4)
        && ClosesAt(code, e.pc + 2, decls, e.live, e.n) && JumpsAt(code, e.pc + 3, back) && ClosesAt(code, e.pc + 4, decls, e.live, e.n)
      else JumpsAt(code, e.pc, back)
    case OfRound(Once, _) => closes ==> ClosesAt(code, e.pc, decls, e.live, e.n)
  }

  /** How many instructions that is. */
  function EndSize(e: End, closes: bool): nat {
    if e.how.OfRound? then RoundSize(e.how.round, closes) else if closes then 1 else 0
  }

  /**
   A jump: at its place it goes to its destination, where the outermost of its locals
   are still in scope. If it leaves one that is captured or to be closed, a close
   comes first.
  */
  predicate Right(code: seq<Ins>, decls: seq<Local>, v: Want) {
    && v.dest.At? && Keeps(v.live, v.dest.kept) && v.pc < |code|
    && var n := |v.dest.kept|;
       && (LeavesNeedy(decls, v.live, n) ==> code[v.pc].Close?)
       && if code[v.pc].Close? then ClosesAt(code, v.pc, decls, v.live, n) && JumpsAt(code, v.pc + 1, v.dest.pc)
          else JumpsAt(code, v.pc, v.dest.pc)
  }

  // -- what grows ---------------------------------------------------------------------------------------

  /** Locals and jumps are only added, and labels are only added within a block. */
  predicate Extends(w: World, v: World) {
    && |w.decls| <= |v.decls| && |w.wants| <= |v.wants| && v.wants[..|w.wants|] == w.wants
    && |w.places| <= |v.places| && v.places[..|w.places|] == w.places
    && |w.scope| <= |v.scope| && v.scope[..|w.scope|] == w.scope && (w.bad ==> v.bad)
  }

  lemma ExtendsOn(a: World, b: World, c: World)
    requires Extends(a, b) && Extends(b, c)
    ensures Extends(a, c)
  {
    assert c.wants[..|a.wants|] == c.wants[..|b.wants|][..|a.wants|];
    assert c.places[..|a.places|] == c.places[..|b.places|][..|a.places|];
    assert c.scope[..|a.scope|] == c.scope[..|b.scope|][..|a.scope|];
  }

  /** New jumps to labels not yet known go to no label that was in sight before. */
  predicate Unseen(w: World, v: World) {
    forall q :: |w.wants| <= q < |v.wants| && v.wants[q].dest.ToLabel? ==> Find(w.places, v.wants[q].dest.name) == None
  }

  lemma {:induction false} FindPrefix(places: seq<Place>, n: nat, name: string)
    requires n <= |places| && Find(places, name) == None
    ensures Find(places[..n], name) == None
    decreases places
  {
    if n > 0 {
      assert places[..n][1..] == places[1..][..n - 1];
      FindPrefix(places[1..], n - 1, name);
    }
  }

  lemma UnseenOn(a: World, b: World, c: World)
    requires Extends(a, b) && Extends(b, c) && Unseen(a, b) && Unseen(b, c)
    ensures Unseen(a, c)
  {
    forall q | |a.wants| <= q < |c.wants| && c.wants[q].dest.ToLabel? ensures Find(a.places, c.wants[q].dest.name) == None {
      if q < |b.wants| {
        assert c.wants[q] == c.wants[..|b.wants|][q];
      } else {
        FindPrefix(b.places, |a.places|, c.wants[q].dest.name);
      }
    }
  }

  lemma {:induction false} CapturedExtends(w: World, names: seq<string>, n: nat)
    requires n <= |names|
    ensures var v := CapturedAll(w, names, n); v == w.(decls := v.decls) && |v.decls| == |w.decls|
  {
    if n > 0 { CapturedExtends(w, names, n - 1); }
  }

  lemma {:induction false} DeclaredExtends(w: World, hidden: seq<bool>, vars: seq<string>, n: nat)
    requires n <= |hidden| + |vars|
    ensures var v := DeclaredAll(w, hidden, vars, n);
            v == w.(decls := v.decls, scope := v.scope) && |v.decls| == |w.decls| + n && |v.scope| == |w.scope| + n && Extends(w, v)
  {
    if n > 0 { DeclaredExtends(w, hidden, vars, n - 1); }
  }

  lemma {:induction false} WalkExtends(stmts: seq<Stmt>, i: nat, w: World, loop: Option<nat>, from: nat, floor: nat, labelEnd: bool)
    requires i <= |stmts|
    ensures var v := Walk(stmts, i, w, loop, from, floor, labelEnd); Extends(w, v) && Unseen(w, v)
    decreases stmts, |stmts| - i
  {
    hide Extends, Unseen, WalkStmt;
    if i == |stmts| {
      ExtendsSelf(w);
    } else {
      var v := Walk(stmts, i, w, loop, from, floor, labelEnd);
      var e := RunEnd(stmts, i);
      var kept := Seen(stmts, e, w.scope, floor, labelEnd);
      var m := if stmts[i].Mark? then Marked(stmts, i, e, w, from, kept) else WalkStmt(stmts[i], w, loop);
      if stmts[i].Mark? {
        MarkedExtends(stmts, i, e, w, from, kept);
        WalkExtends(stmts, e, m, loop, from, floor, labelEnd);
      } else {
        StmtExtends(stmts[i], w, loop);
        WalkExtends(stmts, i + 1, m, loop, from, floor, labelEnd);
      }
      ExtendsOn(w, m, v);
      UnseenOn(w, m, v);
    }
  }

  lemma ExtendsSelf(w: World)
    ensures Extends(w, w) && Unseen(w, w)
  {
  }

  lemma {:induction false} MarkedExtends(stmts: seq<Stmt>, i: nat, e: nat, w: World, from: nat, kept: seq<nat>)
    requires i <= e <= |stmts| && forall k :: i <= k < e ==> stmts[k].Mark?
    ensures var v := Marked(stmts, i, e, w, from, kept);
            Extends(w, v) && Unseen(w, v) && v == w.(places := v.places, bad := v.bad)
    decreases e - i
  {
    hide Find, Skips;
    if i < e { MarkedExtends(stmts, i + 1, e, w, from, kept); }
  }

  lemma {:induction false} StmtExtends(s: Stmt, w: World, loop: Option<nat>)
    ensures Extends(w, WalkStmt(s, w, loop)) && Unseen(w, WalkStmt(s, w, loop)) && WalkStmt(s, w, loop).places == w.places
    decreases s
  {
    hide Scoped;
    match s
    case Plain(code) => RunExtends(w, code);
    case Do(body) => ScopedExtends(w, loop, None, NO_CODE, [], [], body, true, NO_CODE);
    case While(cond, body) => ScopedExtends(w, loop, Some(Again), cond, [], [], body, true, NO_CODE);
    case Repeat(body, cond, round) => ScopedExtends(w, loop, Some(round), NO_CODE, [], [], body, false, cond);
    case For(init, hidden, vars, body, round) => ScopedExtends(w, loop, Some(round), init, hidden, vars, body, true, NO_CODE);
    case _ =>
  }

  lemma RunExtends(w: World, code: Code)
    ensures Extends(w, Run(w, code)) && Unseen(w, Run(w, code)) && Run(w, code).scope == w.scope && Run(w, code).wants == w.wants && Run(w, code).places == w.places
  {
    CapturedExtends(w, code.captures, |code.captures|);
  }

  lemma {:induction false} InsideExtends(w: World, loop: Option<nat>, round: Option<Round>, before: Code, hidden: seq<bool>, vars: seq<string>, body: seq<Stmt>, labelEnd: bool, after: Code)
    ensures var v := Inside(w, loop, round, before, hidden, vars, body, labelEnd, after); Extends(w, v) && Unseen(w, v)
    decreases body, |body| + 1
  {
    hide Extends, Unseen, Walk, Run, DeclaredAll;
    var w0 := Run(w, before);
    var w1 := DeclaredAll(w0, hidden, vars, |hidden| + |vars|);
    var loop' := if round.Some? then Some(|w.scope|) else loop;
    var w2 := Walk(body, 0, w1, loop', |w.wants|, |w.scope| + |hidden| + |vars|, labelEnd);
    RunExtends(w, before);
    DeclaredExtends(w0, hidden, vars, |hidden| + |vars|);
    SameWants(w0, w1);
    WalkExtends(body, 0, w1, loop', |w.wants|, |w.scope| + |hidden| + |vars|, labelEnd);
    RunExtends(w2, after);
    ExtendsOn(w, w0, w1);
    UnseenOn(w, w0, w1);
    ExtendsOn(w, w1, w2);
    UnseenOn(w, w1, w2);
    ExtendsOn(w, w2, Run(w2, after));
    UnseenOn(w, w2, Run(w2, after));
  }

  lemma SameWants(w: World, v: World)
    requires v == w.(decls := v.decls, scope := v.scope)
    ensures Unseen(w, v)
  {
  }

  lemma OnlyPc(w: World, v: World, u: World)
    requires Extends(w, v) && Unseen(w, v) && u == v.(pc := u.pc)
    ensures Extends(w, u) && Unseen(w, u)
  {
  }

  lemma {:induction false} ScopedExtends(w: World, loop: Option<nat>, round: Option<Round>, before: Code, hidden: seq<bool>, vars: seq<string>, body: seq<Stmt>, labelEnd: bool, after: Code)
    ensures var v := Scoped(w, loop, round, before, hidden, vars, body, labelEnd, after);
            Extends(w, v) && Unseen(w, v) && v.scope == w.scope && v.places == w.places
    decreases body, |body| + 2
  {
    hide Inside, SettledDest, Extends, Unseen, Left;
    var v := Inside(w, loop, round, before, hidden, vars, body, labelEnd, after);
    var n := |w.scope| + |hidden|;
    InsideExtends(w, loop, round, before, hidden, vars, body, labelEnd, after);
    if round.Some? {
      OnlyPc(w, v, Iterated(v, n, round.value));
      LeftExtends(w, Iterated(v, n, round.value), true, [RoundEnd(w, v, n, round.value, before)]);
    } else {
      LeftExtends(w, v, false, []);
    }
  }

  lemma LeftExtends(w: World, v: World, isLoop: bool, ends: seq<End>)
    requires Extends(w, v) && Unseen(w, v)
    ensures var u := Left(w, v, isLoop, ends); Extends(w, u) && Unseen(w, u) && u.scope == w.scope && u.places == w.places
  {
    var u := Left(w, v, isLoop, ends);
    assert u.wants[..|w.wants|] == v.wants[..|w.wants|];
  }

  // -- every jump is listed ------------------------------------------------------------------------------

  /** The breaks and gotos of a block from statement i on. */
  function Jumps(stmts: seq<Stmt>, i: nat): nat
    requires i <= |stmts|
    decreases stmts, |stmts| - i
  {
    if i == |stmts| then 0 else JumpsOf(stmts[i]) + Jumps(stmts, i + 1)
  }

  function JumpsOf(s: Stmt): nat
    decreases s
  {
    match s
    case Do(body) => Jumps(body, 0)
    case While(_, body) => Jumps(body, 0)
    case Repeat(body, _, _) => Jumps(body, 0)
    case For(_, _, _, body, _) => Jumps(body, 0)
    case Break => 1
    case Goto(_) => 1
    case _ => 0
  }

  lemma {:induction false} RunHasNoJumps(stmts: seq<Stmt>, i: nat, e: nat)
    requires i <= e <= |stmts| && forall k :: i <= k < e ==> stmts[k].Mark?
    ensures Jumps(stmts, i) == Jumps(stmts, e)
    decreases e - i
  {
    if i < e { RunHasNoJumps(stmts, i + 1, e); }
  }

  lemma {:induction false} WalkCounts(stmts: seq<Stmt>, i: nat, w: World, loop: Option<nat>, from: nat, floor: nat, labelEnd: bool)
    requires i <= |stmts|
    ensures |Walk(stmts, i, w, loop, from, floor, labelEnd).wants| == |w.wants| + Jumps(stmts, i)
    decreases stmts, |stmts| - i
  {
    hide WalkStmt, Extends, Unseen, JumpsOf;
    if i < |stmts| && stmts[i].Mark? {
      var e := RunEnd(stmts, i);
      var kept := Seen(stmts, e, w.scope, floor, labelEnd);
      MarkedExtends(stmts, i, e, w, from, kept);
      RunHasNoJumps(stmts, i, e);
      WalkCounts(stmts, e, Marked(stmts, i, e, w, from, kept), loop, from, floor, labelEnd);
    } else if i < |stmts| {
      StmtCounts(stmts[i], w, loop);
      WalkCounts(stmts, i + 1, WalkStmt(stmts[i], w, loop), loop, from, floor, labelEnd);
    }
  }

  lemma {:induction false} StmtCounts(s: Stmt, w: World, loop: Option<nat>)
    ensures |WalkStmt(s, w, loop).wants| == |w.wants| + JumpsOf(s)
    decreases s
  {
    hide Scoped, Jumps;
    match s
    case Plain(code) => RunExtends(w, code);
    case Do(body) => ScopedCounts(w, loop, None, NO_CODE, [], [], body, true, NO_CODE);
    case While(cond, body) => ScopedCounts(w, loop, Some(Again), cond, [], [], body, true, NO_CODE);
    case Repeat(body, cond, round) => ScopedCounts(w, loop, Some(round), NO_CODE, [], [], body, false, cond);
    case For(init, hidden, vars, body, round) => ScopedCounts(w, loop, Some(round), init, hidden, vars, body, true, NO_CODE);
    case _ =>
  }

  lemma {:induction false} ScopedCounts(w: World, loop: Option<nat>, round: Option<Round>, before: Code, hidden: seq<bool>, vars: seq<string>, body: seq<Stmt>, labelEnd: bool, after: Code)
    ensures |Scoped(w, loop, round, before, hidden, vars, body, labelEnd, after).wants| == |w.wants| + Jumps(body, 0)
    decreases body, |body| + 2
  {
    hide Walk, Run, DeclaredAll, Jumps, Settled, Extends, Unseen;
    var w1 := DeclaredAll(Run(w, before), hidden, vars, |hidden| + |vars|);
    var loop' := if round.Some? then Some(|w.scope|) else loop;
    RunExtends(w, before);
    DeclaredExtends(Run(w, before), hidden, vars, |hidden| + |vars|);
    WalkCounts(body, 0, w1, loop', |w.wants|, |w.scope| + |hidden| + |vars|, labelEnd);
    RunExtends(Walk(body, 0, w1, loop', |w.wants|, |w.scope| + |hidden| + |vars|, labelEnd), after);
  }

  /** Every break and goto of a function has its want, in the order of the statements. */
  lemma {:induction false} EveryJumpListed(params: seq<string>, body: seq<Stmt>)
    ensures |Function(params, body).wants| == Jumps(body, 0)
  {
    var w := World([], [], 0, [], [], [], false);
    DeclaredExtends(w, [], params, |params|);
    WalkCounts(body, 0, DeclaredAll(w, [], params, |params|), None, 0, 0, true);
  }
}
