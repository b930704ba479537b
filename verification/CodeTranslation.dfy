/**
 CodeToRef and CodeFromRef: instruction vectors between the two operand
 conventions. Each direction undoes the other exactly on the vectors described
 by Translatable and RefTranslatable, not on every vector that is accepted.
*/
module CodeTranslation {
  import opened Wrappers
  import opened InstrWord


  const TAG_OFFSET := 6
  const ARITH_TAGS := 12

  predicate IsMmBin(w: Word) {
    Op(w) == OP_MMBIN || Op(w) == OP_MMBINI || Op(w) == OP_MMBINK
  }

  predicate IsLoop(w: Word) {
    Op(w) == OP_FORLOOP || Op(w) == OP_TFORLOOP
  }

  /** A SETLIST whose index is in the EXTRAARG after it. */
  predicate IsLongSetList(w: Word) {
    Op(w) == OP_SETLIST && K(w) != 0
  }

  // -- one word -------------------------------------------------------------------

  /** A word that stands alone, to the reference encoding. */
  function WordToRef(w: Word): Word {
    FieldsMakeWord(w);
    if IsMmBin(w) then
      if C(w) < ARITH_TAGS then MakeABC(Op(w), A(w), B(w), C(w) + TAG_OFFSET, K(w)) else w
    else if IsLoop(w) then
      if Bx(w) + 1 <= MAX_ARG_BX then MakeABx(Op(w), A(w), Bx(w) + 1) else w
    else if Op(w) == OP_SETLIST && K(w) == 0 then
      MakeVABC(OP_SETLIST, A(w), VB(w), if VC(w) == 0 then MAX_ARG_VC else VC(w) - 1, 0)
    else if Op(w) == OP_SHLI then MakeABC(OP_SHRI, A(w), B(w), C(w), K(w))
    else if Op(w) == OP_SHRI then MakeABC(OP_SHLI, A(w), B(w), C(w), K(w))
    else w
  }

  /** A word that stands alone, from the reference encoding. */
  function WordFromRef(w: Word): Word {
    FieldsMakeWord(w);
    if IsMmBin(w) then
      if TAG_OFFSET <= C(w) < TAG_OFFSET + ARITH_TAGS then MakeABC(Op(w), A(w), B(w), C(w) - TAG_OFFSET, K(w)) else w
    else if IsLoop(w) then
      if Bx(w) > 0 then MakeABx(Op(w), A(w), Bx(w) - 1) else w
    else if Op(w) == OP_SETLIST && K(w) == 0 then
      MakeVABC(OP_SETLIST, A(w), VB(w), if VC(w) == MAX_ARG_VC then 0 else VC(w) + 1, 0)
    else if Op(w) == OP_SHLI then MakeABC(OP_SHRI, A(w), B(w), C(w), K(w))
    else if Op(w) == OP_SHRI then MakeABC(OP_SHLI, A(w), B(w), C(w), K(w))
    else w
  }

  /** The words this virtual machine can have encoded: no tag in the gap, no loop jump of the maximal length. */
  predicate WordTranslatable(w: Word) {
    && (IsMmBin(w) ==> !(ARITH_TAGS <= C(w) < TAG_OFFSET + ARITH_TAGS))
    && (IsLoop(w) ==> Bx(w) != MAX_ARG_BX)
  }

  /** The words of a reference chunk that come back unchanged: no tag below the arithmetic ones, no empty loop jump. */
  predicate RefWordTranslatable(w: Word) {
    && (IsMmBin(w) ==> C(w) >= TAG_OFFSET)
    && (IsLoop(w) ==> Bx(w) != 0)
  }

  lemma WordRoundTrip(w: Word)
    ensures !IsLongSetList(w) ==> (WordFromRef(WordToRef(w)) == w <==> WordTranslatable(w))
    ensures !IsLongSetList(w) ==> (WordToRef(WordFromRef(w)) == w <==> RefWordTranslatable(w))
    ensures IsLongSetList(WordToRef(w)) == IsLongSetList(w) == IsLongSetList(WordFromRef(w))
  {
    hide Op, A, B, C, K, VB, VC, Bx, Ax, MakeABC, MakeVABC, MakeABx, MakeAx;
    FieldsMakeWord(w);
    if IsMmBin(w) {
      MmBinRoundTrip(w);
    } else if IsLoop(w) {
      LoopRoundTrip(w);
    } else if Op(w) == OP_SETLIST && K(w) == 0 {
      VABCFields(OP_SETLIST, A(w), VB(w), if VC(w) == 0 then MAX_ARG_VC else VC(w) - 1, 0);
      VABCFields(OP_SETLIST, A(w), VB(w), if VC(w) == MAX_ARG_VC then 0 else VC(w) + 1, 0);
      FieldsMakeWord(WordToRef(w));
      FieldsMakeWord(WordFromRef(w));
    } else if Op(w) == OP_SHLI {
      ABCFields(OP_SHRI, A(w), B(w), C(w), K(w));
    } else if Op(w) == OP_SHRI {
      ABCFields(OP_SHLI, A(w), B(w), C(w), K(w));
    }
  }

  lemma MmBinRoundTrip(w: Word)
    requires IsMmBin(w)
    ensures WordFromRef(WordToRef(w)) == w <==> WordTranslatable(w)
    ensures WordToRef(WordFromRef(w)) == w <==> RefWordTranslatable(w)
    ensures IsMmBin(WordToRef(w)) && IsMmBin(WordFromRef(w))
  {
    hide Op, A, B, C, K, VB, VC, Bx, Ax, MakeABC, MakeVABC, MakeABx, MakeAx;
    FieldsMakeWord(w);
    if C(w) < ARITH_TAGS { ABCFields(Op(w), A(w), B(w), C(w) + TAG_OFFSET, K(w)); }
    if TAG_OFFSET <= C(w) < TAG_OFFSET + ARITH_TAGS { ABCFields(Op(w), A(w), B(w), C(w) - TAG_OFFSET, K(w)); }
  }

  lemma LoopRoundTrip(w: Word)
    requires IsLoop(w)
    ensures WordFromRef(WordToRef(w)) == w <==> WordTranslatable(w)
    ensures WordToRef(WordFromRef(w)) == w <==> RefWordTranslatable(w)
    ensures IsLoop(WordToRef(w)) && IsLoop(WordFromRef(w))
  {
    hide Op, A, B, C, K, VB, VC, Bx, Ax, MakeABC, MakeVABC, MakeABx, MakeAx;
    FieldsMakeWord(w);
    if Bx(w) < MAX_ARG_BX { ABxFields(Op(w), A(w), Bx(w) + 1); }
    if Bx(w) > 0 { ABxFields(Op(w), A(w), Bx(w) - 1); }
  }

  // -- vectors --------------------------------------------------------------------------

  /** The two words of a long SETLIST with `first` as its first index, to the reference encoding. */
  function PairToRef(w: Word, first: nat): (p: seq<Word>)
    requires 1 <= first <= MAX_ARG_AX
    ensures |p| == 2
  {
    FieldsMakeWord(w);
    [MakeVABC(OP_SETLIST, A(w), VB(w), (first - 1) % (MAX_ARG_VC + 1), 1), MakeAx(OP_EXTRAARG, (first - 1) / (MAX_ARG_VC + 1))]
  }

  function PairFromRef(w: Word, stored: nat): (p: seq<Word>)
    requires stored + 1 <= MAX_ARG_AX
    ensures |p| == 2
  {
    FieldsMakeWord(w);
    [MakeVABC(OP_SETLIST, A(w), VB(w), 0, 1), MakeAx(OP_EXTRAARG, stored + 1)]
  }

  /** The number of elements a reference SETLIST says are stored already. */
  function Stored(w: Word, ext: Word): nat {
    VC(w) + Ax(ext) * (MAX_ARG_VC + 1)
  }

  function ToRef(code: seq<Word>): (out: seq<Word>)
    ensures |out| == |code|
  {
    if code == [] then []
    else if IsLongSetList(code[0]) && |code| > 1 && Ax(code[1]) >= 1 then
      FieldsMakeWord(code[1]);
      PairToRef(code[0], Ax(code[1])) + ToRef(code[2..])
    else [WordToRef(code[0])] + ToRef(code[1..])
  }

  function FromRef(code: seq<Word>): (out: Option<seq<Word>>)
    ensures out.Some? ==> |out.value| == |code|
  {
    if code == [] then Some([])
    else if IsLongSetList(code[0]) then
      if |code| == 1 || Stored(code[0], code[1]) + 1 > MAX_ARG_AX then None
      else
        match FromRef(code[2..])
        case None => None
        case Some(rest) => Some(PairFromRef(code[0], Stored(code[0], code[1])) + rest)
    else
      match FromRef(code[1..])
      case None => None
      case Some(rest) => Some([WordFromRef(code[0])] + rest)
  }

  /** A long SETLIST has vC 0 and an EXTRAARG with an index; every other word is translatable. */
  predicate Translatable(code: seq<Word>) {
    code == [] ||
    if IsLongSetList(code[0]) then
      |code| > 1 && VC(code[0]) == 0 && Op(code[1]) == OP_EXTRAARG && Ax(code[1]) >= 1 && Translatable(code[2..])
    else WordTranslatable(code[0]) && Translatable(code[1..])
  }

  /** A long SETLIST has an EXTRAARG and an index that fits; every other word comes back unchanged. */
  predicate RefTranslatable(code: seq<Word>) {
    code == [] ||
    if IsLongSetList(code[0]) then
      |code| > 1 && Op(code[1]) == OP_EXTRAARG && Stored(code[0], code[1]) + 1 <= MAX_ARG_AX && RefTranslatable(code[2..])
    else RefWordTranslatable(code[0]) && RefTranslatable(code[1..])
  }

  lemma PairParts(w: Word, first: nat)
    requires IsLongSetList(w) && 1 <= first <= MAX_ARG_AX
    ensures var p := PairToRef(w, first);
            && IsLongSetList(p[0]) && Op(p[1]) == OP_EXTRAARG && Stored(p[0], p[1]) == first - 1
            && A(p[0]) == A(w) && VB(p[0]) == VB(w)
  {
    hide Op, A, K, B, C, Bx, VB, VC, Ax, MakeVABC, MakeAx, MakeABC, MakeABx, Stored;
    var p := PairToRef(w, first);
    FieldsMakeWord(w);
    VABCFields(OP_SETLIST, A(w), VB(w), (first - 1) % (MAX_ARG_VC + 1), 1);
    AxFields(OP_EXTRAARG, (first - 1) / (MAX_ARG_VC + 1));
    StoredOf(p[0], p[1], first - 1);
  }

  lemma StoredOf(w: Word, x: Word, n: nat)
    requires VC(w) == n % (MAX_ARG_VC + 1) && Ax(x) == n / (MAX_ARG_VC + 1)
    ensures Stored(w, x) == n
  {
    hide VC, Ax;
  }

  lemma PairBack(w: Word, stored: nat)
    requires IsLongSetList(w) && stored + 1 <= MAX_ARG_AX
    ensures var p := PairFromRef(w, stored);
            && IsLongSetList(p[0]) && VC(p[0]) == 0 && Op(p[1]) == OP_EXTRAARG && Ax(p[1]) == stored + 1
            && A(p[0]) == A(w) && VB(p[0]) == VB(w)
  {
    hide Op, A, K, B, C, Bx, VB, VC, Ax, MakeVABC, MakeAx, MakeABC, MakeABx;
    FieldsMakeWord(w);
    VABCFields(OP_SETLIST, A(w), VB(w), 0, 1);
    AxFields(OP_EXTRAARG, stored + 1);
  }

  /** The exact domain on which loading what was dumped gives the same code. */
  lemma {:induction false} ToRefThenBack(code: seq<Word>)
    ensures FromRef(ToRef(code)) == Some(code) <==> Translatable(code)
  {
    hide WordToRef, WordFromRef, WordTranslatable, PairToRef, PairFromRef, IsLongSetList, Ax, Op, VC, Stored;
    if code != [] {
      var (w, out) := (code[0], ToRef(code));
      if IsLongSetList(w) && |code| > 1 && Ax(code[1]) >= 1 {
        LongToRefThenBack(code);
        ToRefThenBack(code[2..]);
      } else {
        WordRoundTrip(w);
        assert out[1..] == ToRef(code[1..]);
        ToRefThenBack(code[1..]);
        if FromRef(out[1..]).Some? { SameWithOne(WordFromRef(out[0]), FromRef(out[1..]).value, code); }
        if IsLongSetList(w) { BareLongSetList(code); }
      }
    }
  }

  lemma {:induction false} LongToRefThenBack(code: seq<Word>)
    requires |code| > 1 && IsLongSetList(code[0]) && Ax(code[1]) >= 1
    ensures var back := FromRef(ToRef(code[2..]));
            FromRef(ToRef(code)) == Some(code) <==> VC(code[0]) == 0 && Op(code[1]) == OP_EXTRAARG && back == Some(code[2..])
  {
    hide Op, A, K, B, C, Bx, VB, VC, Ax, MakeVABC, MakeAx, MakeABC, MakeABx, Stored, PairToRef, PairFromRef, IsLongSetList, FromRef, ToRef;
    var (w, x, out) := (code[0], code[1], ToRef(code));
    FieldsMakeWord(x);
    PairParts(w, Ax(x));
    LongToRef(code);
    var rest := ToRef(code[2..]);
    PairBack(out[0], Ax(x) - 1);
    var p := PairFromRef(out[0], Ax(x) - 1);
    LongFromRef(out);
    SamePair(w, x, p);
    if FromRef(rest).Some? {
      SameWithPair(p, FromRef(rest).value, code);
    }
  }

  lemma SameWithPair(p: seq<Word>, r: seq<Word>, code: seq<Word>)
    requires |p| == 2 && |code| >= 2
    ensures p + r == code <==> p == [code[0], code[1]] && r == code[2..]
  {
    assert code == [code[0], code[1]] + code[2..];
    assert (p + r)[..2] == p && (p + r)[2..] == r && code[..2] == [code[0], code[1]];
  }

  lemma SameWithOne(w: Word, r: seq<Word>, code: seq<Word>)
    requires |code| >= 1
    ensures [w] + r == code <==> w == code[0] && r == code[1..]
  {
    assert code == [code[0]] + code[1..];
    assert ([w] + r)[1..] == r;
  }

  lemma {:induction false} LongToRef(code: seq<Word>)
    requires |code| > 1 && IsLongSetList(code[0]) && 1 <= Ax(code[1]) <= MAX_ARG_AX
    ensures var p := PairToRef(code[0], Ax(code[1]));
            ToRef(code) == p + ToRef(code[2..]) && ToRef(code)[0] == p[0] && ToRef(code)[1] == p[1] && ToRef(code)[2..] == ToRef(code[2..])
  {
    hide Ax, Op, K;
  }

  lemma {:induction false} LongFromRef(code: seq<Word>)
    requires |code| > 1 && IsLongSetList(code[0]) && Stored(code[0], code[1]) + 1 <= MAX_ARG_AX
    ensures FromRef(code) == match FromRef(code[2..]) case None => None case Some(r) => Some(PairFromRef(code[0], Stored(code[0], code[1])) + r)
  {
  }

  lemma SamePair(w: Word, x: Word, p: seq<Word>)
    requires IsLongSetList(w) && |p| == 2 && IsLongSetList(p[0]) && VC(p[0]) == 0 && A(p[0]) == A(w) && VB(p[0]) == VB(w)
    requires Op(p[1]) == OP_EXTRAARG && Ax(p[1]) == Ax(x)
    ensures p == [w, x] <==> VC(w) == 0 && Op(x) == OP_EXTRAARG
  {
    hide Op, A, K, B, C, Bx, VB, VC, Ax, MakeVABC, MakeAx, MakeABC, MakeABx;
    FieldsMakeWord(w);
    FieldsMakeWord(p[0]);
    FieldsMakeWord(x);
    FieldsMakeWord(p[1]);
  }

  /** A long SETLIST without an index after it does not survive. */
  lemma {:induction false} BareLongSetList(code: seq<Word>)
    requires |code| > 0 && IsLongSetList(code[0]) && (|code| > 1 ==> Ax(code[1]) == 0)
    ensures FromRef(ToRef(code)) != Some(code)
  {
    hide Stored, Ax;
    var out := ToRef(code);
    assert WordToRef(code[0]) == code[0];
    if |code| > 1 && Stored(out[0], out[1]) + 1 <= MAX_ARG_AX {
      PairBack(out[0], Stored(out[0], out[1]));
      var back := FromRef(out);
      if back.Some? { assert back.value[1] == PairFromRef(out[0], Stored(out[0], out[1]))[1]; }
    }
  }

  /** And the exact domain on which dumping what was loaded gives the same chunk. */
  lemma {:induction false} FromRefThenBack(code: seq<Word>)
    ensures FromRef(code).Some? && ToRef(FromRef(code).value) == code <==> RefTranslatable(code)
  {
    hide WordToRef, WordFromRef, RefWordTranslatable, PairToRef, PairFromRef, IsLongSetList, Ax, Op, VC, Stored;
    if code != [] {
      var w := code[0];
      if IsLongSetList(w) {
        if |code| > 1 && Stored(w, code[1]) + 1 <= MAX_ARG_AX {
          LongFromRefThenBack(code);
          FromRefThenBack(code[2..]);
        }
      } else {
        WordRoundTrip(w);
        FromRefThenBack(code[1..]);
        var back := FromRef(code);
        if back.Some? {
          assert back.value[1..] == FromRef(code[1..]).value;
        }
      }
    }
  }

  /** Accepted, but not what comes back: a metamethod tag below the arithmetic ones, or an empty loop jump. */
  lemma LostOnLoading(w: Word)
    requires (IsMmBin(w) && C(w) < TAG_OFFSET) || (IsLoop(w) && Bx(w) == 0)
    ensures FromRef([w]).Some? && ToRef(FromRef([w]).value) != [w]
  {
    Alone(w);
    hide FromRef, ToRef, RefTranslatable;
    FromRefThenBack([w]);
  }

  /** The other way round: a tag in the gap, or the longest loop jump. */
  lemma LostOnDumping(w: Word)
    requires (IsMmBin(w) && ARITH_TAGS <= C(w) < TAG_OFFSET + ARITH_TAGS) || (IsLoop(w) && Bx(w) == MAX_ARG_BX)
    ensures FromRef(ToRef([w])) != Some([w])
  {
    Alone(w);
    hide FromRef, ToRef, Translatable;
    ToRefThenBack([w]);
  }

  /** MMBIN with tag 0 and FORLOOP with jump 0, as reference words. */
  lemma LostWords()
    ensures FromRef([OP_MMBIN]).Some? && ToRef(FromRef([OP_MMBIN]).value) != [OP_MMBIN]
    ensures FromRef([OP_FORLOOP]).Some? && ToRef(FromRef([OP_FORLOOP]).value) != [OP_FORLOOP]
  {
    hide FromRef, ToRef;
    LostOnLoading(OP_MMBIN);
    LostOnLoading(OP_FORLOOP);
  }

  lemma Alone(w: Word)
    requires !IsLongSetList(w)
    ensures FromRef([w]).Some? && (RefTranslatable([w]) <==> RefWordTranslatable(w)) && (Translatable([w]) <==> WordTranslatable(w))
  {
  }

  lemma {:induction false} LongFromRefThenBack(code: seq<Word>)
    requires |code| > 1 && IsLongSetList(code[0]) && Stored(code[0], code[1]) + 1 <= MAX_ARG_AX
    ensures FromRef(code).Some? && ToRef(FromRef(code).value) == code <==>
            Op(code[1]) == OP_EXTRAARG && FromRef(code[2..]).Some? && ToRef(FromRef(code[2..]).value) == code[2..]
  {
    hide Op, A, K, B, C, Bx, VB, VC, Ax, MakeVABC, MakeAx, MakeABC, MakeABx, Stored, PairToRef, PairFromRef, IsLongSetList, FromRef, ToRef;
    var (w, x) := (code[0], code[1]);
    var stored := Stored(w, x);
    PairBack(w, stored);
    LongFromRef(code);
    if FromRef(code[2..]).Some? {
      var p := PairFromRef(w, stored);
      var back := p + FromRef(code[2..]).value;
      assert back[0] == p[0] && back[1] == p[1] && back[2..] == FromRef(code[2..]).value;
      PairParts(p[0], stored + 1);
      LongToRef(back);
      SameRefPair(w, x, PairToRef(p[0], stored + 1));
      SameWithPair(PairToRef(p[0], stored + 1), ToRef(back[2..]), code);
    }
  }

  lemma SameRefPair(w: Word, x: Word, q: seq<Word>)
    requires IsLongSetList(w) && |q| == 2 && IsLongSetList(q[0]) && A(q[0]) == A(w) && VB(q[0]) == VB(w)
    requires Op(q[1]) == OP_EXTRAARG && Stored(q[0], q[1]) == Stored(w, x)
    ensures q == [w, x] <==> Op(x) == OP_EXTRAARG
  {
    hide Op, A, K, B, C, Bx, VB, VC, Ax, MakeVABC, MakeAx, MakeABC, MakeABx, Stored;
    FieldsMakeWord(w);
    FieldsMakeWord(q[0]);
    FieldsMakeWord(x);
    FieldsMakeWord(q[1]);
    StoredParts(w, x);
    StoredParts(q[0], q[1]);
  }

  lemma StoredParts(w: Word, x: Word)
    ensures Stored(w, x) % (MAX_ARG_VC + 1) == VC(w) && Stored(w, x) / (MAX_ARG_VC + 1) == Ax(x)
  {
    hide Op, A, B, C, K, VB, VC, Bx, Ax, MakeABC, MakeVABC, MakeABx, MakeAx;
    FieldsMakeWord(w);
    DigitsOf(VC(w), Ax(x));
  }

  lemma DigitsOf(v: nat, a: nat)
    requires v <= MAX_ARG_VC
    ensures (v + a * (MAX_ARG_VC + 1)) % (MAX_ARG_VC + 1) == v && (v + a * (MAX_ARG_VC + 1)) / (MAX_ARG_VC + 1) == a
  {
  }

  // -- as the program does it ------------------------------------------------------------

  function Prefixed(a: seq<Word>, r: Option<seq<Word>>): Option<seq<Word>> {
    match r
    case None => None
    case Some(out) => Some(a + out)
  }

  /** CodeFromRef rewrites the vector in place. */
  method CodeFromRef(code: array<Word>) returns (ok: bool)
    modifies code
    ensures ok == FromRef(old(code[..])).Some?
    ensures ok ==> code[..] == FromRef(old(code[..])).value
  {
    hide FromRef, WordFromRef, PairFromRef, IsLongSetList, Op, A, K, B, C, Bx, VB, VC, Ax, MakeVABC, MakeAx, MakeABC, MakeABx, Stored;
    assert code[..0] == [] && code[0..] == code[..];
    NothingBefore(FromRef(code[..]));
    var i := 0;
    while i < code.Length
      invariant 0 <= i <= code.Length
      invariant FromRef(old(code[..])) == Prefixed(code[..i], FromRef(code[i..]))
    {
      var w := code[i];
      ghost var (done, rest) := (code[..i], code[i..]);
      if IsLongSetList(w) {
        if i + 1 >= code.Length {
          BadFromRef(rest);
          return false;
        }
        var stored := Stored(w, code[i + 1]);
        if stored + 1 > MAX_ARG_AX {
          BadFromRef(rest);
          return false;
        }
        assert rest == [w, code[i + 1]] + rest[2..];
        LongFromRefStep(done, w, code[i + 1], rest[2..]);
        var p := PairFromRef(w, stored);
        code[i], code[i + 1] := p[0], p[1];
        assert code[i + 1..] == [p[1]] + rest[2..];
      } else {
        assert rest == [w] + rest[1..];
        ShortFromRefStep(done, w, rest[1..]);
        code[i] := WordFromRef(w);
        assert code[i + 1..] == rest[1..];
      }
      assert code[..i + 1] == done + [code[i]];
      i := i + 1;
    }
    assert code[i..] == [] && code[..i] == code[..];
    FromRefEmpty(code[..]);
    ok := true;
  }

  lemma NothingBefore(r: Option<seq<Word>>)
    ensures Prefixed([], r) == r
  {
    if r.Some? { assert [] + r.value == r.value; }
  }

  lemma FromRefEmpty(a: seq<Word>)
    ensures Prefixed(a, FromRef([])) == Some(a)
  {
    assert a + [] == a;
  }

  /** A long SETLIST: its EXTRAARG is rewritten with it and left alone when the loop gets there. */
  lemma {:induction false} LongFromRefStep(done: seq<Word>, w: Word, x: Word, rest: seq<Word>)
    requires IsLongSetList(w) && Stored(w, x) + 1 <= MAX_ARG_AX
    ensures var p := PairFromRef(w, Stored(w, x));
            Prefixed(done, FromRef([w, x] + rest)) == Prefixed(done + [p[0]], FromRef([p[1]] + rest))
  {
    hide Op, A, K, B, C, Bx, VB, VC, Ax, MakeVABC, MakeAx, MakeABC, MakeABx, Stored, PairFromRef, PairToRef, IsLongSetList, WordFromRef, WordToRef, FromRef, ToRef;
    PairBack(w, Stored(w, x));
    LongFromRef([w, x] + rest);
    assert ([w, x] + rest)[2..] == rest;
    var p := PairFromRef(w, Stored(w, x));
    ExtraArgStays(p[1], rest);
    if FromRef(rest).Some? {
      var r := FromRef(rest).value;
      assert done + (p + r) == done + [p[0]] + ([p[1]] + r);
    }
  }

  lemma {:induction false} ShortFromRefStep(done: seq<Word>, w: Word, rest: seq<Word>)
    requires !IsLongSetList(w)
    ensures Prefixed(done, FromRef([w] + rest)) == Prefixed(done + [WordFromRef(w)], FromRef(rest))
  {
    hide Op, A, K, B, C, Bx, VB, VC, Ax, MakeVABC, MakeAx, MakeABC, MakeABx, Stored, PairFromRef, PairToRef, IsLongSetList, WordFromRef, WordToRef;
    assert ([w] + rest)[1..] == rest;
    assert FromRef([w] + rest) == Prefixed([WordFromRef(w)], FromRef(rest));
    hide FromRef;
    if FromRef(rest).Some? {
      var r := FromRef(rest).value;
      assert done + ([WordFromRef(w)] + r) == done + [WordFromRef(w)] + r;
    }
  }

  lemma {:induction false} BadFromRef(code: seq<Word>)
    requires code != [] && IsLongSetList(code[0]) && (|code| == 1 || Stored(code[0], code[1]) + 1 > MAX_ARG_AX)
    ensures FromRef(code) == None
  {
  }

  /** An EXTRAARG is the same in both encodings. */
  lemma {:induction false} ExtraArgStays(x: Word, rest: seq<Word>)
    requires Op(x) == OP_EXTRAARG
    ensures FromRef([x] + rest) == Prefixed([x], FromRef(rest)) && ToRef([x] + rest) == [x] + ToRef(rest)
  {
    assert WordFromRef(x) == x == WordToRef(x) && !IsLongSetList(x);
    hide Op, A, K, B, C, Bx, VB, VC, Ax, MakeVABC, MakeAx, MakeABC, MakeABx, Stored, PairFromRef, PairToRef, IsLongSetList, WordFromRef, WordToRef;
    assert ([x] + rest)[1..] == rest;
  }

  /** CodeToRef works on a copy. */
  method CodeToRef(code: seq<Word>) returns (out: array<Word>)
    ensures fresh(out) && out[..] == ToRef(code)
  {
    hide ToRef, WordToRef, PairToRef, IsLongSetList, Op, A, K, B, C, Bx, VB, VC, Ax, MakeVABC, MakeAx, MakeABC, MakeABx;
    out := new Word[|code|](j requires 0 <= j < |code| => code[j]);
    assert out[..] == code && out[..0] == [] && out[0..] == code && [] + ToRef(code) == ToRef(code);
    var i := 0;
    while i < out.Length
      invariant 0 <= i <= out.Length == |code|
      invariant ToRef(code) == out[..i] + ToRef(out[i..])
    {
      var w := out[i];
      ghost var (done, rest) := (out[..i], out[i..]);
      if i + 1 < out.Length {
        FieldsMakeWord(out[i + 1]);
      }
      if IsLongSetList(w) && i + 1 < out.Length && Ax(out[i + 1]) >= 1 {
        assert rest == [w, out[i + 1]] + rest[2..];
        LongToRefStep(done, w, out[i + 1], rest[2..]);
        var p := PairToRef(w, Ax(out[i + 1]));
        out[i], out[i + 1] := p[0], p[1];
        assert out[i + 1..] == [p[1]] + rest[2..];
      } else {
        assert rest == [w] + rest[1..];
        ShortToRefStep(done, w, rest[1..]);
        if !IsLongSetList(w) {
          out[i] := WordToRef(w);
        }
        assert out[i + 1..] == rest[1..];
      }
      assert out[..i + 1] == done + [out[i]];
      i := i + 1;
    }
    ToRefEmpty();
    assert out[i..] == [] && out[..i] == out[..];
  }

  lemma ToRefEmpty()
    ensures ToRef([]) == []
  {
  }

  lemma {:induction false} LongToRefStep(done: seq<Word>, w: Word, x: Word, rest: seq<Word>)
    requires IsLongSetList(w) && 1 <= Ax(x) <= MAX_ARG_AX
    ensures var p := PairToRef(w, Ax(x));
            done + ToRef([w, x] + rest) == done + [p[0]] + ToRef([p[1]] + rest)
  {
    hide Op, A, K, B, C, Bx, VB, VC, Ax, MakeVABC, MakeAx, MakeABC, MakeABx, Stored, PairFromRef, PairToRef, IsLongSetList, WordFromRef, WordToRef, FromRef, ToRef;
    PairParts(w, Ax(x));
    LongToRef([w, x] + rest);
    assert ([w, x] + rest)[2..] == rest;
    var p := PairToRef(w, Ax(x));
    ExtraArgStays(p[1], rest);
    var r := ToRef(rest);
    assert done + (p + r) == done + [p[0]] + ([p[1]] + r);
  }

  /** A word that is translated alone; a long SETLIST without an index is left as it is. */
  lemma {:induction false} ShortToRefStep(done: seq<Word>, w: Word, rest: seq<Word>)
    requires IsLongSetList(w) && rest != [] ==> Ax(rest[0]) == 0
    ensures done + ToRef([w] + rest) == done + [WordToRef(w)] + ToRef(rest)
    ensures IsLongSetList(w) ==> WordToRef(w) == w
  {
    LongAlone(w);
    hide Op, A, K, B, C, Bx, VB, VC, Ax, MakeVABC, MakeAx, MakeABC, MakeABx, Stored, PairFromRef, PairToRef, IsLongSetList, WordFromRef, WordToRef;
    assert ([w] + rest)[1..] == rest;
    assert ToRef([w] + rest) == [WordToRef(w)] + ToRef(rest);
    hide ToRef;
    assert done + ([WordToRef(w)] + ToRef(rest)) == done + [WordToRef(w)] + ToRef(rest);
  }

  lemma LongAlone(w: Word)
    ensures IsLongSetList(w) ==> WordToRef(w) == w
  {
  }
}
