/**
 What the instructions that differ between the two encodings do, each encoding
 described on its own by bit positions and plain numbers: this virtual machine by
 what it executes, the reference by its documentation. Translating keeps what an
 instruction does, but for the words named here.
*/
module CodeMeaning {
  import opened Wrappers
  import opened InstrWord
  import opened CodeTranslation

  datatype Event =
    | Add | Sub | Mul | Mod | Pow | Div | IDiv | BAnd | BOr | BXor | Shl | Shr
    | Unm | BNot | Lt | Le | Concat | Len | Eq | Index | NewIndex | Gc | Mode
    | Numbered(tag: nat)

  datatype Effect =
    | Call(form: nat, a: nat, b: nat, k: nat, event: Event)
    | LoopTo(form: nat, a: nat, target: int)
    | Store(a: nat, count: nat, first: nat)
    | NoIndex(a: nat, count: nat)
    | ShiftRight(a: nat, b: nat, places: int, k: nat)
    | ShiftLeft(a: nat, value: int, b: nat, k: nat)
    | SecondWord
    | Other(w: Word)

  /** size bits of the word from position pos on. */
  function Field(w: Word, pos: nat, size: nat): nat {
    w / Pow2(pos) % Pow2(size)
  }

  /** The tags of this virtual machine. */
  function GoEvent(tag: nat): Event {
    match tag
    case 0 => Add case 1 => Sub case 2 => Mul case 3 => Mod case 4 => Pow case 5 => Div case 6 => IDiv
    case 7 => BAnd case 8 => BOr case 9 => BXor case 10 => Shl case 11 => Shr
    case 12 => Unm case 13 => BNot case 14 => Lt case 15 => Le case 16 => Concat case 17 => Len case 18 => Eq
    case _ => Numbered(tag)
  }

  /** The tags of the reference. */
  function RefEvent(tag: nat): Event {
    match tag
    case 0 => Index case 1 => NewIndex case 2 => Gc case 3 => Mode case 4 => Len case 5 => Eq
    case 6 => Add case 7 => Sub case 8 => Mul case 9 => Mod case 10 => Pow case 11 => Div case 12 => IDiv
    case 13 => BAnd case 14 => BOr case 15 => BXor case 16 => Shl case 17 => Shr
    case _ => Numbered(tag)
  }

  predicate TwoWords(w: Word) {
    Field(w, 0, 7) == 78 && Field(w, 15, 1) == 1
  }

  /** A word at pc in this virtual machine. A loop jump goes back by Bx + 1 from the next word; vC 0 stands for the index 1024. */
  function GoEffect(w: Word, pc: int): Effect {
    var op := Field(w, 0, 7);
    var (a, k, b, c) := (Field(w, 7, 8), Field(w, 15, 1), Field(w, 16, 8), Field(w, 24, 8));
    if op == 46 || op == 47 || op == 48 then Call(op, a, b, k, GoEvent(c))
    else if op == 73 || op == 77 then LoopTo(op, a, pc + 1 - (Field(w, 15, 17) + 1))
    else if op == 78 && k == 0 then Store(a, Field(w, 16, 6), if Field(w, 22, 10) == 0 then 1024 else Field(w, 22, 10))
    else if op == 32 then ShiftRight(a, b, c as int - 127, k)
    else if op == 33 then ShiftLeft(a, c as int - 127, b, k)
    else Other(w)
  }

  /** A word at pc in the reference. A loop jump goes back by Bx from the next word; vC counts what is stored already. */
  function RefEffect(w: Word, pc: int): Effect {
    var op := Field(w, 0, 7);
    var (a, k, b, c) := (Field(w, 7, 8), Field(w, 15, 1), Field(w, 16, 8), Field(w, 24, 8));
    if op == 46 || op == 47 || op == 48 then Call(op, a, b, k, RefEvent(c))
    else if op == 73 || op == 77 then LoopTo(op, a, pc + 1 - Field(w, 15, 17))
    else if op == 78 && k == 0 then Store(a, Field(w, 16, 6), Field(w, 22, 10) + 1)
    else if op == 32 then ShiftLeft(a, c as int - 127, b, k)
    else if op == 33 then ShiftRight(a, b, c as int - 127, k)
    else Other(w)
  }

  /** Every word of a vector that begins at pc; a long SETLIST takes its whole index from the word after it. */
  function GoMeaning(code: seq<Word>, pc: int): (m: seq<Effect>)
    ensures |m| == |code|
  {
    if code == [] then []
    else
      var (w, a, n) := (code[0], Field(code[0], 7, 8), Field(code[0], 16, 6));
      if TwoWords(w) && |code| == 1 then [NoIndex(a, n)]
      else if TwoWords(w) then [Store(a, n, Field(code[1], 7, 25)), SecondWord] + GoMeaning(code[2..], pc + 2)
      else [GoEffect(w, pc)] + GoMeaning(code[1..], pc + 1)
  }

  /** In the reference the count is vC plus 1024 times the argument of the word after it. */
  function RefMeaning(code: seq<Word>, pc: int): (m: seq<Effect>)
    ensures |m| == |code|
  {
    if code == [] then []
    else
      var (w, a, n) := (code[0], Field(code[0], 7, 8), Field(code[0], 16, 6));
      if TwoWords(w) && |code| == 1 then [NoIndex(a, n)]
      else if TwoWords(w) then [Store(a, n, Field(w, 22, 10) + 1024 * Field(code[1], 7, 25) + 1), SecondWord] + RefMeaning(code[2..], pc + 2)
      else [RefEffect(w, pc)] + RefMeaning(code[1..], pc + 1)
  }

  // -- the words whose effect a translation changes -----------------------------------------

  /** To the reference: a tag that is no arithmetic one, the longest loop jump. */
  predicate KeptToRef(w: Word) {
    var (op, c) := (Field(w, 0, 7), Field(w, 24, 8));
    && (46 <= op <= 48 ==> c < 12 || c > 18)
    && (op == 73 || op == 77 ==> Field(w, 15, 17) < 131071)
  }

  /** From the reference: a tag that is no arithmetic one, an empty loop jump. */
  predicate KeptFromRef(w: Word) {
    var (op, c) := (Field(w, 0, 7), Field(w, 24, 8));
    && (46 <= op <= 48 ==> c >= 6 && c != 18)
    && (op == 73 || op == 77 ==> Field(w, 15, 17) > 0)
  }

  /** For every word of a vector; a long SETLIST must have an index of at least 1 to reach the reference. */
  function AllKeptToRef(code: seq<Word>): (r: seq<bool>)
    ensures |r| == |code|
  {
    if code == [] then []
    else if TwoWords(code[0]) && |code| > 1 then [Field(code[1], 7, 25) >= 1, true] + AllKeptToRef(code[2..])
    else [KeptToRef(code[0])] + AllKeptToRef(code[1..])
  }

  function AllKeptFromRef(code: seq<Word>): (r: seq<bool>)
    ensures |r| == |code|
  {
    if code == [] then []
    else if TwoWords(code[0]) && |code| > 1 then [true, true] + AllKeptFromRef(code[2..])
    else [KeptFromRef(code[0])] + AllKeptFromRef(code[1..])
  }

  // -- fields ---------------------------------------------------------------------------------

  lemma Powers()
    ensures Pow2(0) == 1 && Pow2(1) == 2 && Pow2(6) == 64 && Pow2(7) == 128 && Pow2(8) == 256 && Pow2(10) == 1024
    ensures Pow2(15) == 0x8000 && Pow2(16) == 0x1_0000 && Pow2(17) == 0x2_0000 && Pow2(22) == 0x40_0000 && Pow2(24) == 0x100_0000 && Pow2(25) == 0x200_0000
  {
    assert Pow2(2) == 4 && Pow2(3) == 8 && Pow2(4) == 16 && Pow2(5) == 32 && Pow2(9) == 512;
    assert Pow2(11) == 0x800 && Pow2(12) == 0x1000 && Pow2(13) == 0x2000 && Pow2(14) == 0x4000;
    assert Pow2(18) == 0x4_0000 && Pow2(19) == 0x8_0000 && Pow2(20) == 0x10_0000 && Pow2(21) == 0x20_0000 && Pow2(23) == 0x80_0000;
  }

  lemma FieldsOf(w: Word)
    ensures Field(w, 0, 7) == Op(w) && Field(w, 7, 8) == A(w) && Field(w, 15, 1) == K(w) && Field(w, 16, 8) == B(w) && Field(w, 24, 8) == C(w)
    ensures Field(w, 16, 6) == VB(w) && Field(w, 22, 10) == VC(w) && Field(w, 15, 17) == Bx(w) && Field(w, 7, 25) == Ax(w)
  {
    Powers();
  }

  // -- single words ---------------------------------------------------------------------------

  lemma WordKeepsToRef(w: Word, pc: int)
    requires !TwoWords(w)
    ensures !TwoWords(WordToRef(w)) && (RefEffect(WordToRef(w), pc) == GoEffect(w, pc) <==> KeptToRef(w))
  {
    hide Field, Op, A, B, C, K, VB, VC, Bx, Ax, MakeABC, MakeVABC, MakeABx, MakeAx;
    var v := WordToRef(w);
    FieldsOf(w);
    FieldsOf(v);
    FieldsMakeWord(w);
    if IsMmBin(w) && C(w) < ARITH_TAGS { ABCFields(Op(w), A(w), B(w), C(w) + TAG_OFFSET, K(w)); }
    if IsLoop(w) && Bx(w) < MAX_ARG_BX { ABxFields(Op(w), A(w), Bx(w) + 1); }
    if Op(w) == OP_SETLIST { VABCFields(OP_SETLIST, A(w), VB(w), if VC(w) == 0 then MAX_ARG_VC else VC(w) - 1, 0); }
    if Op(w) == OP_SHLI { ABCFields(OP_SHRI, A(w), B(w), C(w), K(w)); }
    if Op(w) == OP_SHRI { ABCFields(OP_SHLI, A(w), B(w), C(w), K(w)); }
  }

  lemma WordKeepsFromRef(w: Word, pc: int)
    requires !TwoWords(w)
    ensures !TwoWords(WordFromRef(w)) && (GoEffect(WordFromRef(w), pc) == RefEffect(w, pc) <==> KeptFromRef(w))
  {
    hide Field, Op, A, B, C, K, VB, VC, Bx, Ax, MakeABC, MakeVABC, MakeABx, MakeAx;
    var v := WordFromRef(w);
    FieldsOf(w);
    FieldsOf(v);
    FieldsMakeWord(w);
    if IsMmBin(w) && TAG_OFFSET <= C(w) < TAG_OFFSET + ARITH_TAGS { ABCFields(Op(w), A(w), B(w), C(w) - TAG_OFFSET, K(w)); }
    if IsLoop(w) && Bx(w) > 0 { ABxFields(Op(w), A(w), Bx(w) - 1); }
    if Op(w) == OP_SETLIST { VABCFields(OP_SETLIST, A(w), VB(w), if VC(w) == MAX_ARG_VC then 0 else VC(w) + 1, 0); }
    if Op(w) == OP_SHLI { ABCFields(OP_SHRI, A(w), B(w), C(w), K(w)); }
    if Op(w) == OP_SHRI { ABCFields(OP_SHLI, A(w), B(w), C(w), K(w)); }
  }

  // -- vectors ----------------------------------------------------------------------------------

  /** The two vectors do the same exactly at the positions marked. */
  predicate SameWhere(m: seq<Effect>, n: seq<Effect>, kept: seq<bool>) {
    |m| == |n| == |kept| && forall i :: 0 <= i < |kept| ==> (m[i] == n[i] <==> kept[i])
  }

  lemma SameOnwards(a: seq<Effect>, b: seq<Effect>, k: seq<bool>, m: seq<Effect>, n: seq<Effect>, kept: seq<bool>)
    requires SameWhere(a, b, k) && SameWhere(m, n, kept)
    ensures SameWhere(a + m, b + n, k + kept)
  {
  }

  lemma {:induction false} ShortToRef(code: seq<Word>)
    requires code != [] && !IsLongSetList(code[0])
    ensures ToRef(code) == [WordToRef(code[0])] + ToRef(code[1..]) && ToRef(code)[0] == WordToRef(code[0]) && ToRef(code)[1..] == ToRef(code[1..])
  {
    hide WordToRef, IsLongSetList;
  }

  lemma {:induction false} ShortFromRef(code: seq<Word>)
    requires code != [] && !IsLongSetList(code[0])
    ensures FromRef(code).Some? <==> FromRef(code[1..]).Some?
    ensures FromRef(code).Some? ==> FromRef(code).value[0] == WordFromRef(code[0]) && FromRef(code).value[1..] == FromRef(code[1..]).value
  {
    hide WordFromRef, IsLongSetList;
  }

  lemma LongIs(w: Word)
    ensures TwoWords(w) <==> IsLongSetList(w)
  {
    FieldsOf(w);
  }

  lemma {:induction false} GoUnfold(code: seq<Word>, pc: int)
    requires code != []
    ensures !TwoWords(code[0]) ==> GoMeaning(code, pc) == [GoEffect(code[0], pc)] + GoMeaning(code[1..], pc + 1)
    ensures TwoWords(code[0]) && |code| > 1 ==>
              GoMeaning(code, pc) == [Store(A(code[0]), VB(code[0]), Ax(code[1])), SecondWord] + GoMeaning(code[2..], pc + 2)
  {
    FieldsOf(code[0]);
    if |code| > 1 { FieldsOf(code[1]); }
    hide Field, GoEffect;
  }

  lemma {:induction false} RefUnfold(code: seq<Word>, pc: int)
    requires code != []
    ensures !TwoWords(code[0]) ==> RefMeaning(code, pc) == [RefEffect(code[0], pc)] + RefMeaning(code[1..], pc + 1)
    ensures TwoWords(code[0]) && |code| > 1 ==>
              RefMeaning(code, pc) == [Store(A(code[0]), VB(code[0]), Stored(code[0], code[1]) + 1), SecondWord] + RefMeaning(code[2..], pc + 2)
  {
    FieldsOf(code[0]);
    if |code| > 1 { FieldsOf(code[1]); }
    hide Field, RefEffect, VC, Ax, A, VB;
  }

  lemma {:induction false} KeptUnfold(code: seq<Word>)
    requires code != []
    ensures !TwoWords(code[0]) ==> AllKeptToRef(code) == [KeptToRef(code[0])] + AllKeptToRef(code[1..]) && AllKeptFromRef(code) == [KeptFromRef(code[0])] + AllKeptFromRef(code[1..])
    ensures TwoWords(code[0]) && |code| > 1 ==> AllKeptToRef(code) == [Ax(code[1]) >= 1, true] + AllKeptToRef(code[2..]) && AllKeptFromRef(code) == [true, true] + AllKeptFromRef(code[2..])
  {
    if |code| > 1 { FieldsOf(code[1]); }
    hide Field, KeptToRef, KeptFromRef;
  }

  /** A dump does what the code does at every position but those marked, and at each of those it does not. */
  lemma {:induction false} ToRefKeeps(code: seq<Word>, pc: int)
    ensures SameWhere(RefMeaning(ToRef(code), pc), GoMeaning(code, pc), AllKeptToRef(code))
    decreases code
  {
    hide Field, TwoWords, Op, A, B, C, K, VB, VC, Bx, Ax, MakeABC, MakeVABC, MakeABx, MakeAx, GoEffect, RefEffect, KeptToRef, WordToRef, PairToRef, Stored, ToRef, RefMeaning, GoMeaning, AllKeptToRef, IsLongSetList, SameWhere;
    if code == [] {
      NothingKept(pc);
    } else {
      var (w, out) := (code[0], ToRef(code));
      LongIs(w);
      LongIs(out[0]);
      GoUnfold(code, pc);
      KeptUnfold(code);
      RefUnfold(out, pc);
      if TwoWords(w) && |code| > 1 {
        LongToRefIs(code);
        ToRefKeeps(code[2..], pc + 2);
        var first := Store(A(w), VB(w), Ax(code[1]));
        PairSame(RefMeaning(out, pc)[0], first, Ax(code[1]) >= 1);
        SameOnwards([RefMeaning(out, pc)[0], SecondWord], [first, SecondWord], [Ax(code[1]) >= 1, true],
                    RefMeaning(out[2..], pc + 2), GoMeaning(code[2..], pc + 2), AllKeptToRef(code[2..]));
      } else if TwoWords(w) {
        LoneToRef(code, pc);
      } else {
        ShortToRef(code);
        WordKeepsToRef(w, pc);
        ToRefKeeps(code[1..], pc + 1);
        OneSame(RefEffect(out[0], pc), GoEffect(w, pc), KeptToRef(w));
        SameOnwards([RefEffect(out[0], pc)], [GoEffect(w, pc)], [KeptToRef(w)], RefMeaning(out[1..], pc + 1), GoMeaning(code[1..], pc + 1), AllKeptToRef(code[1..]));
      }
    }
  }

  lemma {:induction false} NothingKept(pc: int)
    ensures SameWhere(RefMeaning(ToRef([]), pc), GoMeaning([], pc), AllKeptToRef([]))
    ensures FromRef([]) == Some([]) && SameWhere(GoMeaning([], pc), RefMeaning([], pc), AllKeptFromRef([]))
  {
  }

  lemma OneSame(x: Effect, y: Effect, k: bool)
    requires x == y <==> k
    ensures SameWhere([x], [y], [k])
  {
  }

  lemma PairSame(x: Effect, y: Effect, k: bool)
    requires x == y <==> k
    ensures SameWhere([x, SecondWord], [y, SecondWord], [k, true])
  {
  }

  lemma {:induction false} LoneToRef(code: seq<Word>, pc: int)
    requires |code| == 1 && TwoWords(code[0])
    ensures SameWhere(RefMeaning(ToRef(code), pc), GoMeaning(code, pc), AllKeptToRef(code))
  {
    FieldsOf(code[0]);
    LongAlone(code[0]);
    hide Field;
    assert ToRef(code) == [WordToRef(code[0])];
  }

  /** The index arrives; an index below 1 is left as it is and means another one there. */
  lemma {:induction false} LongToRefIs(code: seq<Word>)
    requires |code| > 1 && IsLongSetList(code[0])
    ensures var out := ToRef(code);
            && IsLongSetList(out[0]) && A(out[0]) == A(code[0]) && VB(out[0]) == VB(code[0]) && out[2..] == ToRef(code[2..])
            && (Ax(code[1]) >= 1 ==> Stored(out[0], out[1]) + 1 == Ax(code[1]))
  {
    hide Op, A, B, C, K, VB, VC, Bx, MakeABC, MakeVABC, MakeABx, MakeAx, WordToRef, PairToRef, Stored;
    var x := code[1];
    FieldsMakeWord(x);
    if Ax(x) >= 1 {
      PairParts(code[0], Ax(x));
      LongToRef(code);
    } else {
      LongAlone(code[0]);
      NotLong(x);
      assert ToRef(code) == [WordToRef(code[0])] + ToRef(code[1..]);
      ShortToRef(code[1..]);
      assert code[1..][1..] == code[2..] && ToRef(code)[2..] == ToRef(code[1..])[1..];
    }
  }

  lemma NotLong(x: Word)
    requires Ax(x) == 0
    ensures !IsLongSetList(x)
  {
  }

  /** Loading keeps what a reference chunk does at every position but those marked, or fails. */
  lemma {:induction false} FromRefKeeps(code: seq<Word>, pc: int)
    requires FromRef(code).Some?
    ensures SameWhere(GoMeaning(FromRef(code).value, pc), RefMeaning(code, pc), AllKeptFromRef(code))
    decreases code
  {
    hide Field, TwoWords, Op, A, B, C, K, VB, VC, Bx, Ax, MakeABC, MakeVABC, MakeABx, MakeAx, GoEffect, RefEffect, KeptFromRef, WordFromRef, PairFromRef, Stored, FromRef, RefMeaning, GoMeaning, AllKeptFromRef, IsLongSetList, SameWhere;
    if code == [] {
      NothingKept(pc);
    } else {
      var (w, out) := (code[0], FromRef(code).value);
      LongIs(w);
      LongIs(out[0]);
      RefUnfold(code, pc);
      KeptUnfold(code);
      GoUnfold(out, pc);
      if TwoWords(w) {
        LongFromRefIs(code);
        FromRefKeeps(code[2..], pc + 2);
        var first := Store(A(w), VB(w), Stored(w, code[1]) + 1);
        PairSame(first, first, true);
        SameOnwards([first, SecondWord], [first, SecondWord], [true, true], GoMeaning(out[2..], pc + 2), RefMeaning(code[2..], pc + 2), AllKeptFromRef(code[2..]));
      } else {
        ShortFromRef(code);
        WordKeepsFromRef(w, pc);
        FromRefKeeps(code[1..], pc + 1);
        OneSame(GoEffect(out[0], pc), RefEffect(w, pc), KeptFromRef(w));
        SameOnwards([GoEffect(out[0], pc)], [RefEffect(w, pc)], [KeptFromRef(w)], GoMeaning(out[1..], pc + 1), RefMeaning(code[1..], pc + 1), AllKeptFromRef(code[1..]));
      }
    }
  }

  lemma {:induction false} LongFromRefIs(code: seq<Word>)
    requires |code| > 0 && IsLongSetList(code[0])
    ensures FromRef(code).Some? <==> |code| > 1 && Stored(code[0], code[1]) < 33554431 && FromRef(code[2..]).Some?
    ensures FromRef(code).Some? ==> var out := FromRef(code).value;
            && IsLongSetList(out[0]) && A(out[0]) == A(code[0]) && VB(out[0]) == VB(code[0]) && out[2..] == FromRef(code[2..]).value
            && Ax(out[1]) == Stored(code[0], code[1]) + 1
  {
    hide Op, A, B, C, K, VB, VC, Bx, Ax, MakeABC, MakeVABC, MakeABx, MakeAx, PairFromRef, Stored, IsLongSetList;
    if |code| > 1 && Stored(code[0], code[1]) + 1 <= MAX_ARG_AX {
      PairBack(code[0], Stored(code[0], code[1]));
      LongFromRef(code);
    }
  }

  predicate Refused(e: Effect) {
    e.NoIndex? || (e.Store? && e.first > 33554431)
  }

  predicate AnyRefused(m: seq<Effect>) {
    exists i :: 0 <= i < |m| && Refused(m[i])
  }

  /** Loading fails exactly when a long SETLIST has no index or one beyond the 25 bits of an EXTRAARG. */
  lemma {:induction false} FromRefRefuses(code: seq<Word>, pc: int)
    ensures FromRef(code).None? <==> AnyRefused(RefMeaning(code, pc))
    decreases code
  {
    hide Field, Op, A, B, C, K, VB, VC, Bx, Ax, MakeABC, MakeVABC, MakeABx, MakeAx, WordFromRef, PairFromRef, Stored, FromRef, RefMeaning, AnyRefused, TwoWords, IsLongSetList, RefEffect;
    if code == [] {
      NothingRefused(pc);
    } else {
      var w := code[0];
      LongIs(w);
      RefUnfold(code, pc);
      if TwoWords(w) && |code| > 1 {
        LongFromRefIs(code);
        FromRefRefuses(code[2..], pc + 2);
        RefusedOnwards([Store(A(w), VB(w), Stored(w, code[1]) + 1), SecondWord], RefMeaning(code[2..], pc + 2));
        PairRefused(Store(A(w), VB(w), Stored(w, code[1]) + 1));
      } else if TwoWords(w) {
        LongFromRefIs(code);
        LoneRefused(code, pc);
      } else {
        ShortFromRef(code);
        FromRefRefuses(code[1..], pc + 1);
        WordNotRefused(w, pc);
        RefusedOnwards([RefEffect(w, pc)], RefMeaning(code[1..], pc + 1));
      }
    }
  }

  lemma {:induction false} NothingRefused(pc: int)
    ensures FromRef([]).Some? && !AnyRefused(RefMeaning([], pc))
  {
  }

  lemma RefusedOnwards(a: seq<Effect>, m: seq<Effect>)
    ensures AnyRefused(a + m) <==> AnyRefused(a) || AnyRefused(m)
  {
    hide Refused;
    if AnyRefused(a) {
      var i :| 0 <= i < |a| && Refused(a[i]);
      assert (a + m)[i] == a[i];
    }
    if AnyRefused(m) {
      var i :| 0 <= i < |m| && Refused(m[i]);
      assert (a + m)[|a| + i] == m[i];
    }
  }

  lemma PairRefused(e: Effect)
    ensures AnyRefused([e, SecondWord]) <==> Refused(e)
  {
    assert [e, SecondWord][0] == e;
  }

  lemma {:induction false} LoneRefused(code: seq<Word>, pc: int)
    requires |code| == 1 && TwoWords(code[0])
    ensures AnyRefused(RefMeaning(code, pc))
  {
    hide Field;
    assert RefMeaning(code, pc)[0].NoIndex?;
  }

  lemma WordNotRefused(w: Word, pc: int)
    ensures !AnyRefused([RefEffect(w, pc)])
  {
    FieldsOf(w);
    FieldsMakeWord(w);
    hide Field, Op, A, B, C, K, VB, VC, Bx, Ax;
  }

  /** In both encodings the word after a long SETLIST is an EXTRAARG. */
  lemma SecondWords(w: Word, first: nat)
    requires 1 <= first < 33554432
    ensures Field(PairToRef(w, first)[1], 0, 7) == 84 && Field(PairFromRef(w, first - 1)[1], 0, 7) == 84
  {
    FieldsMakeWord(w);
    FieldsOf(PairToRef(w, first)[1]);
    FieldsOf(PairFromRef(w, first - 1)[1]);
    AxFields(84, (first - 1) / 1024);
    AxFields(84, first);
    hide Field, MakeAx, Op, Ax;
  }

  /** A jump stores its offset in 25 bits, over 16777215. */
  lemma JumpIs(w: Word, sj: int)
    requires -16777215 <= sj <= 16777216
    ensures Field(SetSJ(w, sj), 7, 25) == sj + 16777215 && Field(SetSJ(w, sj), 0, 7) == Field(w, 0, 7) && SJ(w) == Field(w, 7, 25) - 16777215
  {
    FieldsMakeWord(w);
    FieldsOf(w);
    FieldsOf(SetSJ(w, sj));
    AxFields(Op(w), sj + 16777215);
    hide Field, MakeAx, Op, Ax;
  }
}
