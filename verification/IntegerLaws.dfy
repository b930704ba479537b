/**
 What the integer operators mean, told without computing them: bit by bit, by
 remainders, and by the order of the integers.
*/
module IntegerLaws {
  import opened Wrappers
  import opened LuaValues
  import opened Folding

  /** Bit k of n. */
  predicate Bit(n: nat, k: nat) {
    if k == 0 then n % 2 == 1 else Bit(n / 2, k - 1)
  }

  /** Bit k of the two's complement of x. */
  predicate BitOf(x: Int64, k: nat) {
    Bit(if x >= 0 then x else 0x1_0000_0000_0000_0000 + x, k)
  }

  // -- bits of the operators on natural numbers ---------------------------------------------

  lemma {:induction false} AndStep(a: nat, b: nat)
    ensures AndBits(a, b) / 2 == AndBits(a / 2, b / 2) && (AndBits(a, b) % 2 == 1 <==> a % 2 == 1 && b % 2 == 1)
  {
    if a == 0 || b == 0 { NoneAnd(a / 2, b / 2); }
  }

  lemma {:induction false} NoneAnd(a: nat, b: nat)
    ensures a == 0 || b == 0 ==> AndBits(a, b) == 0
  {
  }

  lemma {:induction false} XorUnfold(a: nat, b: nat)
    ensures XorBits(a, b) == 2 * XorBits(a / 2, b / 2) + (a + b) % 2
  {
    if a == 0 && b == 0 { assert XorBits(0, 0) == 0; }
  }

  lemma {:induction false} XorStep(a: nat, b: nat)
    ensures XorBits(a, b) / 2 == XorBits(a / 2, b / 2) && (XorBits(a, b) % 2 == 1 <==> (a % 2 == 1) != (b % 2 == 1))
  {
    XorUnfold(a, b);
    hide XorBits;
  }

  lemma {:induction false} AndBit(a: nat, b: nat, k: nat)
    ensures Bit(AndBits(a, b), k) <==> Bit(a, k) && Bit(b, k)
    decreases k
  {
    AndStep(a, b);
    if k > 0 { AndBit(a / 2, b / 2, k - 1); }
  }

  lemma {:induction false} XorBit(a: nat, b: nat, k: nat)
    ensures Bit(XorBits(a, b), k) <==> Bit(a, k) != Bit(b, k)
    decreases k
  {
    XorStep(a, b);
    if k > 0 { XorBit(a / 2, b / 2, k - 1); }
  }

  lemma {:induction false} OrBit(a: nat, b: nat, k: nat)
    ensures Bit(OrBits(a, b), k) <==> Bit(a, k) || Bit(b, k)
    decreases k
  {
    AndStep(a, b);
    XorStep(a, b);
    hide AndBits, XorBits;
    var (x, y) := (AndBits(a, b), XorBits(a, b));
    assert !(x % 2 == 1 && y % 2 == 1);
    assert (x + y) / 2 == x / 2 + y / 2;
    if k > 0 { OrBit(a / 2, b / 2, k - 1); }
  }

  // -- ranges ---------------------------------------------------------------------------------

  lemma {:induction false} Bounded(a: nat, b: nat, n: nat)
    requires a < Pow2(n) && b < Pow2(n)
    ensures AndBits(a, b) < Pow2(n) && XorBits(a, b) < Pow2(n) && OrBits(a, b) < Pow2(n)
    decreases n
  {
    AndStep(a, b);
    XorStep(a, b);
    if n > 0 { Bounded(a / 2, b / 2, n - 1); }
  }

  lemma {:induction false} SixtyFour()
    ensures Pow2(64) == 0x1_0000_0000_0000_0000
  {
    assert Pow2(8) == 0x100;
    assert Pow2(16) == 0x1_0000;
    assert Pow2(24) == 0x100_0000;
    assert Pow2(32) == 0x1_0000_0000;
    assert Pow2(40) == 0x100_0000_0000;
    assert Pow2(48) == 0x1_0000_0000_0000;
    assert Pow2(56) == 0x100_0000_0000_0000;
  }

  lemma WrapIs(x: int)
    ensures (Wrap(x) - x) % 0x1_0000_0000_0000_0000 == 0
    ensures -0x8000_0000_0000_0000 <= x < 0x8000_0000_0000_0000 ==> Wrap(x) == x
    ensures 0x8000_0000_0000_0000 <= x < 0x1_0000_0000_0000_0000 ==> Wrap(x) == x - 0x1_0000_0000_0000_0000
  {
    var q := (x + 0x8000_0000_0000_0000) / 0x1_0000_0000_0000_0000;
    assert Wrap(x) - x == -0x1_0000_0000_0000_0000 * q;
  }

  /** A number of 64 bits keeps them when it becomes an integer. */
  lemma {:induction false} WrapBits(n: nat, k: nat)
    requires n < 0x1_0000_0000_0000_0000
    ensures BitOf(Wrap(n), k) <==> Bit(n, k)
  {
    WrapIs(n);
    hide Bit, Wrap;
  }

  lemma Signs(x: int, y: int)
    ensures x >= 0 && y >= 0 ==> x * y >= 0
    ensures x >= 0 && y <= 0 ==> x * y <= 0
    ensures x > 0 && y > 0 ==> x * y > 0
  {
  }

  lemma Scaled(c: int, q: int)
    requires c >= 1
    ensures if q >= 0 then c * q >= q && (c >= 2 && q > 0 ==> c * q > q) else c * q <= q
  {
    Signs(c - 1, q);
    assert c * q == q + (c - 1) * q;
  }

  lemma Divided(a: int, c: int)
    requires c >= 1
    ensures a == c * (a / c) + a % c && 0 <= a % c < c
  {
  }

  lemma DivRange(a: int, c: int)
    requires c >= 1
    ensures if a >= 0 then 0 <= a / c <= a && (c >= 2 && a > 0 ==> a / c < a) else a <= a / c <= -1
    ensures 0 <= a - c * (a / c) < c
  {
    Divided(a, c);
    RangeOf(a, c, a / c, a % c);
  }

  lemma RangeOf(a: int, c: int, q: int, r: int)
    requires c >= 1 && a == c * q + r && 0 <= r < c
    ensures if a >= 0 then 0 <= q <= a && (c >= 2 && a > 0 ==> q < a) else a <= q <= -1
  {
    Scaled(c, q);
    Scaled(c, q + 1);
    assert c * (q + 1) == c * q + c;
    if a < 0 && q < 0 { Scaled(c, -q - 1); assert c * (-q - 1) == -(c * q) - c; }
  }

  /** Rounding down: the remainder has the divisor's sign, and only the least integer over -1 is out of range. */
  lemma FloorIs(a: Int64, b: Int64)
    requires b != 0
    ensures a == b * FloorDiv(a, b) + FloorMod(a, b)
    ensures if b > 0 then 0 <= FloorMod(a, b) < b else b < FloorMod(a, b) <= 0
    ensures -0x8000_0000_0000_0000 <= FloorDiv(a, b) <= 0x8000_0000_0000_0000
    ensures FloorDiv(a, b) == 0x8000_0000_0000_0000 ==> a == -0x8000_0000_0000_0000 && b == -1
  {
    if b > 0 {
      DivRange(a, b);
    } else {
      var x, c: int := a, b;
      DivRange(-x, -c);
      var q := (-x) / (-c);
      assert (-c) * q == -(c * q);
    }
  }

  // -- the operators -----------------------------------------------------------------------------

  /** Bit by bit: and, or, exclusive or, and their complement. */
  lemma {:induction false} BitwiseIs(a: Int64, b: Int64, k: nat)
    ensures IntArith(BAnd, a, b).Some? && IntArith(BOr, a, b).Some? && IntArith(BXor, a, b).Some?
    ensures BitOf(IntArith(BAnd, a, b).value, k) <==> BitOf(a, k) && BitOf(b, k)
    ensures BitOf(IntArith(BOr, a, b).value, k) <==> BitOf(a, k) || BitOf(b, k)
    ensures BitOf(IntArith(BXor, a, b).value, k) <==> BitOf(a, k) != BitOf(b, k)
  {
    var (x, y) := (Bits(a), Bits(b));
    SixtyFour();
    hide Pow2, AndBits, XorBits, OrBits, Bit;
    Bounded(x, y, 64);
    AndBit(x, y, k);
    OrBit(x, y, k);
    XorBit(x, y, k);
    WrapBits(AndBits(x, y), k);
    WrapBits(OrBits(x, y), k);
    WrapBits(XorBits(x, y), k);
  }

  /** Sums, differences and products differ from the exact ones by a multiple of 2^64. */
  lemma WrapsAround(a: Int64, b: Int64)
    ensures IntArith(Add, a, b).Some? && IntArith(Sub, a, b).Some? && IntArith(Mul, a, b).Some?
    ensures (IntArith(Add, a, b).value - (a + b)) % 0x1_0000_0000_0000_0000 == 0
    ensures (IntArith(Sub, a, b).value - (a - b)) % 0x1_0000_0000_0000_0000 == 0
    ensures (IntArith(Mul, a, b).value - a * b) % 0x1_0000_0000_0000_0000 == 0
  {
    WrapIs(a + b);
    WrapIs(a - b);
    var p := a * b;
    WrapIs(p);
    hide Wrap;
  }

  /** Quotient and remainder belong together, and the remainder lies on the divisor's side of zero. */
  lemma DivisionIs(a: Int64, b: Int64)
    ensures b == 0 ==> IntArith(IDiv, a, b).None? && IntArith(Mod, a, b).None?
    ensures b != 0 ==> IntArith(IDiv, a, b).Some? && IntArith(Mod, a, b).Some?
    ensures b != 0 ==> var r := IntArith(Mod, a, b).value; if b > 0 then 0 <= r < b else b < r <= 0
    ensures b != 0 && !(a == -0x8000_0000_0000_0000 && b == -1) ==> b * IntArith(IDiv, a, b).value + IntArith(Mod, a, b).value == a
    ensures a == -0x8000_0000_0000_0000 && b == -1 ==> IntArith(IDiv, a, b).value == a
  {
    if b != 0 {
      FloorIs(a, b);
      WrapIs(FloorDiv(a, b));
      WrapIs(FloorMod(a, b));
      hide Wrap, FloorDiv, FloorMod;
      if a == -0x8000_0000_0000_0000 && b == -1 { LeastOverMinusOne(); }
    }
  }

  lemma LeastOverMinusOne()
    ensures FloorDiv(-0x8000_0000_0000_0000, -1) == 0x8000_0000_0000_0000
  {
  }

  // -- shifts ------------------------------------------------------------------------------------

  /** n without its lowest m bits. */
  function Drop(n: nat, m: nat): nat
    decreases m
  {
    if m == 0 then n else Drop(n / 2, m - 1)
  }

  lemma {:induction false} DropDivides(n: nat, m: nat)
    ensures n / Pow2(m) == Drop(n, m)
    decreases m
  {
    if m > 0 {
      DropDivides(n / 2, m - 1);
      Halves(n, Pow2(m - 1));
    }
  }

  lemma {:induction false} BitHigh(n: nat, m: nat, k: nat)
    ensures Bit(Drop(n, m), k) <==> Bit(n, k + m)
    decreases m
  {
    if m > 0 { BitHigh(n / 2, m - 1, k); }
  }

  lemma Halves(n: nat, p: nat)
    requires p > 0
    ensures n / (2 * p) == n / 2 / p
  {
    var (h, q, r) := (n / 2, n / 2 / p, n / 2 % p);
    assert h == p * q + r;
    assert n == 2 * p * q + (2 * r + n % 2) && 0 <= 2 * r + n % 2 < 2 * p;
    QuotientUnique(2 * p, n / (2 * p), n % (2 * p), q, 2 * r + n % 2);
  }

  lemma {:induction false} BitLow(n: nat, m: nat, k: nat)
    ensures Bit(n * Pow2(m), k) <==> k >= m && Bit(n, k - m)
    decreases m
  {
    if m == 0 {
      assert Pow2(0) == 1;
    } else {
      var x := n * Pow2(m - 1);
      assert n * Pow2(m) == 2 * x;
      assert 2 * x / 2 == x && 2 * x % 2 == 0;
      if k > 0 { BitLow(n, m - 1, k - 1); }
    }
  }

  /** Only the bits below m count modulo 2^m. */
  lemma {:induction false} BitModulo(n: nat, m: nat, k: nat)
    requires k < m
    ensures Bit(n % Pow2(m), k) <==> Bit(n, k)
    decreases k
  {
    var p := Pow2(m - 1);
    RemainderHalves(n, p);
    if k > 0 { BitModulo(n / 2, m - 1, k - 1); }
  }

  lemma RemainderHalves(n: nat, p: nat)
    requires p > 0
    ensures n % (2 * p) == 2 * (n / 2 % p) + n % 2
    ensures n % (2 * p) / 2 == n / 2 % p && n % (2 * p) % 2 == n % 2
  {
    var (q, r) := (n / 2 / p, n / 2 % p);
    assert n / 2 == p * q + r;
    assert n == 2 * p * q + (2 * r + n % 2) && 0 <= 2 * r + n % 2 < 2 * p;
    QuotientUnique(2 * p, n / (2 * p), n % (2 * p), q, 2 * r + n % 2);
  }

  /** Any natural number, wrapped, has the bits of its lowest 64. */
  lemma {:induction false} WrapModulo(n: nat, k: nat)
    requires k < 64
    ensures BitOf(Wrap(n), k) <==> Bit(n, k)
  {
    SixtyFour();
    BitModulo(n, 64, k);
    var r := n % 0x1_0000_0000_0000_0000;
    WrapIs(n);
    WrapIs(r);
    assert Wrap(n) == Wrap(r);
    WrapBits(r, k);
  }

  /** A shift by n places moves every bit n places up, or down if n is negative, zeros coming in; a right shift is the other way. */
  lemma {:induction false} ShiftIs(a: Int64, n: Int64, k: nat)
    requires k < 64
    ensures IntArith(Shl, a, n).Some? && IntArith(Shr, a, n).Some?
    ensures BitOf(IntArith(Shl, a, n).value, k) <==> 0 <= k - n < 64 && BitOf(a, k - n)
    ensures BitOf(IntArith(Shr, a, n).value, k) <==> 0 <= k + n < 64 && BitOf(a, k + n)
  {
    ShiftBits(a, n, k);
    ShiftBits(a, 0 - n as int, k);
  }

  lemma {:induction false} ShiftBits(a: Int64, n: int, k: nat)
    requires k < 64
    ensures BitOf(ShiftLeft(a, n), k) <==> 0 <= k - n < 64 && BitOf(a, k - n)
  {
    hide Bit, Pow2, Wrap;
    var x := Bits(a);
    if n >= 64 || n <= -64 {
      NoBits(k);
    } else if n >= 0 {
      BitLow(x, n, k);
      WrapModulo(x * Pow2(n), k);
    } else {
      BitHigh(x, -n, k);
      DropDivides(x, -n);
      WrapModulo(Drop(x, -n), k);
      if k - n >= 64 { AboveAll(x, k - n); }
    }
  }

  lemma {:induction false} NoBits(k: nat)
    ensures !Bit(0, k)
  {
    if k > 0 { NoBits(k - 1); }
  }

  lemma {:induction false} AboveAll(x: nat, k: nat)
    requires x < 0x1_0000_0000_0000_0000 && k >= 64
    ensures !Bit(x, k)
  {
    SixtyFour();
    DropDivides(x, 64);
    assert x / 0x1_0000_0000_0000_0000 == 0;
    hide Pow2, Drop;
    BitHigh(x, 64, k - 64);
    NoBits(k - 64);
  }

  // -- order and truth ---------------------------------------------------------------------------

  /** What a comparison of two integers answers; nothing is asked for it. */
  predicate Holds(o: Oracle, log: Log, op: BinOp, a: Int64, b: Int64)
    requires IsComparison(op)
  {
    CompareValue(o, log, op, Int(a), Int(b)) == Val(log, Bool(true))
  }

  /** The integers are ordered one after another, exactly one of less, equal and greater holds, and the other three are their opposites. */
  lemma OrderIs(o: Oracle, log: Log, a: Int64, b: Int64, c: Int64)
    ensures a < 0x7FFF_FFFF_FFFF_FFFF ==> Holds(o, log, Lt, a, a + 1)
    ensures Holds(o, log, Lt, a, b) && Holds(o, log, Lt, b, c) ==> Holds(o, log, Lt, a, c)
    ensures !(Holds(o, log, Lt, a, b) && Holds(o, log, Gt, a, b)) && (Holds(o, log, Eq, a, b) <==> a == b)
    ensures Holds(o, log, Eq, a, b) <==> !Holds(o, log, Lt, a, b) && !Holds(o, log, Gt, a, b)
    ensures Holds(o, log, Gt, a, b) <==> Holds(o, log, Lt, b, a)
    ensures Holds(o, log, Le, a, b) <==> !Holds(o, log, Gt, a, b)
    ensures Holds(o, log, Ge, a, b) <==> !Holds(o, log, Lt, a, b)
    ensures Holds(o, log, Ne, a, b) <==> !Holds(o, log, Eq, a, b)
  {
  }

  /** nil and false are false and everything else is true, zero and the empty string included. */
  lemma TruthIs(i: Int64, s: string, id: nat)
    ensures !Truthy(Nil) && !Truthy(Bool(false)) && Truthy(Bool(true)) && Truthy(Int(i)) && Truthy(Str(s)) && Truthy(Other(id))
  {
  }
}
