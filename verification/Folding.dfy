/**
 Constant folding agrees with the language: the compiler divides with machine
 integers and corrects the result, the language floors.
*/
module Folding {
  import opened Wrappers
  import opened LuaValues
  import opened LuaSource
  import opened ExprSpec

  lemma AtLeast(b: int, k: int)
    requires b > 0 && k >= 1
    ensures b * k >= b
  {
    assert b * k == b * (k - 1) + b;
  }

  lemma QuotientUnique(b: int, q1: int, r1: int, q2: int, r2: int)
    requires b > 0 && 0 <= r1 < b && 0 <= r2 < b
    requires b * q1 + r1 == b * q2 + r2
    ensures q1 == q2 && r1 == r2
  {
    assert b * (q2 - q1) == b * q2 - b * q1;
    assert b * (q1 - q2) == b * q1 - b * q2;
    if q1 < q2 {
      AtLeast(b, q2 - q1);
    } else if q1 > q2 {
      AtLeast(b, q1 - q2);
    }
  }

  /** Rounding a negative dividend down, from its positive quotient. */
  lemma FloorOfNegative(a: int, b: int)
    requires a >= 0 && b > 0
    ensures (-a) / b == -(a / b) - (if a % b == 0 then 0 else 1)
    ensures (a / b) * b == a <==> a % b == 0
  {
    var (q, m) := (a / b, a % b);
    var (q2, m2) := (-q - (if m == 0 then 0 else 1), if m == 0 then 0 else b - m);
    assert a == b * q + m;
    assert b * q2 == -(b * q) - (if m == 0 then 0 else b);
    QuotientUnique(b, (-a) / b, (-a) % b, q2, m2);
  }

  lemma NegateProduct(q: int, b: int)
    ensures (-q) * b == -(q * b) && (-q) * (-b) == q * b
  {
  }

  /** The quotient truncated toward zero, corrected when signs differ and the division is inexact. */
  lemma FloorIsTruncFixed(a: int, b: int)
    requires b != 0
    ensures FloorDiv(a, b) == TruncDiv(a, b) - (if (a < 0) != (b < 0) && TruncDiv(a, b) * b != a then 1 else 0)
  {
    if b > 0 && a < 0 {
      FloorOfNegative(-a, b);
      NegateProduct((-a) / b, b);
    } else if b < 0 && a >= 0 {
      FloorOfNegative(a, -b);
      NegateProduct(a / -b, -b);
    }
  }

  lemma SignedProducts(c: int, q: int)
    ensures (-c) * (-q) == c * q && c * (-q) == -(c * q) && (-c) * q == -(c * q)
  {
  }

  /** Divisor times quotient, by the signs of both. */
  lemma TruncProduct(a: int, b: int, m: int, c: int)
    requires b != 0 && m == (if a >= 0 then a else 0 - a) && c == (if b > 0 then b else 0 - b)
    ensures b * TruncDiv(a, b) == if a >= 0 then c * (m / c) else -(c * (m / c))
  {
    var q := m / c;
    var t := TruncDiv(a, b);
    SignedProducts(c, q);
    assert t == (if (a >= 0) == (b > 0) then q else -q);
    assert b == (if b > 0 then c else -c);
  }

  /** The remainder of a truncated division is smaller than the divisor and has the dividend's sign. */
  lemma TruncRemainder(a: int, b: int)
    requires b != 0
    ensures var r := a - b * TruncDiv(a, b);
            && -r < (if b > 0 then b else -b) && r < (if b > 0 then b else -b)
            && (a >= 0 ==> r >= 0) && (a <= 0 ==> r <= 0)
  {
    hide TruncDiv;
    var (m, c) := (if a >= 0 then a else 0 - a, if b > 0 then b else 0 - b);
    TruncProduct(a, b, m, c);
    assert m == c * (m / c) + m % c;
  }

  lemma QuotientBound(m: int, c: int)
    requires m >= 0 && c > 0
    ensures 0 <= m / c <= m
  {
    assert m == c * (m / c) + m % c;
    if m / c >= 1 {
      AtLeast(m / c, c);
    }
  }

  lemma TruncBound(a: int, b: int)
    requires b != 0
    ensures var m := if a >= 0 then a else -a;
            && -m <= TruncDiv(a, b) <= m && ((a < 0) != (b < 0) ==> TruncDiv(a, b) <= 0)
  {
    QuotientBound(if a >= 0 then a else -a, if b >= 0 then b else -b);
  }

  lemma WrapId(x: int)
    requires -TWO_63 <= x < TWO_63
    ensures Wrap(x) == x
  {
  }

  lemma FoldIDivIsFloor(a: Int64, b: Int64)
    requires b != 0
    ensures FoldIntOp(IDiv, a, b) == Some(Wrap(FloorDiv(a, b)))
  {
    var t := TruncDiv(a, b);
    FloorIsTruncFixed(a, b);
    if (a < 0) != (b < 0) {
      TruncRemainder(a, b);
      TruncBound(a, b);
      assert t * b == b * t;
      WrapId(t);
      WrapId(t * b);
    }
  }

  lemma FoldModIsFloor(a: Int64, b: Int64)
    requires b != 0
    ensures FoldIntOp(Mod, a, b) == Some(Wrap(FloorMod(a, b)))
  {
    var t := TruncDiv(a, b);
    FloorIsTruncFixed(a, b);
    TruncRemainder(a, b);
    FoldModStep(a, b, t, b * t, FloorDiv(a, b));
  }

  /** The remainder corrected by one divisor is the remainder of the corrected quotient. */
  lemma FoldModStep(a: Int64, b: Int64, t: int, p: int, f: int)
    requires b != 0 && p == b * t && f == t - (if (a < 0) != (b < 0) && t * b != a then 1 else 0)
    requires var r := a - p; -r < (if b > 0 then b else 0 - b) && r < (if b > 0 then b else 0 - b) && (a >= 0 ==> r >= 0) && (a <= 0 ==> r <= 0)
    ensures var r := Wrap(a - p);
            (if r != 0 && (r < 0) != (b < 0) then Wrap(r + b) else r) == Wrap(a - b * f)
  {
    assert t * b == p;
    assert b * (t - 1) == p - b;
    WrapId(a - p);
  }

  /** The compile-time fold computes the operator of the language, including its refusal at zero. */
  lemma FoldIsArith(op: BinOp, a: Int64, b: Int64)
    requires IsArith(op)
    ensures FoldIntOp(op, a, b) == IntArith(op, a, b)
  {
    if op.IDiv? && b != 0 {
      FoldIDivIsFloor(a, b);
    } else if op.Mod? && b != 0 {
      FoldModIsFloor(a, b);
    }
  }

  /** An expression that folds evaluates to the folded integer in every store, asking nothing. */
  lemma {:induction false} FoldSound(o: Oracle, st: Store, log: Log, e: Expr)
    requires NumericValue(e).Some?
    ensures Eval(o, st, log, e) == Val(log, Int(NumericValue(e).value))
  {
    match e
    case IntE(_) =>
    case Bin(op, l, r) =>
      FoldSound(o, st, log, l);
      FoldSound(o, st, log, r);
      assert FoldIntOp(op, NumericValue(l).value, NumericValue(r).value).Some?;
      FoldIsArith(op, NumericValue(l).value, NumericValue(r).value);
    case Un(op, x) =>
      FoldSound(o, st, log, x);
  }
}
