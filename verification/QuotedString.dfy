/**
 The %q form of a byte string: what is written for each byte, and how many
 bytes that takes.
*/
module QuotedString {

  type Byte = x: int | 0 <= x < 256

  const LF: Byte := 10
  const QUOTE: Byte := 34
  const ZERO: Byte := 48
  const BACKSLASH: Byte := 92

  predicate IsDigit(c: int) {
    48 <= c <= 57
  }

  predicate IsControl(c: Byte) {
    c < 0x20 || c == 0x7f
  }

  /** The decimal digits of a byte without leading zeros. */
  function Decimal(c: Byte): seq<Byte> {
    if c >= 100 then Padded(c) else if c >= 10 then [ZERO + c / 10, ZERO + c % 10] else [ZERO + c]
  }

  /** Three decimal digits. */
  function Padded(c: Byte): seq<Byte> {
    [ZERO + c / 100, ZERO + c / 10 % 10, ZERO + c % 10]
  }

  predicate DigitAt(s: seq<Byte>, i: nat) {
    i < |s| && IsDigit(s[i])
  }

  /** What is written for byte i of s. */
  function QuotedByte(s: seq<Byte>, i: nat): (q: seq<Byte>)
    requires i < |s|
    ensures |q| > 0
  {
    var c := s[i];
    if c == QUOTE || c == BACKSLASH then [BACKSLASH, c]
    else if c == LF then [BACKSLASH, LF]
    else if IsControl(c) then [BACKSLASH] + if DigitAt(s, i + 1) then Padded(c) else Decimal(c)
    else [c]
  }

  /** The bytes from i on, without the delimiters. */
  function QuotedFrom(s: seq<Byte>, i: nat): seq<Byte>
    requires i <= |s|
    decreases |s| - i
  {
    if i == |s| then [] else QuotedByte(s, i) + QuotedFrom(s, i + 1)
  }

  function Quoted(s: seq<Byte>): seq<Byte> {
    [QUOTE] + QuotedFrom(s, 0) + [QUOTE]
  }

  /** quotedByteLen. */
  function QuotedByteLen(s: seq<Byte>, i: nat): (n: nat)
    requires i < |s|
    ensures n == |QuotedByte(s, i)|
  {
    var c := s[i];
    if c == QUOTE || c == BACKSLASH || c == LF then 2
    else if IsControl(c) then
      if DigitAt(s, i + 1) then 4 else if c >= 100 then 4 else if c >= 10 then 3 else 2
    else 1
  }

  /** The first i bytes are written; only the rest is still to come. */
  lemma QuotedStep(s: seq<Byte>, i: nat, q: seq<Byte>)
    requires i < |s| && q + QuotedFrom(s, i) == QuotedFrom(s, 0)
    ensures (q + QuotedByte(s, i)) + QuotedFrom(s, i + 1) == QuotedFrom(s, 0)
  {
    var a, b := QuotedByte(s, i), QuotedFrom(s, i + 1);
    assert q + (a + b) == (q + a) + b;
  }

  /**
   The string branch of appendQuoted: the size is measured first and reserved,
   then the text is built; the reserved size is the size of the text.
  */
  method AppendQuoted(s: seq<Byte>) returns (q: seq<Byte>, size: nat)
    ensures q == Quoted(s) && size == |q|
  {
    hide QuotedByte;
    size := 2;
    var i := 0;
    while i < |s|
      invariant i <= |s| && size + |QuotedFrom(s, i)| == 2 + |QuotedFrom(s, 0)|
    {
      size := size + QuotedByteLen(s, i);
      i := i + 1;
    }
    q := [QUOTE];
    i := 0;
    ghost var done: seq<Byte> := [];
    assert done + QuotedFrom(s, 0) == QuotedFrom(s, 0);
    while i < |s|
      invariant i <= |s| && q == [QUOTE] + done && done + QuotedFrom(s, i) == QuotedFrom(s, 0)
    {
      QuotedStep(s, i, done);
      done := done + QuotedByte(s, i);
      q := q + QuotedByte(s, i);
      i := i + 1;
    }
    q := q + [QUOTE];
  }
}
