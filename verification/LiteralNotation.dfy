/**
 Short string literals as Lua's notation has them, told by the characters
 written, the sizes of numbers and the layout of UTF-8: what each escape denotes,
 that the lexer reads exactly these, and that it accepts exactly the literals
 made of them.
*/
module LiteralNotation {
  import opened QuotedString
  import opened StringScan

  // -- characters and numbers -----------------------------------------------------------

  predicate Is(c: int, ch: char) {
    c == ch as int
  }

  /** The letters that stand for a control byte, and the marks that stand for themselves. */
  predicate Named(c: int, b: int) {
    || (Is(c, 'a') && b == 7) || (Is(c, 'b') && b == 8) || (Is(c, 't') && b == 9) || (Is(c, 'n') && b == 10)
    || (Is(c, 'v') && b == 11) || (Is(c, 'f') && b == 12) || (Is(c, 'r') && b == 13)
    || (Is(c, '\\') && b == c) || (Is(c, '\'') && b == c) || (Is(c, '\"') && b == c)
  }

  predicate Break(c: int) {
    Is(c, '\n') || Is(c, '\r')
  }

  predicate Space(c: int) {
    Is(c, ' ') || Is(c, '\t') || Break(c) || c == 11 || c == 12
  }

  predicate Digit(c: int) {
    '0' as int <= c <= '9' as int
  }

  predicate HexDigit(c: int) {
    Digit(c) || 'a' as int <= c <= 'f' as int || 'A' as int <= c <= 'F' as int
  }

  /** The worth of a digit: its place among the digits. */
  function Worth(c: int): int {
    if c >= 'a' as int then Over(c, 'a' as int) + 10 else if c >= 'A' as int then Over(c, 'A' as int) + 10 else Over(c, '0' as int)
  }

  /** The number a row of digits stands for in a base. */
  function Number(t: seq<Byte>, base: int): int {
    if t == [] then 0 else base * Number(t[..|t| - 1], base) + Worth(t[|t| - 1])
  }

  function Over(b: int, from: int): int {
    b - from
  }

  /** A first piece h, and six more bits from each byte of t. */
  function Bits(h: int, t: seq<Byte>): int {
    if t == [] then h else 64 * Bits(h, t[..|t| - 1]) + Over(t[|t| - 1], 0x80)
  }

  /** The first of n bytes begins with as many ones as there are bytes, when there are several. */
  predicate Leads(b: int, n: nat, h: int) {
    match n
    case 1 => 0 <= b <= 0x7F && h == b
    case 2 => 0xC0 <= b <= 0xDF && h == b - 0xC0
    case 3 => 0xE0 <= b <= 0xEF && h == b - 0xE0
    case 4 => 0xF0 <= b <= 0xF7 && h == b - 0xF0
    case 5 => 0xF8 <= b <= 0xFB && h == b - 0xF8
    case 6 => 0xFC <= b <= 0xFD && h == b - 0xFC
    case _ => false
  }

  /** The least number that needs n bytes. */
  function Least(n: nat): int {
    match n case 2 => 0x80 case 3 => 0x800 case 4 => 0x1_0000 case 5 => 0x20_0000 case 6 => 0x400_0000 case _ => 0
  }

  predicate Follow(t: seq<Byte>) {
    forall k :: 0 <= k < |t| ==> 0x80 <= t[k] <= 0xBF
  }

  /** The shortest row of bytes that encodes c, six bits to each byte after the first. */
  predicate Utf8(v: seq<Byte>, c: int) {
    |v| > 0 && Follow(v[1..]) && c >= Least(|v|) && exists h | 0 <= h < 0x80 :: Leads(v[0], |v|, h) && c == Bits(h, v[1..])
  }

  /** Line breaks in a text; two different break characters are one. */
  function Breaks(t: seq<Byte>): nat {
    if t == [] then 0
    else if !Break(t[0]) then Breaks(t[1..])
    else if |t| > 1 && Break(t[1]) && t[0] != t[1] then 1 + Breaks(t[2..])
    else 1 + Breaks(t[1..])
  }

  // -- escapes --------------------------------------------------------------------------

  predicate NamedAt(s: seq<Byte>, p: nat, q: nat, v: seq<Byte>) {
    p < |s| && q == p + 1 && |v| == 1 && Named(s[p], v[0])
  }

  predicate HexAt(s: seq<Byte>, p: nat, q: nat, v: seq<Byte>) {
    q == p + 3 && q <= |s| && Is(s[p], 'x') && HexDigit(s[p + 1]) && HexDigit(s[p + 2]) && |v| == 1 && v[0] == Number(s[p + 1..p + 3], 16)
  }

  /** One to three digits, as many as there are. */
  predicate DecimalAt(s: seq<Byte>, p: nat, q: nat, v: seq<Byte>) {
    && p < q <= |s| && q <= p + 3 && (forall k :: p <= k < q ==> Digit(s[k])) && (q < p + 3 && q < |s| ==> !Digit(s[q]))
    && |v| == 1 && v[0] == Number(s[p..q], 10)
  }

  predicate Hexes(s: seq<Byte>, a: nat, b: nat) {
    b <= |s| && forall k :: a <= k < b ==> HexDigit(s[k])
  }

  predicate CodeAt(s: seq<Byte>, p: nat, q: nat, v: seq<Byte>) {
    && p + 4 <= q <= |s| && Is(s[p], 'u') && Is(s[p + 1], '{') && Is(s[q - 1], '}') && Hexes(s, p + 2, q - 1)
    && Number(s[p + 2..q - 1], 16) < 0x8000_0000 && Utf8(v, Number(s[p + 2..q - 1], 16))
  }

  /** Nothing, for all the white space that follows. */
  predicate SkipAt(s: seq<Byte>, p: nat, q: nat, v: seq<Byte>) {
    p < q <= |s| && Is(s[p], 'z') && (forall k :: p < k < q ==> Space(s[k])) && (q < |s| ==> !Space(s[q])) && v == []
  }

  predicate BreakAt(s: seq<Byte>, p: nat, q: nat, v: seq<Byte>) {
    p < |s| && Break(s[p]) && v == [10] && q == if p + 1 < |s| && Break(s[p + 1]) && s[p] != s[p + 1] then p + 2 else p + 1
  }

  /** What stands between a backslash just before p and q is an escape that denotes the bytes v. */
  predicate Denotes(s: seq<Byte>, p: nat, q: nat, v: seq<Byte>) {
    NamedAt(s, p, q, v) || HexAt(s, p, q, v) || DecimalAt(s, p, q, v) || CodeAt(s, p, q, v) || SkipAt(s, p, q, v) || BreakAt(s, p, q, v)
  }

  /** What the lexer makes of an escape: those bytes, with the lines counted, unless there are too many. */
  predicate Taken(s: seq<Byte>, p: nat, q: nat, v: seq<Byte>, line: nat, r: Escape) {
    p <= q <= |s| &&
    var n := Breaks(s[p..q]);
    if n == 0 || line + n < 0x7FFF_FFFF then r.Char? && CharOk(r.ch, r.wide) && Written(r.ch, r.wide) == v && r.next == q && r.line == line + n
    else r.Bad? && r.e == TooManyLines
  }

  // -- numbers are read as they are written ------------------------------------------------

  lemma Hex(c: int)
    ensures HexVal(c) == if HexDigit(c) then Worth(c) else -1
  {
  }

  lemma {:induction false} NumberMore(s: seq<Byte>, a: nat, p: nat, base: int)
    requires a <= p < |s|
    ensures Number(s[a..p + 1], base) == base * Number(s[a..p], base) + Worth(s[p])
  {
    var t := s[a..p + 1];
    assert t[..|t| - 1] == s[a..p] && t[|t| - 1] == s[p];
  }

  lemma {:induction false} NumberNone(s: seq<Byte>, a: nat, base: int)
    requires a <= |s|
    ensures Number(s[a..a], base) == 0
  {
  }

  lemma {:induction false} NumberGrows(s: seq<Byte>, a: nat, p: nat, q: nat)
    requires a <= p <= q <= |s| && Hexes(s, p, q) && Number(s[a..p], 16) >= 0
    ensures Number(s[a..q], 16) >= Number(s[a..p], 16)
  {
    if p < q {
      NumberMore(s, a, q - 1, 16);
      NumberGrows(s, a, p, q - 1);
    }
  }

  lemma {:induction false} CodeFound(s: seq<Byte>, a: nat, p: nat, line: nat)
    requires a <= p <= |s| && Hexes(s, a, p) && 0 <= Number(s[a..p], 16) <= MAX_CODE
    ensures var r := CodeDigits(s, p, Number(s[a..p], 16), line);
            if r.Char? then p < r.next && s[r.next - 1] == 125 && Hexes(s, a, r.next - 1) && 0 <= r.ch == Number(s[a..r.next - 1], 16) && r.ch <= MAX_CODE && r.wide && r.line == line
            else r.e != TooManyLines
    decreases |s| - p
  {
    Hex(CharAt(s, p));
    if p < |s| && HexDigit(s[p]) {
      NumberMore(s, a, p, 16);
      HexesMore(s, a, p);
      hide Number, HexDigit, Hexes;
      if Number(s[a..p + 1], 16) <= MAX_CODE { CodeFound(s, a, p + 1, line); }
    }
  }

  lemma HexesMore(s: seq<Byte>, a: nat, p: nat)
    requires p < |s| && Hexes(s, a, p) && HexDigit(s[p])
    ensures Hexes(s, a, p + 1)
  {
  }

  lemma {:induction false} CodeRead(s: seq<Byte>, a: nat, p: nat, q: nat, line: nat)
    requires a <= p <= q < |s| && Hexes(s, a, q) && s[q] == 125 && 0 <= Number(s[a..p], 16) && Number(s[a..q], 16) <= MAX_CODE
    ensures Number(s[a..p], 16) <= MAX_CODE
    ensures CodeDigits(s, p, Number(s[a..p], 16), line) == Char(Number(s[a..q], 16), true, q + 1, line)
    decreases q - p
  {
    NumberGrows(s, a, p, q);
    Hex(s[p]);
    if p < q {
      NumberMore(s, a, p, 16);
      NumberGrows(s, a, p + 1, q);
      CodeRead(s, a, p + 1, q, line);
    }
  }

  // -- each kind of escape ----------------------------------------------------------------

  // -- UTF-8 --------------------------------------------------------------------------------

  /** What is left above the last n six-bit pieces of c. */
  function Top(c: int, n: nat): int
    decreases n
  {
    if n == 0 then c else Top(c / 0x40, n - 1)
  }

  lemma {:induction false} TailBits(c: int, n: nat)
    requires c >= 0
    ensures |Tail(c, n)| == n && Follow(Tail(c, n)) && Bits(Top(c, n), Tail(c, n)) == c
  {
    if n > 0 {
      TailBits(c / 0x40, n - 1);
      var t := Tail(c, n);
      assert t[..n - 1] == Tail(c / 0x40, n - 1) && t[n - 1] == 0x80 + c % 0x40;
    }
  }

  lemma {:induction false} EncodedIn(c: int, n: nat, b: Byte)
    requires 0 <= c && c >= Least(n + 1) && n < 6 && Leads(b, n + 1, Top(c, n)) && 0 <= Top(c, n) < 0x80
    ensures Utf8([b] + Tail(c, n), c)
  {
    TailBits(c, n);
    hide Tail, Bits, Top, Follow;
    var v := [b] + Tail(c, n);
    assert v[1..] == Tail(c, n);
  }

  lemma EncodedShort(c: int)
    requires 0 <= c <= 0xFFFF
    ensures Utf8(ExtendedUtf8(c), c)
  {
    hide Tail, Top, Utf8;
    Tops(c, if c <= 0x7F then 0 else if c <= 0x7FF then 1 else 2);
    if c <= 0x7F {
      EncodedIn(c, 0, c);
      NoTail(c);
    } else if c <= 0x7FF {
      EncodedIn(c, 1, 0xC0 + c / 0x40);
    } else {
      EncodedIn(c, 2, 0xE0 + c / 0x1000);
    }
  }

  lemma EncodedLong(c: int)
    requires 0xFFFF < c <= MAX_CODE
    ensures Utf8(ExtendedUtf8(c), c)
  {
    hide Tail, Top, Utf8;
    Tops(c, if c <= 0x1F_FFFF then 3 else if c <= 0x3FF_FFFF then 4 else 5);
    if c <= 0x1F_FFFF {
      EncodedIn(c, 3, 0xF0 + c / 0x4_0000);
    } else if c <= 0x3FF_FFFF {
      EncodedIn(c, 4, 0xF8 + c / 0x100_0000);
    } else {
      EncodedIn(c, 5, 0xFC + c / 0x4000_0000);
    }
  }

  lemma Encoded(c: int)
    requires 0 <= c <= MAX_CODE
    ensures Utf8(ExtendedUtf8(c), c)
  {
    hide ExtendedUtf8, Utf8;
    if c <= 0xFFFF { EncodedShort(c); } else { EncodedLong(c); }
  }

  lemma {:induction false} NoTail(c: Byte)
    ensures [c] + Tail(c, 0) == [c]
  {
  }

  lemma {:induction false} Tops(c: int, n: nat)
    requires 0 <= c && n <= 5
    ensures Top(c, n) == match n case 0 => c case 1 => c / 0x40 case 2 => c / 0x1000 case 3 => c / 0x4_0000 case 4 => c / 0x100_0000 case _ => c / 0x4000_0000
  {
    if n > 0 { Tops(c / 0x40, n - 1); }
  }

  lemma {:induction false} BitsUnique(h: int, t: seq<Byte>, k: int, u: seq<Byte>)
    requires |t| == |u| && Follow(t) && Follow(u) && Bits(h, t) == Bits(k, u)
    ensures h == k && t == u
  {
    if t != [] {
      var n := |t| - 1;
      FollowInit(t);
      FollowInit(u);
      Remainders(Bits(h, t[..n]), Bits(k, u[..n]), Over(t[n], 0x80), Over(u[n], 0x80));
      hide Bits, Follow;
      BitsUnique(h, t[..n], k, u[..n]);
      assert t == t[..n] + [t[n]] && u == u[..n] + [u[n]];
    }
  }

  lemma FollowInit(t: seq<Byte>)
    requires t != [] && Follow(t)
    ensures 0x80 <= t[|t| - 1] <= 0xBF && Follow(t[..|t| - 1])
  {
  }

  lemma Remainders(a: int, b: int, x: int, y: int)
    requires 64 * a + x == 64 * b + y && 0 <= x < 64 && 0 <= y < 64
    ensures a == b && x == y
  {
  }

  function Pow64(n: nat): int {
    if n == 0 then 1 else 64 * Pow64(n - 1)
  }

  lemma {:induction false} BitsBelow(h: int, t: seq<Byte>)
    requires h >= 0 && Follow(t)
    ensures 0 <= Bits(h, t) < (h + 1) * Pow64(|t|)
  {
    if t != [] {
      var n := |t| - 1;
      assert 0x80 <= t[n] <= 0xBF;
      BitsBelow(h, t[..n]);
      assert (h + 1) * Pow64(n + 1) == 64 * ((h + 1) * Pow64(n));
    }
  }

  /** A row of n bytes encodes numbers below the least of the next length. */
  lemma Below(v: seq<Byte>, c: int)
    requires Utf8(v, c)
    ensures |v| <= 6 && c < if |v| == 6 then 0x8000_0000 else Least(|v| + 1)
  {
    var h :| 0 <= h < 0x80 && Leads(v[0], |v|, h) && c == Bits(h, v[1..]);
    BitsBelow(h, v[1..]);
    assert Pow64(0) == 1 && Pow64(1) == 0x40 && Pow64(2) == 0x1000 && Pow64(3) == 0x4_0000 && Pow64(4) == 0x100_0000 && Pow64(5) == 0x4000_0000;
  }

  /** No number is encoded in two ways. */
  lemma EncodingIsUnique(v: seq<Byte>, w: seq<Byte>, c: int)
    requires Utf8(v, c) && Utf8(w, c)
    ensures v == w
  {
    Below(v, c);
    Below(w, c);
    var h :| 0 <= h < 0x80 && Leads(v[0], |v|, h) && c == Bits(h, v[1..]);
    var k :| 0 <= k < 0x80 && Leads(w[0], |w|, k) && c == Bits(k, w[1..]);
    assert |v| == |w|;
    BitsUnique(h, v[1..], k, w[1..]);
    assert v == [v[0]] + v[1..] && w == [w[0]] + w[1..];
  }

  // -- each kind of escape ----------------------------------------------------------------

  lemma NamedMeans(c: int)
    ensures SimpleEscape(c) >= 0 ==> Named(c, SimpleEscape(c))
    ensures forall b :: b >= 0 && Named(c, b) ==> SimpleEscape(c) == b
    ensures SimpleEscape(c) >= 0 ==> !Digit(c) && !Break(c) && !Is(c, 'x') && !Is(c, 'u') && !Is(c, 'z') && 0 <= SimpleEscape(c) < 256
  {
  }

  lemma HexMeans(s: seq<Byte>, p: nat, line: nat)
    requires p < |s| && Is(s[p], 'x')
    ensures var r := HexEscape(s, p + 1, line);
            if r.Char? then HexAt(s, p, r.next, Written(r.ch, r.wide)) && r.line == line
            else r.e != TooManyLines && forall q, v :: !HexAt(s, p, q, v)
  {
    Hex(CharAt(s, p + 1));
    Hex(CharAt(s, p + 2));
    if p + 3 <= |s| {
      NumberNone(s, p + 1, 16);
      NumberMore(s, p + 1, p + 1, 16);
      NumberMore(s, p + 1, p + 2, 16);
    }
  }

  lemma CodeMeans(s: seq<Byte>, p: nat, line: nat)
    requires p < |s| && Is(s[p], 'u')
    ensures var r := CodeEscape(s, p + 1, line);
            if r.Char? then CodeAt(s, p, r.next, Written(r.ch, r.wide)) && r.line == line else r.e != TooManyLines
  {
    Hex(CharAt(s, p + 2));
    hide Number, Utf8, CodeDigits, CodeAt, ExtendedUtf8, HexDigit, HexVal, Hexes;
    if CharAt(s, p + 1) == 123 && HexDigit(CharAt(s, p + 2)) {
      FirstDigit(s, p + 2);
      CodeEnds(s, p, line);
    }
  }

  lemma CodeEnds(s: seq<Byte>, p: nat, line: nat)
    requires p + 2 < |s| && Is(s[p], 'u') && s[p + 1] == 123 && Hexes(s, p + 2, p + 3) && 0 <= Number(s[p + 2..p + 3], 16) <= MAX_CODE
    ensures var r := CodeDigits(s, p + 3, Number(s[p + 2..p + 3], 16), line);
            if r.Char? then r.wide && 0 <= r.ch <= MAX_CODE && CodeAt(s, p, r.next, ExtendedUtf8(r.ch)) && r.line == line else r.e != TooManyLines
  {
    hide Number, Utf8, CodeDigits, CodeAt, ExtendedUtf8, Hexes;
    CodeFound(s, p + 2, p + 3, line);
    var r := CodeDigits(s, p + 3, Number(s[p + 2..p + 3], 16), line);
    if r.Char? { CodeThere(s, p, r.next, r.ch); }
  }

  lemma CodeThere(s: seq<Byte>, p: nat, q: nat, c: int)
    requires p + 3 < q <= |s| && Is(s[p], 'u') && s[p + 1] == 123 && s[q - 1] == 125 && Hexes(s, p + 2, q - 1)
    requires 0 <= c <= MAX_CODE && c == Number(s[p + 2..q - 1], 16)
    ensures CodeAt(s, p, q, ExtendedUtf8(c))
  {
    Encoded(c);
    hide Utf8, ExtendedUtf8, Number;
  }

  lemma FirstDigit(s: seq<Byte>, p: nat)
    requires p < |s| && HexDigit(s[p])
    ensures Number(s[p..p + 1], 16) == HexVal(s[p]) && 0 <= HexVal(s[p]) < 16 && Hexes(s, p, p + 1)
  {
    Hex(s[p]);
    NumberNone(s, p, 16);
    NumberMore(s, p, p, 16);
  }

  lemma CodeMeant(s: seq<Byte>, p: nat, q: nat, v: seq<Byte>, line: nat)
    requires CodeAt(s, p, q, v)
    ensures CodeEscape(s, p + 1, line) == Char(Number(s[p + 2..q - 1], 16), true, q, line) && ExtendedUtf8(Number(s[p + 2..q - 1], 16)) == v
  {
    var c := Number(s[p + 2..q - 1], 16);
    assert HexDigit(s[p + 2]);
    Hex(s[p + 2]);
    NumberNone(s, p + 2, 16);
    NumberMore(s, p + 2, p + 2, 16);
    CodeRead(s, p + 2, p + 3, q - 1, line);
    NumberGrows(s, p + 2, p + 2, q - 1);
    Encoded(c);
    EncodingIsUnique(v, ExtendedUtf8(c), c);
  }

  lemma DecimalMeans(s: seq<Byte>, p: nat, line: nat)
    requires p < |s| && Digit(s[p])
    ensures var r := DecimalEscape(s, p, line);
            if r.Char? then DecimalAt(s, p, r.next, Written(r.ch, r.wide)) && r.line == line
            else r.e == DecimalTooLarge && forall q, v :: !DecimalAt(s, p, q, v)
    ensures forall q, v :: DecimalAt(s, p, q, v) ==> q == DecimalEscape(s, p, line).next
  {
    DecimalSteps(s, p);
    var n := p + Run(s, p);
    DecimalNumber(s, p);
    forall q: nat, v | DecimalAt(s, p, q, v) ensures q == n { DecimalOnly(s, p, q, v); }
    hide Number, Run, Digits;
  }

  lemma DecimalOnly(s: seq<Byte>, p: nat, q: nat, v: seq<Byte>)
    requires DecimalAt(s, p, q, v)
    ensures q == p + Run(s, p)
  {
    assert q > p + 1 ==> Digit(s[p + 1]);
    assert q > p + 2 ==> Digit(s[p + 2]);
  }

  lemma DecimalNumber(s: seq<Byte>, p: nat)
    requires p < |s| && p + Run(s, p) <= |s|
    ensures var a, b, c := Worth(s[p]), Worth(CharAt(s, p + 1)), Worth(CharAt(s, p + 2));
            Number(s[p..p + Run(s, p)], 10) == if Run(s, p) == 1 then a else if Run(s, p) == 2 then 10 * a + b else 10 * (10 * a + b) + c
  {
    NumberNone(s, p, 10);
    NumberMore(s, p, p, 10);
    if p + 1 < |s| { NumberMore(s, p, p + 1, 10); }
    if p + 2 < |s| { NumberMore(s, p, p + 2, 10); }
  }

  /** How many digits of an escape there are. */
  function Run(s: seq<Byte>, p: nat): nat {
    if !DigitAt(s, p + 1) then 1 else if !DigitAt(s, p + 2) then 2 else 3
  }

  lemma {:induction false} DecimalSteps(s: seq<Byte>, p: nat)
    requires p < |s| && Digit(s[p])
    ensures p + Run(s, p) <= |s| && forall k :: p <= k < p + Run(s, p) ==> Digit(s[k])
    ensures var a, b, c := Worth(s[p]), Worth(CharAt(s, p + 1)), Worth(CharAt(s, p + 2));
            Digits(s, p + 1, s[p] - ZERO, 2) == (if Run(s, p) == 1 then a else if Run(s, p) == 2 then 10 * a + b else 10 * (10 * a + b) + c, p + Run(s, p))
  {
  }

  lemma {:induction false} NoBreaks(t: seq<Byte>)
    requires forall k :: 0 <= k < |t| ==> !Break(t[k])
    ensures Breaks(t) == 0
  {
    if t != [] { NoBreaks(t[1..]); }
  }

  predicate Spaces(s: seq<Byte>, p: nat, q: nat) {
    p <= q <= |s| && (forall k :: p <= k < q ==> Space(s[k])) && (q < |s| ==> !Space(s[q]))
  }

  lemma {:induction false} SpacesEnd(s: seq<Byte>, p: nat) returns (q: nat)
    requires p <= |s|
    ensures Spaces(s, p, q)
    decreases |s| - p
  {
    q := p;
    if p < |s| && Space(s[p]) { q := SpacesEnd(s, p + 1); }
  }

  /** The white space is passed, and its lines counted. */
  lemma {:induction false} SpacesRead(s: seq<Byte>, p: nat, q: nat, line: nat)
    requires Spaces(s, p, q)
    ensures var (r, n) := (SpaceEscape(s, p, line), Breaks(s[p..q]));
            if n == 0 || line + n < 0x7FFF_FFFF then r == Char(SKIP, false, q, line + n) else r.Bad? && r.e == TooManyLines
    decreases q - p
  {
    if p < q {
      var t := s[p..q];
      assert t[0] == s[p] && t[1..] == s[p + 1..q];
      if Break(s[p]) {
        var m := AfterBreak(s, p);
        assert m == p + 2 ==> Space(s[p + 1]);
        assert m == p + 2 ==> t[1] == s[p + 1] && t[2..] == s[p + 2..q];
        assert Breaks(t) == 1 + Breaks(s[m..q]);
        if line + 1 < MAX_LINES { SpacesRead(s, m, q, line + 1); }
      } else {
        SpacesRead(s, p + 1, q, line);
      }
    }
  }

  lemma SkipMeant(s: seq<Byte>, p: nat, q: nat, line: nat)
    requires SkipAt(s, p, q, [])
    ensures Taken(s, p, q, [], line, SpaceEscape(s, p + 1, line))
  {
    SpacesRead(s, p + 1, q, line);
    assert s[p..q][0] == s[p] && s[p..q][1..] == s[p + 1..q];
  }

  lemma BreakMeant(s: seq<Byte>, p: nat, q: nat, line: nat)
    requires BreakAt(s, p, q, [10])
    ensures Taken(s, p, q, [10], line, BreakEscape(s, p, 10, line))
  {
    var t := s[p..q];
    assert t[0] == s[p] && (q == p + 2 ==> t[1] == s[p + 1]);
    assert t[1..] == s[p + 1..q] && (q == p + 2 ==> t[2..] == []);
    assert q == p + 1 ==> t == [s[p]];
  }

  /** On one line, nothing but the bytes matters. */
  lemma OneLine(s: seq<Byte>, p: nat, q: nat, v: seq<Byte>, line: nat, r: Escape)
    requires p <= q <= |s| && (forall k :: p <= k < q ==> !Break(s[k]))
    requires r.Char? && CharOk(r.ch, r.wide) && Written(r.ch, r.wide) == v && r.next == q && r.line == line
    ensures Taken(s, p, q, v, line, r)
  {
    NoBreaks(s[p..q]);
  }

  lemma NamedTaken(s: seq<Byte>, p: nat, q: nat, v: seq<Byte>, line: nat)
    requires NamedAt(s, p, q, v)
    ensures Taken(s, p, q, v, line, EscapeAt(s, p, line))
  {
    NamedMeans(s[p]);
    hide CodeEscape, HexEscape, DecimalEscape, SpaceEscape, Taken;
    assert !Break(s[p]);
    OneLine(s, p, q, v, line, EscapeAt(s, p, line));
  }

  lemma HexTaken(s: seq<Byte>, p: nat, q: nat, v: seq<Byte>, line: nat)
    requires HexAt(s, p, q, v)
    ensures Taken(s, p, q, v, line, EscapeAt(s, p, line))
  {
    HexMeans(s, p, line);
    NamedMeans(s[p]);
    hide HexEscape, CodeEscape, DecimalEscape, SpaceEscape, Taken, Number;
    OneLine(s, p, q, v, line, EscapeAt(s, p, line));
  }

  lemma DecimalTaken(s: seq<Byte>, p: nat, q: nat, v: seq<Byte>, line: nat)
    requires DecimalAt(s, p, q, v)
    ensures Taken(s, p, q, v, line, EscapeAt(s, p, line))
  {
    assert Digit(s[p]);
    DecimalMeans(s, p, line);
    NamedMeans(s[p]);
    hide HexEscape, CodeEscape, DecimalEscape, SpaceEscape, Taken, Number;
    OneLine(s, p, q, v, line, EscapeAt(s, p, line));
  }

  lemma CodeTaken(s: seq<Byte>, p: nat, q: nat, v: seq<Byte>, line: nat)
    requires CodeAt(s, p, q, v)
    ensures Taken(s, p, q, v, line, EscapeAt(s, p, line))
  {
    CodeMeant(s, p, q, v, line);
    CodeInRange(s, p, q, v);
    NamedMeans(s[p]);
    hide HexEscape, CodeEscape, DecimalEscape, SpaceEscape, Taken, Number, ExtendedUtf8, Utf8;
    OneLine(s, p, q, v, line, EscapeAt(s, p, line));
  }

  lemma CodeInRange(s: seq<Byte>, p: nat, q: nat, v: seq<Byte>)
    requires CodeAt(s, p, q, v)
    ensures 0 <= Number(s[p + 2..q - 1], 16) <= MAX_CODE
  {
    NumberNone(s, p + 2, 16);
    NumberGrows(s, p + 2, p + 2, q - 1);
  }

  /** Every escape of the notation is read as the bytes it denotes. */
  lemma EscapeTaken(s: seq<Byte>, p: nat, q: nat, v: seq<Byte>, line: nat)
    requires Denotes(s, p, q, v)
    ensures Taken(s, p, q, v, line, EscapeAt(s, p, line))
  {
    NamedMeans(s[p]);
    hide HexAt, CodeAt, DecimalAt, CodeEscape, HexEscape, DecimalEscape, SpaceEscape, Taken;
    if SkipAt(s, p, q, v) {
      SkipMeant(s, p, q, line);
    } else if BreakAt(s, p, q, v) {
      BreakMeant(s, p, q, line);
    } else if NamedAt(s, p, q, v) {
      NamedTaken(s, p, q, v, line);
    } else if HexAt(s, p, q, v) {
      HexTaken(s, p, q, v, line);
    } else if DecimalAt(s, p, q, v) {
      DecimalTaken(s, p, q, v, line);
    } else {
      CodeTaken(s, p, q, v, line);
    }
  }

  /** And nothing else is read as an escape. */
  lemma EscapeMeans(s: seq<Byte>, p: nat, line: nat)
    requires p <= |s| && EscapeAt(s, p, line).Char?
    ensures var r := EscapeAt(s, p, line); Denotes(s, p, r.next, Written(r.ch, r.wide))
  {
    var c := CharAt(s, p);
    NamedMeans(c);
    hide Number, Breaks, Utf8, CodeDigits, Digits, HexVal;
    if SimpleEscape(c) < 0 && !IsNewline(c) {
      if c == 120 { HexMeans(s, p, line); hide HexEscape; }
      else if c == 117 { CodeMeans(s, p, line); }
      else if c == 122 {
        var q := SpacesEnd(s, p + 1);
        SpacesRead(s, p + 1, q, line);
        assert SkipAt(s, p, q, []);
      } else { DecimalMeans(s, p, line); }
    }
  }

  // -- whole literals ---------------------------------------------------------------------

  /** From p on there is the rest of a literal, its closing delimiter just before q, with the value v. */
  ghost predicate Body(s: seq<Byte>, p: nat, delim: Byte, q: nat, v: seq<Byte>)
    decreases |s| - p
  {
    p < |s| &&
    if s[p] == delim then q == p + 1 && v == []
    else if Is(s[p], '\\') then exists m: nat, w: seq<Byte> | p + 1 < m <= |s| && Denotes(s, p + 1, m, w) :: w <= v && Body(s, m, delim, q, v[|w|..])
    else !Break(s[p]) && v != [] && v[0] == s[p] && Body(s, p + 1, delim, q, v[1..])
  }

  lemma {:induction false} BodyInside(s: seq<Byte>, p: nat, delim: Byte, q: nat, v: seq<Byte>)
    requires Body(s, p, delim, q, v)
    ensures p < q <= |s|
    decreases |s| - p
  {
    if s[p] != delim {
      if Is(s[p], '\\') {
        var m: nat, w: seq<Byte> :| p + 1 < m <= |s| && Denotes(s, p + 1, m, w) && w <= v && Body(s, m, delim, q, v[|w|..]);
        BodyInside(s, m, delim, q, v[|w|..]);
      } else {
        BodyInside(s, p + 1, delim, q, v[1..]);
      }
    }
  }

  lemma {:induction false} BreaksSplit(t: seq<Byte>, u: seq<Byte>)
    requires u == [] || !Break(u[0])
    ensures Breaks(t + u) == Breaks(t) + Breaks(u)
    decreases |t|
  {
    if t == [] {
      assert t + u == u;
    } else {
      assert (t + u)[1..] == t[1..] + u;
      if |t| > 1 && Break(t[0]) && Break(t[1]) && t[0] != t[1] {
        assert (t + u)[2..] == t[2..] + u;
        BreaksSplit(t[2..], u);
      } else {
        BreaksSplit(t[1..], u);
        assert |t| == 1 && u != [] ==> (t + u)[1] == u[0];
      }
    }
  }

  /** The lines of a part that ends at m, before something that is no line break. */
  lemma BreaksCut(s: seq<Byte>, p: nat, m: nat, q: nat)
    requires p <= m <= q <= |s| && (m < q ==> !Break(s[m]))
    ensures Breaks(s[p..q]) == Breaks(s[p..m]) + Breaks(s[m..q])
  {
    assert s[p..q] == s[p..m] + s[m..q];
    BreaksSplit(s[p..m], s[m..q]);
  }

  /** From p on the lexer, with out read so far, adds v and stops at q, unless there are too many lines. */
  predicate ReadsAs(s: seq<Byte>, p: nat, delim: Byte, q: nat, v: seq<Byte>, line: nat, out: seq<Byte>) {
    p < q <= |s| &&
    var (r, n) := (Scan(s, p, delim, line, out, false), Breaks(s[p..q]));
    if n == 0 || line + n < 0x7FFF_FFFF then r == Literal(out + v, q, line + n) else r.Fail? && r.e == TooManyLines
  }

  lemma {:induction false} BodyRead(s: seq<Byte>, p: nat, delim: Byte, q: nat, v: seq<Byte>, line: nat, out: seq<Byte>)
    requires Body(s, p, delim, q, v) && (delim == 34 || delim == 39)
    ensures ReadsAs(s, p, delim, q, v, line, out)
    decreases |s| - p
  {
    hide ReadsAs, Denotes, Breaks, Scan;
    if s[p] == delim {
      EndRead(s, p, delim, line, out);
    } else if Is(s[p], '\\') {
      var m: nat, w: seq<Byte> :| p + 1 < m <= |s| && Denotes(s, p + 1, m, w) && w <= v && Body(s, m, delim, q, v[|w|..]);
      hide Body;
      EscapedBody(s, p, m, w, delim, q, v, line, out);
      var n := Breaks(s[p + 1..m]);
      if n == 0 || line + n < 0x7FFF_FFFF { BodyRead(s, m, delim, q, v[|w|..], line + n, out + w); }
      EscapedRead(s, p, m, w, delim, q, v, line, out);
    } else {
      PlainBody(s, p, delim, q, v, line, out);
      BodyRead(s, p + 1, delim, q, v[1..], line, out + [s[p]]);
      PlainRead(s, p, delim, q, v, line, out);
    }
  }

  lemma {:induction false} EndRead(s: seq<Byte>, p: nat, delim: Byte, line: nat, out: seq<Byte>)
    requires p < |s| && s[p] == delim && (delim == 34 || delim == 39)
    ensures ReadsAs(s, p, delim, p + 1, [], line, out)
  {
    NoBreaks(s[p..p + 1]);
    assert out + [] == out;
  }

  lemma EscapedRead(s: seq<Byte>, p: nat, m: nat, w: seq<Byte>, delim: Byte, q: nat, v: seq<Byte>, line: nat, out: seq<Byte>)
    requires p < m <= q <= |s| && p + 1 <= m && w <= v && Breaks(s[p..q]) == Breaks(s[p + 1..m]) + Breaks(s[m..q])
    requires var (r, n) := (Scan(s, p, delim, line, out, false), Breaks(s[p + 1..m]));
             if n == 0 || line + n < 0x7FFF_FFFF then r == Scan(s, m, delim, line + n, out + w, false) && ReadsAs(s, m, delim, q, v[|w|..], line + n, out + w)
             else r.Fail? && r.e == TooManyLines
    ensures ReadsAs(s, p, delim, q, v, line, out)
  {
    hide Breaks, Scan;
    assert out + w + v[|w|..] == out + v;
  }

  lemma PlainRead(s: seq<Byte>, p: nat, delim: Byte, q: nat, v: seq<Byte>, line: nat, out: seq<Byte>)
    requires v != [] && p + 1 < q <= |s| && Breaks(s[p..q]) == Breaks(s[p + 1..q]) && out + [s[p]] + v[1..] == out + v
    requires Scan(s, p, delim, line, out, false) == Scan(s, p + 1, delim, line, out + [s[p]], false)
    requires ReadsAs(s, p + 1, delim, q, v[1..], line, out + [s[p]])
    ensures ReadsAs(s, p, delim, q, v, line, out)
  {
    hide Breaks, Scan;
  }

  lemma PlainBody(s: seq<Byte>, p: nat, delim: Byte, q: nat, v: seq<Byte>, line: nat, out: seq<Byte>)
    requires Body(s, p, delim, q, v) && (delim == 34 || delim == 39) && s[p] != delim && !Is(s[p], '\\')
    ensures v != [] && p + 1 < q <= |s| && Breaks(s[p..q]) == Breaks(s[p + 1..q])
    ensures out + [s[p]] + v[1..] == out + v && Scan(s, p, delim, line, out, false) == Scan(s, p + 1, delim, line, out + [s[p]], false)
  {
    BodyStart(s, p + 1, delim, q, v[1..]);
    hide EscapeAt, Breaks;
    assert s[p..q] == [s[p]] + s[p + 1..q];
    BreaksOne([s[p]], s[p + 1..q]);
  }

  lemma {:induction false} BodyStart(s: seq<Byte>, p: nat, delim: Byte, q: nat, v: seq<Byte>)
    requires Body(s, p, delim, q, v) && (delim == 34 || delim == 39)
    ensures p < q <= |s| && !Break(s[p])
  {
    BodyInside(s, p, delim, q, v);
  }

  lemma EscapedBody(s: seq<Byte>, p: nat, m: nat, w: seq<Byte>, delim: Byte, q: nat, v: seq<Byte>, line: nat, out: seq<Byte>)
    requires p + 1 < m <= |s| && Is(s[p], '\\') && Denotes(s, p + 1, m, w) && w <= v && Body(s, m, delim, q, v[|w|..]) && (delim == 34 || delim == 39)
    ensures m < q <= |s| && Breaks(s[p..q]) == Breaks(s[p + 1..m]) + Breaks(s[m..q])
    ensures var (r, n) := (Scan(s, p, delim, line, out, false), Breaks(s[p + 1..m]));
            if n == 0 || line + n < 0x7FFF_FFFF then r == Scan(s, m, delim, line + n, out + w, false) else r.Fail? && r.e == TooManyLines
  {
    hide EscapeAt, Denotes, Breaks, Scan, Taken;
    EscapeTaken(s, p + 1, m, w, line);
    BodyStart(s, m, delim, q, v[|w|..]);
    hide Body;
    EscapedLines(s, p, m, q);
    EscapedScan(s, p, m, w, delim, line, out);
  }

  lemma EscapedLines(s: seq<Byte>, p: nat, m: nat, q: nat)
    requires p < m <= q <= |s| && !Break(s[p]) && (m < q ==> !Break(s[m]))
    ensures Breaks(s[p..q]) == Breaks(s[p + 1..m]) + Breaks(s[m..q])
  {
    BreaksCut(s, p, m, q);
    assert s[p..p + 1] + s[p + 1..m] == s[p..m];
    BreaksOne(s[p..p + 1], s[p + 1..m]);
  }

  lemma {:induction false} EscapedScan(s: seq<Byte>, p: nat, m: nat, w: seq<Byte>, delim: Byte, line: nat, out: seq<Byte>)
    requires p < |s| && s[p] == BACKSLASH && s[p] != delim && Taken(s, p + 1, m, w, line, EscapeAt(s, p + 1, line))
    ensures var (r, n) := (Scan(s, p, delim, line, out, false), Breaks(s[p + 1..m]));
            if n == 0 || line + n < 0x7FFF_FFFF then r == Scan(s, m, delim, line + n, out + w, false) else r.Fail? && r.e == TooManyLines
  {
    hide EscapeAt, Breaks;
  }

  lemma {:induction false} BreaksOne(t: seq<Byte>, u: seq<Byte>)
    requires |t| == 1 && !Break(t[0])
    ensures Breaks(t + u) == Breaks(u)
  {
    assert (t + u)[1..] == u;
  }

  /** Once an escape was too large nothing is a literal any more. */
  lemma {:induction false} LateFails(s: seq<Byte>, p: nat, delim: Byte, line: nat, out: seq<Byte>)
    requires p <= |s|
    ensures Scan(s, p, delim, line, out, true).Fail?
    decreases |s| - p
  {
    hide EscapeAt;
    if p < |s| && s[p] != delim && !IsNewline(s[p]) {
      if s[p] == BACKSLASH {
        var e := EscapeAt(s, p + 1, line);
        LateFails(s, e.next, delim, e.line, out);
      } else {
        LateFails(s, p + 1, delim, line, out);
      }
    }
  }

  /** What the lexer accepts from p on is the rest of a literal. */
  ghost predicate Accepted(s: seq<Byte>, p: nat, delim: Byte, line: nat, out: seq<Byte>)
    requires p <= |s|
  {
    var r := Scan(s, p, delim, line, out, false);
    r.Literal? ==> out <= r.value && Body(s, p, delim, r.next, r.value[|out|..])
  }

  lemma {:induction false} ReadIsBody(s: seq<Byte>, p: nat, delim: Byte, line: nat, out: seq<Byte>)
    requires p <= |s| && (delim == 34 || delim == 39)
    ensures Accepted(s, p, delim, line, out)
    decreases |s| - p
  {
    hide EscapeAt, Accepted, Scan;
    if p == |s| || s[p] == delim || IsNewline(s[p]) {
      AcceptedAtEnd(s, p, delim, line, out);
    } else if s[p] == BACKSLASH {
      var e := EscapeAt(s, p + 1, line);
      if e.Char? { ReadIsBody(s, e.next, delim, e.line, out + Written(e.ch, e.wide)); }
      AcceptedEscape(s, p, delim, line, out);
    } else {
      ReadIsBody(s, p + 1, delim, line, out + [s[p]]);
      AcceptedPlain(s, p, delim, line, out);
    }
  }

  lemma {:induction false} AcceptedAtEnd(s: seq<Byte>, p: nat, delim: Byte, line: nat, out: seq<Byte>)
    requires p <= |s| && (delim == 34 || delim == 39) && (p == |s| || s[p] == delim || IsNewline(s[p]))
    ensures Accepted(s, p, delim, line, out)
  {
    hide EscapeAt;
  }

  lemma {:induction false} AcceptedPlain(s: seq<Byte>, p: nat, delim: Byte, line: nat, out: seq<Byte>)
    requires p < |s| && (delim == 34 || delim == 39) && s[p] != delim && !IsNewline(s[p]) && s[p] != BACKSLASH
    requires Accepted(s, p + 1, delim, line, out + [s[p]])
    ensures Accepted(s, p, delim, line, out)
  {
    ScanPlain(s, p, delim, line, out);
    hide EscapeAt, Scan;
    var r := Scan(s, p, delim, line, out, false);
    if r.Literal? {
      var v := r.value[|out|..];
      assert v[0] == s[p] && v[1..] == r.value[|out + [s[p]]|..];
    }
  }

  lemma {:induction false} ScanPlain(s: seq<Byte>, p: nat, delim: Byte, line: nat, out: seq<Byte>)
    requires p < |s| && s[p] != delim && !IsNewline(s[p]) && s[p] != BACKSLASH
    ensures Scan(s, p, delim, line, out, false) == Scan(s, p + 1, delim, line, out + [s[p]], false)
  {
    hide EscapeAt;
  }

  lemma {:induction false} ScanEscaped(s: seq<Byte>, p: nat, delim: Byte, line: nat, out: seq<Byte>)
    requires p < |s| && s[p] != delim && s[p] == BACKSLASH
    ensures var (r, e) := (Scan(s, p, delim, line, out, false), EscapeAt(s, p + 1, line));
            if e.Char? then r == Scan(s, e.next, delim, e.line, out + Written(e.ch, e.wide), false) else r.Fail?
  {
    var e := EscapeAt(s, p + 1, line);
    hide EscapeAt;
    if e.Bad? { LateFails(s, e.next, delim, e.line, out); }
  }

  lemma {:induction false} AcceptedEscape(s: seq<Byte>, p: nat, delim: Byte, line: nat, out: seq<Byte>)
    requires p < |s| && (delim == 34 || delim == 39) && s[p] == BACKSLASH
    requires var e := EscapeAt(s, p + 1, line); e.Char? ==> Accepted(s, e.next, delim, e.line, out + Written(e.ch, e.wide))
    ensures Accepted(s, p, delim, line, out)
  {
    ScanEscaped(s, p, delim, line, out);
    var e := EscapeAt(s, p + 1, line);
    if e.Char? { EscapeMeans(s, p + 1, line); }
    hide EscapeAt, Scan, Denotes;
    var r := Scan(s, p, delim, line, out, false);
    if r.Literal? {
      hide Body;
      var w := Written(e.ch, e.wide);
      EscapeInside(s, p + 1, e.next, w);
      ValueSplit(out, w, r.value);
      BodyEscaped(s, p, delim, r.next, r.value[|out|..], e.next, w);
    }
  }

  lemma ValueSplit(out: seq<Byte>, w: seq<Byte>, value: seq<Byte>)
    requires out + w <= value
    ensures out <= value && w <= value[|out|..] && value[|out|..][|w|..] == value[|out + w|..]
  {
    assert value[|out|..][..|w|] == (out + w)[|out|..];
  }

  lemma {:induction false} BodyEscaped(s: seq<Byte>, p: nat, delim: Byte, q: nat, v: seq<Byte>, m: nat, w: seq<Byte>)
    requires p + 1 < m <= |s| && s[p] == BACKSLASH && s[p] != delim && Denotes(s, p + 1, m, w) && w <= v && Body(s, m, delim, q, v[|w|..])
    ensures Body(s, p, delim, q, v)
  {
    hide Denotes;
  }

  lemma EscapeInside(s: seq<Byte>, p: nat, q: nat, w: seq<Byte>)
    requires Denotes(s, p, q, w)
    ensures p < q <= |s|
  {
  }

  /** The lexer accepts exactly the literals of the notation, with their values, up to the last line it counts. */
  lemma {:induction false} ReadIffBody(s: seq<Byte>, p: nat, delim: Byte, q: nat, v: seq<Byte>, line: nat, last: nat)
    requires p <= |s| && (delim == 34 || delim == 39)
    ensures Scan(s, p, delim, line, [], false) == Literal(v, q, last) <==>
              Body(s, p, delim, q, v) && p < q <= |s| && last == line + Breaks(s[p..q]) && (last == line || last < 0x7FFF_FFFF)
  {
    hide Body, Breaks, Scan;
    var none: seq<Byte> := [];
    var r := Scan(s, p, delim, line, none, false);
    if r.Literal? {
      ReadIsBody(s, p, delim, line, []);
      assert r.value[|none|..] == r.value && none + r.value == r.value;
      BodyRead(s, p, delim, r.next, r.value, line, []);
    }
    if Body(s, p, delim, q, v) {
      BodyRead(s, p, delim, q, v, line, []);
      assert [] + v == v;
    }
  }

  // -- what is quoted -----------------------------------------------------------------------

  /** A quote, a backslash and a line feed get a backslash; other bytes that do not print get their number, in three digits before a digit and in as few as possible otherwise; all else stands for itself. */
  lemma {:induction false} QuotedByteIs(s: seq<Byte>, i: nat)
    requires i < |s|
    ensures var (c, t) := (s[i], QuotedByte(s, i));
            if Is(c, '\"') || Is(c, '\\') || Is(c, '\n') then |t| == 2 && Is(t[0], '\\') && t[1] == c
            else if c < 32 || c == 127 then
              && Is(t[0], '\\') && (forall k :: 1 <= k < |t| ==> Digit(t[k])) && Number(t[1..], 10) == c
              && (if i + 1 < |s| && Digit(s[i + 1]) then |t| == 4 else 2 <= |t| <= 4 && (|t| > 2 ==> !Is(t[1], '0')))
            else t == [c]
  {
    var (c, t) := (s[i], QuotedByte(s, i));
    if c != 34 && c != 92 && c != 10 && (c < 32 || c == 127) {
      var d := if DigitAt(s, i + 1) then Padded(c) else QuotedString.Decimal(c);
      assert t == [BACKSLASH] + d && t[1..] == d;
      if DigitAt(s, i + 1) { PaddedIs(c); } else { DecimalIs(c); }
      hide Padded, QuotedString.Decimal, Number;
      forall k | 1 <= k < |t| ensures Digit(t[k]) { assert t[k] == d[k - 1]; }
    }
  }

  lemma {:induction false} PaddedIs(c: Byte)
    ensures var d := Padded(c); |d| == 3 && (forall k :: 0 <= k < |d| ==> Digit(d[k])) && Number(d, 10) == c
  {
    var d := Padded(c);
    DigitsNumber(d);
    hide Number;
    assert c / 10 == 10 * (c / 100) + c / 10 % 10 && c == 10 * (c / 10) + c % 10;
  }

  lemma {:induction false} DecimalIs(c: Byte)
    ensures var d := QuotedString.Decimal(c); 1 <= |d| <= 3 && (forall k :: 0 <= k < |d| ==> Digit(d[k])) && Number(d, 10) == c && (|d| > 1 ==> d[0] != 48)
  {
    var d := QuotedString.Decimal(c);
    DigitsNumber(d);
  }

  lemma {:induction false} DigitsNumber(d: seq<Byte>)
    requires 1 <= |d| <= 3
    ensures Number(d, 10) == if |d| == 1 then Worth(d[0]) else if |d| == 2 then 10 * Worth(d[0]) + Worth(d[1]) else 10 * (10 * Worth(d[0]) + Worth(d[1])) + Worth(d[2])
  {
    NumberNone(d, 0, 10);
    NumberMore(d, 0, 0, 10);
    if |d| > 1 { NumberMore(d, 0, 1, 10); }
    if |d| > 2 { NumberMore(d, 0, 2, 10); }
    assert d[0..|d|] == d;
  }
}
