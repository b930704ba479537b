/**
 Short string literals: what the text after an opening delimiter denotes, as
 functions of the text, and the lexer that reads it character by character.
*/
module StringScan {
  import opened QuotedString

  const EOF := -1
  const SKIP := -2
  const MAX_LINES := 0x7FFF_FFFF
  const MAX_CODE := 0x7FFF_FFFF

  datatype ScanError = Unfinished | DecimalTooLarge | HexExpected | MissingOpen | MissingClose | CodeTooLarge | InvalidEscape | TooManyLines

  /** One escape sequence: the character it denotes, or why it denotes none; where reading stopped and on which line. */
  datatype Escape =
    | Char(ch: int, wide: bool, next: nat, line: nat)
    | Bad(e: ScanError, next: nat, line: nat)

  /** A whole literal. */
  datatype Outcome =
    | Literal(value: seq<Byte>, next: nat, line: nat)
    | Fail(e: ScanError, next: nat, line: nat)

  function CharAt(s: seq<Byte>, p: nat): int {
    if p < |s| then s[p] else EOF
  }

  predicate IsNewline(c: int) {
    c == 10 || c == 13
  }

  predicate IsSpace(c: int) {
    c == 32 || 9 <= c <= 13
  }

  function HexVal(c: int): (v: int)
    ensures -1 <= v < 16
  {
    if IsDigit(c) then c - 48 else if 97 <= c <= 102 then c - 87 else if 65 <= c <= 70 then c - 55 else -1
  }

  /** The letters that stand for one byte, and that byte. */
  function SimpleEscape(c: int): int {
    match c
    case 97 => 7 case 98 => 8 case 102 => 12 case 110 => 10 case 114 => 13 case 116 => 9 case 118 => 11
    case 92 => 92 case 34 => 34 case 39 => 39
    case _ => -1
  }

  /** UTF-8 extended to 31 bits. */
  function ExtendedUtf8(c: int): seq<Byte>
    requires 0 <= c <= MAX_CODE
  {
    if c <= 0x7F then [c]
    else if c <= 0x7FF then [0xC0 + c / 0x40] + Tail(c, 1)
    else if c <= 0xFFFF then [0xE0 + c / 0x1000] + Tail(c, 2)
    else if c <= 0x1F_FFFF then [0xF0 + c / 0x4_0000] + Tail(c, 3)
    else if c <= 0x3FF_FFFF then [0xF8 + c / 0x100_0000] + Tail(c, 4)
    else [0xFC + c / 0x4000_0000] + Tail(c, 5)
  }

  /** The last n continuation bytes of c. */
  function Tail(c: int, n: nat): seq<Byte>
    requires c >= 0
  {
    if n == 0 then [] else Tail(c / 0x40, n - 1) + [0x80 + c % 0x40]
  }

  predicate CharOk(ch: int, wide: bool) {
    ch == SKIP || 0 <= ch < 256 || (wide && 0 <= ch <= MAX_CODE)
  }

  /** The bytes an escape adds to the value. */
  function Written(ch: int, wide: bool): seq<Byte>
    requires CharOk(ch, wide)
  {
    if ch == SKIP then [] else if wide then ExtendedUtf8(ch) else [ch]
  }

  /** Past the line break at p; two different break characters are one line break. */
  function AfterBreak(s: seq<Byte>, p: nat): (q: nat)
    requires p < |s|
    ensures p < q <= |s|
  {
    if p + 1 < |s| && IsNewline(s[p + 1]) && s[p + 1] != s[p] then p + 2 else p + 1
  }

  function BreakEscape(s: seq<Byte>, p: nat, ch: int, line: nat): Escape
    requires p < |s|
  {
    if line + 1 >= MAX_LINES then Bad(TooManyLines, AfterBreak(s, p), line + 1) else Char(ch, false, AfterBreak(s, p), line + 1)
  }

  /** White space after \z. */
  function SpaceEscape(s: seq<Byte>, p: nat, line: nat): (r: Escape)
    requires p <= |s|
    ensures p <= r.next <= |s| && (r.Char? ==> r.ch == SKIP && !r.wide)
    decreases |s| - p
  {
    if p == |s| || !IsSpace(s[p]) then Char(SKIP, false, p, line)
    else if IsNewline(s[p]) then
      if line + 1 >= MAX_LINES then Bad(TooManyLines, AfterBreak(s, p), line + 1) else SpaceEscape(s, AfterBreak(s, p), line + 1)
    else SpaceEscape(s, p + 1, line)
  }

  function HexEscape(s: seq<Byte>, p: nat, line: nat): Escape
    requires p <= |s|
  {
    if HexVal(CharAt(s, p)) < 0 then Bad(HexExpected, p, line)
    else if HexVal(CharAt(s, p + 1)) < 0 then Bad(HexExpected, p + 1, line)
    else Char(HexVal(s[p]) * 16 + HexVal(s[p + 1]), false, p + 2, line)
  }

  function CodeEscape(s: seq<Byte>, p: nat, line: nat): Escape
    requires p <= |s|
  {
    if CharAt(s, p) != 123 then Bad(MissingOpen, p, line)
    else if HexVal(CharAt(s, p + 1)) < 0 then Bad(HexExpected, p + 1, line)
    else CodeDigits(s, p + 2, HexVal(s[p + 1]), line)
  }

  /** The digits after the first, up to the closing brace. */
  function CodeDigits(s: seq<Byte>, p: nat, val: int, line: nat): (r: Escape)
    requires p <= |s| && 0 <= val <= MAX_CODE
    ensures p <= r.next <= |s| && (r.Char? ==> CharOk(r.ch, r.wide))
    decreases |s| - p
  {
    if CharAt(s, p) == 125 then Char(val, true, p + 1, line)
    else if HexVal(CharAt(s, p)) < 0 then Bad(MissingClose, p, line)
    else
      var v := val * 16 + HexVal(s[p]);
      if v > MAX_CODE then Bad(CodeTooLarge, p, line) else CodeDigits(s, p + 1, v, line)
  }

  /** At most n more decimal digits, and where they end. */
  function Digits(s: seq<Byte>, p: nat, val: nat, n: nat): (r: (nat, nat))
    requires p <= |s|
    ensures p <= r.1 <= |s|
    decreases n
  {
    if n > 0 && DigitAt(s, p) then Digits(s, p + 1, val * 10 + (s[p] - ZERO), n - 1) else (val, p)
  }

  function DecimalEscape(s: seq<Byte>, p: nat, line: nat): Escape
    requires DigitAt(s, p)
  {
    var d := Digits(s, p + 1, s[p] - ZERO, 2);
    if d.0 > 255 then Bad(DecimalTooLarge, d.1, line) else Char(d.0, false, d.1, line)
  }

  /** The escape sequence whose backslash is just before p. */
  function EscapeAt(s: seq<Byte>, p: nat, line: nat): (r: Escape)
    requires p <= |s|
    ensures p <= r.next <= |s| && (r.Char? ==> CharOk(r.ch, r.wide))
  {
    var c := CharAt(s, p);
    if SimpleEscape(c) >= 0 then Char(SimpleEscape(c), false, p + 1, line)
    else if IsNewline(c) then BreakEscape(s, p, 10, line)
    else if c == 120 then HexEscape(s, p + 1, line)
    else if c == 117 then CodeEscape(s, p + 1, line)
    else if c == 122 then SpaceEscape(s, p + 1, line)
    else if c == EOF then Bad(Unfinished, p, line)
    else if IsDigit(c) then DecimalEscape(s, p, line)
    else Bad(InvalidEscape, p, line)
  }

  /**
   The rest of a literal from p on, out being the value so far. A decimal escape
   that is too large is reported only at the end of the literal.
  */
  function Scan(s: seq<Byte>, p: nat, delim: Byte, line: nat, out: seq<Byte>, late: bool): (r: Outcome)
    requires p <= |s|
    ensures p <= r.next <= |s|
    decreases |s| - p
  {
    if CharAt(s, p) == delim then if late then Fail(DecimalTooLarge, p + 1, line) else Literal(out, p + 1, line)
    else if p == |s| || IsNewline(s[p]) then Fail(if late then DecimalTooLarge else Unfinished, p, line)
    else if s[p] == BACKSLASH then
      match EscapeAt(s, p + 1, line)
      case Char(ch, wide, q, l) => Scan(s, q, delim, l, if late then out else out + Written(ch, wide), late)
      case Bad(e, q, l) => if late || e.DecimalTooLarge? then Scan(s, q, delim, l, out, true) else Fail(e, q, l)
    else Scan(s, p + 1, delim, line, if late then out else out + [s[p]], late)
  }

  // -- the lexer -----------------------------------------------------------------------------

  datatype Status = Fine | Failed(e: ScanError)

  class Lexer {
    const input: seq<Byte>
    var pos: nat
    var current: int
    var line: nat

    ghost predicate Valid()
      reads this
    {
      pos <= |input| && if current == EOF then pos == |input| else pos > 0 && current == input[pos - 1]
    }

    /** The index of the current character. */
    ghost function Cursor(): (p: nat)
      requires Valid()
      reads this
      ensures p <= |input| && CharAt(input, p) == current
    {
      if current == EOF then |input| else pos - 1
    }

    constructor (text: seq<Byte>)
      ensures input == text && Valid() && Cursor() == 0 && line == 1
    {
      input := text;
      pos, current, line := 0, EOF, 1;
      new;
      if |text| > 0 { pos, current := 1, text[0]; }
    }

    method ReadChar()
      requires Valid()
      modifies this`pos, this`current
      ensures Valid() && Cursor() == if old(Cursor()) < |input| then old(Cursor()) + 1 else |input|
    {
      if pos >= |input| {
        current := EOF;
      } else {
        current := input[pos];
        pos := pos + 1;
      }
    }

    method IncLine() returns (st: Status)
      requires Valid() && current != EOF
      modifies this
      ensures Valid() && Cursor() == AfterBreak(input, old(Cursor())) && line == old(line) + 1
      ensures st == if line >= MAX_LINES then Failed(TooManyLines) else Fine
    {
      var before := current;
      ReadChar();
      if IsNewline(current) && current != before { ReadChar(); }
      line := line + 1;
      st := if line >= MAX_LINES then Failed(TooManyLines) else Fine;
    }

    /** The call returned what r says and stopped where r says. */
    ghost predicate Escaped(r: Escape, ch: int, wide: bool, st: Status)
      reads this
    {
      Valid() && Cursor() == r.next && line == r.line && if r.Bad? then st == Failed(r.e) else st.Fine? && ch == r.ch && wide == r.wide
    }

    method ScanHexEscape() returns (ch: int, st: Status)
      requires Valid() && current != EOF
      modifies this
      ensures Escaped(old(HexEscape(input, Cursor() + 1, line)), ch, false, st)
    {
      ch, st := 0, Failed(HexExpected);
      ReadChar();
      var hi := HexVal(current);
      if hi < 0 { return; }
      ReadChar();
      var lo := HexVal(current);
      if lo < 0 { return; }
      ReadChar();
      ch, st := hi * 16 + lo, Fine;
    }

    method ScanUtf8Escape() returns (ch: int, st: Status)
      requires Valid() && current != EOF
      modifies this
      ensures Escaped(old(CodeEscape(input, Cursor() + 1, line)), ch, true, st)
    {
      ghost var r := CodeEscape(input, Cursor() + 1, line);
      ch := 0;
      ReadChar();
      if current != 123 { return ch, Failed(MissingOpen); }
      ReadChar();
      var val := HexVal(current);
      if val < 0 { return ch, Failed(HexExpected); }
      ReadChar();
      while current != 125
        invariant Valid() && line == old(line) && 0 <= val <= MAX_CODE && r == CodeDigits(input, Cursor(), val, line)
        decreases |input| - Cursor()
      {
        var d := HexVal(current);
        if d < 0 { return ch, Failed(MissingClose); }
        val := val * 16 + d;
        if val > MAX_CODE { return ch, Failed(CodeTooLarge); }
        ReadChar();
      }
      ReadChar();
      ch, st := val, Fine;
    }

    method ScanDecimalEscape() returns (ch: int, st: Status)
      requires Valid() && IsDigit(current)
      modifies this
      ensures Escaped(old(DecimalEscape(input, Cursor(), line)), ch, false, st)
    {
      ghost var r := Digits(input, Cursor() + 1, current - ZERO, 2);
      var val: nat := current - ZERO;
      ReadChar();
      var i := 1;
      while i < 3 && IsDigit(current)
        invariant 1 <= i <= 3 && Valid() && line == old(line) && r == Digits(input, Cursor(), val, 3 - i)
      {
        val := val * 10 + (current - ZERO);
        ReadChar();
        i := i + 1;
      }
      ch, st := val, if val > 255 then Failed(DecimalTooLarge) else Fine;
    }

    method SkipSpace() returns (st: Status)
      requires Valid() && current != EOF
      modifies this
      ensures Escaped(old(SpaceEscape(input, Cursor() + 1, line)), SKIP, false, st)
    {
      ghost var r := SpaceEscape(input, Cursor() + 1, line);
      ReadChar();
      while current != EOF && IsSpace(current)
        invariant Valid() && r == SpaceEscape(input, Cursor(), line)
        decreases |input| - Cursor()
      {
        if IsNewline(current) {
          st := IncLine();
          if st.Failed? { return; }
        } else {
          ReadChar();
        }
      }
      st := Fine;
    }

    method ScanEscape() returns (ch: int, wide: bool, st: Status)
      requires Valid() && current != EOF
      modifies this
      ensures Escaped(old(EscapeAt(input, Cursor() + 1, line)), ch, wide, st)
    {
      hide HexEscape, CodeEscape, SpaceEscape, DecimalEscape;
      ch, wide, st := 0, false, Fine;
      ReadChar();
      if SimpleEscape(current) >= 0 {
        ch := SimpleEscape(current);
        ReadChar();
      } else if IsNewline(current) {
        ch := 10;
        st := IncLine();
      } else if current == 120 {
        ch, st := ScanHexEscape();
      } else if current == 117 {
        wide := true;
        ch, st := ScanUtf8Escape();
      } else if current == 122 {
        ch := SKIP;
        st := SkipSpace();
      } else if current == EOF {
        st := Failed(Unfinished);
      } else if IsDigit(current) {
        ch, st := ScanDecimalEscape();
      } else {
        st := Failed(InvalidEscape);
      }
    }

    /** scanString, from the opening delimiter. */
    method ScanString() returns (value: seq<Byte>, st: Status)
      requires Valid() && (current == 34 || current == 39)
      modifies this
      ensures Valid()
      ensures var r := old(Scan(input, Cursor() + 1, current, line, [], false));
              && Cursor() == r.next && line == r.line
              && if r.Fail? then st == Failed(r.e) else st.Fine? && value == r.value
    {
      hide EscapeAt;
      var delim := current;
      ghost var r := Scan(input, Cursor() + 1, delim, line, [], false);
      ReadChar();
      value := [];
      var late := false;
      while current != delim
        invariant Valid() && r == Scan(input, Cursor(), delim, line, value, late)
        decreases |input| - Cursor()
      {
        if current == EOF || IsNewline(current) {
          return value, Failed(if late then DecimalTooLarge else Unfinished);
        }
        if current == BACKSLASH {
          var ch, wide, esc := ScanEscape();
          if esc.Failed? {
            if !late && !esc.e.DecimalTooLarge? { return value, esc; }
            late := true;
          } else if !late {
            value := value + Written(ch, wide);
          }
        } else {
          if !late { value := value + [current]; }
          ReadChar();
        }
      }
      ReadChar();
      st := if late then Failed(DecimalTooLarge) else Fine;
    }
  }
}
