/**
 Quoting and scanning undo each other: the lexer reads the %q form of a byte
 string back as that string, and stops right after its closing quote.
*/
module QuoteRoundTrip {
  import opened QuotedString
  import opened StringScan

  /** Line breaks in the string from i on; each is written as one. */
  function Breaks(s: seq<Byte>, i: nat): nat
    requires i <= |s|
    decreases |s| - i
  {
    if i == |s| then 0 else (if s[i] == LF then 1 else 0) + Breaks(s, i + 1)
  }

  /** The text has q at p. */
  predicate TextAt(text: seq<Byte>, p: nat, q: seq<Byte>) {
    p + |q| <= |text| && text[p..p + |q|] == q
  }

  lemma TextParts(text: seq<Byte>, p: nat, a: seq<Byte>, b: seq<Byte>)
    requires TextAt(text, p, a + b)
    ensures TextAt(text, p, a) && TextAt(text, p + |a|, b)
  {
    assert text[p..p + |a|] == (a + b)[..|a|] && text[p + |a|..p + |a + b|] == (a + b)[|a|..];
  }

  lemma TextByte(text: seq<Byte>, p: nat, q: seq<Byte>, k: nat)
    requires TextAt(text, p, q) && k < |q|
    ensures p + k < |text| && text[p + k] == q[k]
  {
    assert text[p + k] == text[p..p + |q|][k];
  }

  /** What comes after a byte never joins a line break, and is a digit only if the next byte is one. */
  lemma {:induction false} NextByte(s: seq<Byte>, i: nat)
    requires i <= |s|
    ensures var q := QuotedFrom(s, i) + [QUOTE]; !IsNewline(q[0]) && (IsDigit(q[0]) ==> DigitAt(s, i))
  {
  }

  lemma DecimalDigits(text: seq<Byte>, p: nat, c: Byte)
    requires IsControl(c) && TextAt(text, p, Decimal(c)) && !DigitAt(text, p + |Decimal(c)|)
    ensures DigitAt(text, p) && Digits(text, p + 1, text[p] - ZERO, 2) == (c as nat, p + |Decimal(c)|)
  {
    var q := Decimal(c);
    TextByte(text, p, q, 0);
    if c >= 100 {
      assert q == Padded(c);
      PaddedDigits(text, p, c);
    } else if c >= 10 {
      TextByte(text, p, q, 1);
      TwoDigits(text, p, c);
    } else {
      OneDigit(text, p, c);
    }
  }

  lemma OneDigit(text: seq<Byte>, p: nat, c: Byte)
    requires c < 10 && p < |text| && text[p] == ZERO + c && !DigitAt(text, p + 1)
    ensures DigitAt(text, p) && Digits(text, p + 1, text[p] - ZERO, 2) == (c as nat, p + 1)
  {
  }

  lemma TwoDigits(text: seq<Byte>, p: nat, c: Byte)
    requires 10 <= c < 100 && p + 1 < |text| && text[p] == ZERO + c / 10 && text[p + 1] == ZERO + c % 10 && !DigitAt(text, p + 2)
    ensures DigitAt(text, p) && Digits(text, p + 1, text[p] - ZERO, 2) == (c as nat, p + 2)
  {
    assert Digits(text, p + 2, c, 1) == (c as nat, p + 2);
  }

  lemma ThreeDigits(text: seq<Byte>, p: nat, c: Byte)
    requires p + 3 <= |text| && text[p] == ZERO + c / 100 && text[p + 1] == ZERO + c / 10 % 10 && text[p + 2] == ZERO + c % 10
    ensures DigitAt(text, p) && Digits(text, p + 1, text[p] - ZERO, 2) == (c as nat, p + 3)
  {
    var v: nat := c / 100;
    assert Digits(text, p + 1, v, 2) == Digits(text, p + 2, v * 10 + c / 10 % 10, 1);
    assert v * 10 + c / 10 % 10 == c / 10;
    assert Digits(text, p + 2, c / 10, 1) == Digits(text, p + 3, c, 0);
  }

  lemma {:induction false} PaddedDigits(text: seq<Byte>, p: nat, c: Byte)
    requires TextAt(text, p, Padded(c))
    ensures DigitAt(text, p) && Digits(text, p + 1, text[p] - ZERO, 2) == (c as nat, p + 3)
  {
    var q := Padded(c);
    TextByte(text, p, q, 0);
    TextByte(text, p, q, 1);
    TextByte(text, p, q, 2);
    ThreeDigits(text, p, c);
  }

  /** An escaped byte is read as that byte. */
  lemma EscapeRead(text: seq<Byte>, p: nat, s: seq<Byte>, i: nat, line: nat)
    requires i < |s| && TextAt(text, p, QuotedByte(s, i)) && QuotedByte(s, i)[0] == BACKSLASH
    requires var n := p + |QuotedByte(s, i)|; n < |text| && !IsNewline(text[n]) && (IsDigit(text[n]) ==> DigitAt(s, i + 1))
    ensures var n := p + |QuotedByte(s, i)|;
            text[p] == BACKSLASH && EscapeAt(text, p + 1, line) ==
              if s[i] == LF then if line + 1 >= MAX_LINES then Bad(TooManyLines, n, line + 1) else Char(LF, false, n, line + 1)
              else Char(s[i], false, n, line)
  {
    var q, c := QuotedByte(s, i), s[i];
    TextByte(text, p, q, 0);
    TextByte(text, p, q, 1);
    assert q == [BACKSLASH] + q[1..];
    TextParts(text, p, [BACKSLASH], q[1..]);
    if IsControl(c) && c != LF {
      if DigitAt(s, i + 1) { PaddedDigits(text, p + 1, c); } else { DecimalDigits(text, p + 1, c); }
    }
  }

  /** One byte of the string is read. */
  lemma ByteRead(text: seq<Byte>, p: nat, s: seq<Byte>, i: nat, line: nat, out: seq<Byte>)
    requires i < |s| && TextAt(text, p, QuotedByte(s, i) + (QuotedFrom(s, i + 1) + [QUOTE]))
    ensures var n := p + |QuotedByte(s, i)|;
            Scan(text, p, QUOTE, line, out, false) ==
              if s[i] == LF then if line + 1 >= MAX_LINES then Fail(TooManyLines, n, line + 1) else Scan(text, n, QUOTE, line + 1, out + [LF], false)
              else Scan(text, n, QUOTE, line, out + [s[i]], false)
  {
    var q, rest := QuotedByte(s, i), QuotedFrom(s, i + 1) + [QUOTE];
    NextByte(s, i + 1);
    TextParts(text, p, q, rest);
    TextByte(text, p, q, 0);
    TextByte(text, p + |q|, rest, 0);
    Shape(s, i);
    hide TextAt, QuotedFrom, QuotedByte, EscapeAt, Scan;
    if q[0] == BACKSLASH {
      EscapedByteRead(text, p, s, i, line, out);
    } else {
      PlainStep(text, p, line, out);
    }
  }

  lemma EscapedByteRead(text: seq<Byte>, p: nat, s: seq<Byte>, i: nat, line: nat, out: seq<Byte>)
    requires i < |s| && TextAt(text, p, QuotedByte(s, i)) && QuotedByte(s, i)[0] == BACKSLASH
    requires var n := p + |QuotedByte(s, i)|; n < |text| && !IsNewline(text[n]) && (IsDigit(text[n]) ==> DigitAt(s, i + 1))
    ensures var n := p + |QuotedByte(s, i)|;
            Scan(text, p, QUOTE, line, out, false) ==
              if s[i] == LF then if line + 1 >= MAX_LINES then Fail(TooManyLines, n, line + 1) else Scan(text, n, QUOTE, line + 1, out + [LF], false)
              else Scan(text, n, QUOTE, line, out + [s[i]], false)
  {
    hide TextAt, QuotedFrom, QuotedByte, EscapeAt, Scan;
    EscapeRead(text, p, s, i, line);
    EscapeStep(text, p, line, out);
  }

  /** What is not escaped is written as itself. */
  lemma Shape(s: seq<Byte>, i: nat)
    requires i < |s|
    ensures var q := QuotedByte(s, i);
            q[0] == BACKSLASH || (q == [s[i]] && !IsNewline(s[i]) && s[i] != QUOTE && s[i] != BACKSLASH)
  {
  }

  lemma {:induction false} EscapeStep(text: seq<Byte>, p: nat, line: nat, out: seq<Byte>)
    requires p < |text| && text[p] == BACKSLASH
    ensures var r := Scan(text, p, QUOTE, line, out, false);
            match EscapeAt(text, p + 1, line)
            case Char(ch, wide, q, l) => 0 <= ch < 256 && !wide ==> r == Scan(text, q, QUOTE, l, out + [ch], false)
            case Bad(e, q, l) => e != DecimalTooLarge ==> r == Fail(e, q, l)
  {
    hide EscapeAt;
  }

  lemma PlainStep(text: seq<Byte>, p: nat, line: nat, out: seq<Byte>)
    requires p < |text| && !IsNewline(text[p]) && text[p] != QUOTE && text[p] != BACKSLASH
    ensures Scan(text, p, QUOTE, line, out, false) == Scan(text, p + 1, QUOTE, line, out + [text[p]], false)
  {
    hide EscapeAt;
  }

  /** From byte i on: the rest of the string is read, or the lines run out. */
  lemma {:induction false} RestRead(text: seq<Byte>, p: nat, s: seq<Byte>, i: nat, line: nat, out: seq<Byte>)
    requires i <= |s| && TextAt(text, p, QuotedFrom(s, i) + [QUOTE])
    ensures var r := Scan(text, p, QUOTE, line, out, false);
            if Breaks(s, i) == 0 || line + Breaks(s, i) < MAX_LINES
            then r == Literal(out + s[i..], p + |QuotedFrom(s, i)| + 1, line + Breaks(s, i))
            else r.Fail? && r.e == TooManyLines
    decreases |s| - i
  {
    hide Scan, QuotedByte;
    if i == |s| {
      TextByte(text, p, [QUOTE], 0);
      EndRead(text, p, line, out);
      assert out + s[i..] == out;
    } else {
      var q, rest := QuotedByte(s, i), QuotedFrom(s, i + 1) + [QUOTE];
      assert QuotedFrom(s, i) + [QUOTE] == q + rest;
      TextParts(text, p, q, rest);
      ByteRead(text, p, s, i, line, out);
      if s[i] != LF || line + 1 < MAX_LINES {
        RestRead(text, p + |q|, s, i + 1, if s[i] == LF then line + 1 else line, out + [s[i]]);
        assert out + [s[i]] + s[i + 1..] == out + s[i..];
      }
    }
  }

  lemma {:induction false} EndRead(text: seq<Byte>, p: nat, line: nat, out: seq<Byte>)
    requires p < |text| && text[p] == QUOTE
    ensures Scan(text, p, QUOTE, line, out, false) == Literal(out, p + 1, line)
  {
  }

  /**
   Every byte string, wherever its quoted form stands in a text: the literal that
   starts there has the string as its value and ends where the quoted form ends,
   exactly when its line breaks do not exceed what the lexer counts.
  */
  lemma QuoteThenScan(before: seq<Byte>, s: seq<Byte>, after: seq<Byte>, line: nat)
    ensures Scan(before + Quoted(s) + after, |before| + 1, QUOTE, line, [], false) ==
              Literal(s, |before| + |Quoted(s)|, line + Breaks(s, 0))
            <==> Breaks(s, 0) == 0 || line + Breaks(s, 0) < MAX_LINES
  {
    var body := QuotedFrom(s, 0) + [QUOTE];
    var text := before + Quoted(s) + after;
    assert text == before + [QUOTE] + body + after;
    assert TextAt(text, |before| + 1, body);
    RestRead(text, |before| + 1, s, 0, line, []);
    assert [] + s[0..] == s;
  }

  /** On the last line the lexer counts, a single line break is not read back. */
  lemma {:induction false} LastLineBreak(line: nat)
    requires line + 1 >= MAX_LINES
    ensures var r := Scan(Quoted([LF]), 1, QUOTE, line, [], false); r.Fail? && r.e == TooManyLines
  {
    var s: seq<Byte> := [LF];
    var body := QuotedFrom(s, 0) + [QUOTE];
    assert Breaks(s, 0) == 1 by { assert Breaks(s, 1) == 0; }
    assert Quoted(s)[1..] == body && TextAt(Quoted(s), 1, body);
    RestRead(Quoted(s), 1, s, 0, line, []);
  }

  /** The byte a quoted text begins with, and where the rest of the text is. */
  function FirstByte(text: seq<Byte>): (int, nat)
    requires text != []
  {
    if text[0] != BACKSLASH then (text[0] as int, 1)
    else
      var e := EscapeAt(text, 1, 0);
      (if e.Char? then e.ch else 0, e.next)
  }

  lemma {:induction false} FirstRead(s: seq<Byte>, i: nat)
    requires i < |s|
    ensures FirstByte(QuotedFrom(s, i) + [QUOTE]) == (s[i] as int, |QuotedByte(s, i)|)
  {
    var q, rest := QuotedByte(s, i), QuotedFrom(s, i + 1) + [QUOTE];
    var text := q + rest;
    assert QuotedFrom(s, i) + [QUOTE] == text && TextAt(text, 0, text);
    NextByte(s, i + 1);
    TextParts(text, 0, q, rest);
    TextByte(text, |q|, rest, 0);
    Shape(s, i);
    hide TextAt, QuotedFrom, QuotedByte, EscapeAt;
    if q[0] == BACKSLASH { EscapeRead(text, 0, s, i, 0); }
  }

  /** What is quoted alike from some byte on is the same from there on, however many lines there are. */
  lemma {:induction false} RestIsInjective(s: seq<Byte>, i: nat, t: seq<Byte>, j: nat)
    requires i <= |s| && j <= |t| && QuotedFrom(s, i) == QuotedFrom(t, j)
    ensures s[i..] == t[j..]
    decreases |s| - i
  {
    if i < |s| && j < |t| {
      hide QuotedByte, FirstByte;
      FirstRead(s, i);
      FirstRead(t, j);
      var n := |QuotedByte(s, i)|;
      assert QuotedFrom(s, i)[n..] == QuotedFrom(s, i + 1) && QuotedFrom(t, j)[n..] == QuotedFrom(t, j + 1);
      RestIsInjective(s, i + 1, t, j + 1);
      assert s[i..] == [s[i]] + s[i + 1..] && t[j..] == [t[j]] + t[j + 1..];
    }
  }

  /** Two strings quoted alike are the same string. */
  lemma {:induction false} QuotedIsInjective(s: seq<Byte>, t: seq<Byte>)
    requires Quoted(s) == Quoted(t)
    ensures s == t
  {
    assert QuotedFrom(s, 0) == Quoted(s)[1..|Quoted(s)| - 1] && QuotedFrom(t, 0) == Quoted(t)[1..|Quoted(t)| - 1];
    RestIsInjective(s, 0, t, 0);
    assert s[0..] == s && t[0..] == t;
  }

  /** A fresh lexer over the quoted form reads the string back and is at the end of the text. */
  method ReadBack(s: seq<Byte>) returns (value: seq<Byte>, st: Status, left: bool)
    ensures Breaks(s, 0) < MAX_LINES - 1 ==> st == Fine && value == s && !left
  {
    hide Scan, QuotedFrom, Breaks, EscapeAt;
    var q, _ := AppendQuoted(s);
    var lexer := new Lexer(q);
    QuoteThenScan([], s, [], 1);
    assert [] + Quoted(s) + [] == q;
    value, st := lexer.ScanString();
    left := lexer.current != EOF;
  }
}
