/**
 What a replacement string means: the notation of its parts, given by character
 codes, and the text each part stands for; and that every string is either such
 parts throughout or breaks off at a '%' that begins none.
*/
module ReplacementNotation {
  import opened PatternSpec
  import opened PatternDrivers

  datatype Part = Plain(c: char) | PercentSign | Capture(d: nat)

  predicate Proper(part: Part) {
    match part
    case Plain(c) => c as int != 37
    case PercentSign => true
    case Capture(d) => d < 10
  }

  function Spelt(part: Part): (t: string)
    requires Proper(part)
    ensures |t| > 0
  {
    match part
    case Plain(c) => [c]
    case PercentSign => [37 as char, 37 as char]
    case Capture(d) => [37 as char, (48 + d) as char]
  }

  function Written(parts: seq<Part>): string
    requires forall k :: 0 <= k < |parts| ==> Proper(parts[k])
  {
    if parts == [] then "" else Spelt(parts[0]) + Written(parts[1..])
  }

  /** The number a row of decimal digits stands for. */
  function Number(t: string): int {
    if t == "" then 0 else 10 * Number(t[..|t| - 1]) + (t[|t| - 1] as int - 48)
  }

  /** n in decimal, without leading zeros. */
  predicate Numeral(t: string, n: nat) {
    && t != "" && (forall k :: 0 <= k < |t| ==> 48 <= t[k] as int <= 57)
    && (|t| > 1 ==> t[0] != '0') && Number(t) == n
  }

  /** What one part stands for, a number counting from 1 for a position. */
  ghost predicate Stands(s: string, m: Match, part: Part, a: Answer)
    requires m.start <= m.end <= |s| && Within(m.caps, m.end)
  {
    match part
    case Plain(c) => a == Text([c])
    case PercentSign => a == Text("%")
    case Capture(d) =>
      if d == 0 || (d == 1 && |m.caps| == 0) then a == Text(s[m.start..m.end])
      else if d > |m.caps| then a.Error? && |a.msg| == 24 && a.msg[..23] == "invalid capture index %" && a.msg[23] as int == 48 + d
      else
        match m.caps[d - 1]
        case Span(init, len) => a.Text? && |a.t| == len && init + len <= m.end && forall k :: 0 <= k < len ==> a.t[k] == s[init + k]
        case Position(init) => a.Text? && Numeral(a.t, init + 1)
        case Unfinished(_) => a == Error("unfinished capture")
  }

  /** The parts one after another; the first error is the outcome. */
  ghost predicate Means(s: string, m: Match, parts: seq<Part>, a: Answer)
    requires m.start <= m.end <= |s| && Within(m.caps, m.end)
  {
    if parts == [] then a == Text("")
    else
      exists first, rest :: Stands(s, m, parts[0], first) && Means(s, m, parts[1..], rest)
        && if !first.Text? then a == first else if !rest.Text? then a == rest else a == Text(first.t + rest.t)
  }

  lemma {:induction false} DecimalNumeral(n: nat)
    ensures Numeral(Decimal(n), n) && (n > 0 ==> Decimal(n)[0] != '0') && |Decimal(n)| >= 1
  {
    var d := [(n % 10 + 48) as char];
    if n < 10 {
      assert Decimal(n) == d;
      assert d[..0] == "";
    } else {
      DecimalNumeral(n / 10);
      var t := Decimal(n / 10);
      assert Decimal(n) == t + d;
      OneDigitMore(t, n);
    }
  }

  lemma {:induction false} OneDigitMore(t: string, n: nat)
    requires n >= 10 && Numeral(t, n / 10) && t[0] != '0'
    ensures var u := t + [(n % 10 + 48) as char]; Numeral(u, n) && u[0] != '0'
  {
    var u := t + [(n % 10 + 48) as char];
    assert u[..|u| - 1] == t && u[|u| - 1] as int == n % 10 + 48;
  }

  function PartText(s: string, m: Match, part: Part): Answer
    requires m.start <= m.end <= |s| && Within(m.caps, m.end)
  {
    match part
    case Plain(c) => Text([c])
    case PercentSign => Text("%")
    case Capture(d) => CaptureText(s, m, d)
  }

  lemma {:induction false} PartThenRest(s: string, m: Match, part: Part, rest: string)
    requires m.start <= m.end <= |s| && Within(m.caps, m.end) && Proper(part)
    ensures Expand(Spelt(part) + rest, 0, s, m) == Append(PartText(s, m, part), Expand(rest, 0, s, m))
  {
    hide CaptureText, Append;
    ExpandShift(Spelt(part), rest, 0, s, m);
    var t := Spelt(part) + rest;
    if part.Capture? { assert t[0] == '%' && t[1] as int == 48 + part.d; }
  }

  lemma CaptureStands(s: string, m: Match, d: nat)
    requires m.start <= m.end <= |s| && Within(m.caps, m.end) && d < 10
    ensures Stands(s, m, Capture(d), CaptureText(s, m, d))
  {
    if 0 < d <= |m.caps| && m.caps[d - 1].Position? { DecimalNumeral(m.caps[d - 1].init + 1); }
    if 0 < d <= |m.caps| && m.caps[d - 1].Span? { assert SlotEnd(m.caps[d - 1]) <= m.end; }
  }

  lemma PartStands(s: string, m: Match, part: Part)
    requires m.start <= m.end <= |s| && Within(m.caps, m.end) && Proper(part)
    ensures Stands(s, m, part, PartText(s, m, part))
  {
    if part.Capture? { CaptureStands(s, m, part.d); }
  }

  /** A string written in the notation expands to what its parts stand for. */
  lemma {:induction false} PartsExpand(s: string, m: Match, parts: seq<Part>)
    requires m.start <= m.end <= |s| && Within(m.caps, m.end)
    requires forall k :: 0 <= k < |parts| ==> Proper(parts[k])
    ensures Means(s, m, parts, Expand(Written(parts), 0, s, m))
  {
    if parts != [] {
      var rest := Written(parts[1..]);
      PartsExpand(s, m, parts[1..]);
      PartThenRest(s, m, parts[0], rest);
      PartStands(s, m, parts[0]);
      var (a, b) := (PartText(s, m, parts[0]), Expand(rest, 0, s, m));
      hide Expand, Stands, PartText;
      assert Means(s, m, parts[1..], b);
    }
  }

  /** A '%' that ends the string or is followed by neither a digit nor another one. */
  predicate Stray(t: string) {
    |t| > 0 && t[0] as int == 37 && (|t| > 1 ==> t[1] as int != 37 && !(48 <= t[1] as int <= 57))
  }

  /** Every string is parts followed by nothing or by a stray '%'. */
  lemma {:induction false} Splits(repl: string) returns (parts: seq<Part>, rest: string)
    ensures forall k :: 0 <= k < |parts| ==> Proper(parts[k])
    ensures repl == Written(parts) + rest && (rest == "" || Stray(rest))
    decreases |repl|
  {
    if repl == "" || Stray(repl) {
      parts, rest := [], repl;
    } else {
      var first := if repl[0] as int != 37 then Plain(repl[0]) else if repl[1] as int == 37 then PercentSign else Capture(repl[1] as int - 48);
      var more: seq<Part>;
      more, rest := Splits(repl[|Spelt(first)|..]);
      parts := [first] + more;
      assert parts[1..] == more;
      assert repl == Spelt(first) + repl[|Spelt(first)|..];
    }
  }

  lemma {:induction false} StrayFails(s: string, m: Match, rest: string)
    requires m.start <= m.end <= |s| && Within(m.caps, m.end) && Stray(rest)
    ensures Expand(rest, 0, s, m) == Error("invalid use of '%' in replacement string") && Expand("", 0, s, m) == Text("")
  {
  }

  /** A stray '%' is an error, unless a part before it is one. */
  lemma {:induction false} StrayRefused(s: string, m: Match, parts: seq<Part>, rest: string)
    requires m.start <= m.end <= |s| && Within(m.caps, m.end)
    requires (forall k :: 0 <= k < |parts| ==> Proper(parts[k])) && Stray(rest)
    ensures var a := Expand(Written(parts), 0, s, m);
            Expand(Written(parts) + rest, 0, s, m) == if a.Text? then Error("invalid use of '%' in replacement string") else a
  {
    if parts == [] {
      StrayFails(s, m, rest);
      assert "" + rest == rest;
    } else {
      var tail := Written(parts[1..]);
      hide PartText, Expand, Spelt;
      StrayRefused(s, m, parts[1..], rest);
      PartThenRest(s, m, parts[0], tail);
      PartThenRest(s, m, parts[0], tail + rest);
      assert Spelt(parts[0]) + (tail + rest) == Written(parts) + rest;
    }
  }
}
