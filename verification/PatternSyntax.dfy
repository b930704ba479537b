/**
 Lua patterns: the single-character elements and the items a pattern is read
 as, one at a time, while it is matched. A malformed item is only an error once
 the match gets to it.
*/
module PatternSyntax {

  datatype Elem =
    | AnyChar
    | Literal(c: char)
    | Class(class_: char, neg: bool)
    | Range(low: char, high: char)
    | CharSet(elems: seq<Elem>, neg: bool)

  predicate IsLower(b: char) { 'a' <= b <= 'z' }
  predicate IsUpper(b: char) { 'A' <= b <= 'Z' }
  predicate IsLetter(b: char) { IsLower(b) || IsUpper(b) }
  predicate IsDigit(b: char) { '0' <= b <= '9' }
  predicate IsHex(b: char) { IsDigit(b) || 'a' <= b <= 'f' || 'A' <= b <= 'F' }
  predicate IsControl(b: char) { b as int < 32 || b as int == 127 }
  predicate IsGraph(b: char) { 32 < b as int < 127 }
  predicate IsSpace(b: char) { b == ' ' || 9 <= b as int <= 13 }
  predicate IsPunct(b: char) { '!' <= b <= '/' || ':' <= b <= '@' || '[' <= b <= '`' || '{' <= b <= '~' }

  predicate InClass(class_: char, b: char) {
    match class_
    case 'a' => IsLetter(b)
    case 'd' => IsDigit(b)
    case 's' => IsSpace(b)
    case 'w' => IsLetter(b) || IsDigit(b)
    case 'l' => IsLower(b)
    case 'u' => IsUpper(b)
    case 'c' => IsControl(b)
    case 'g' => IsGraph(b)
    case 'p' => IsPunct(b)
    case 'x' => IsHex(b)
    case 'z' => b == '\0'
    case _ => b == class_
  }

  predicate Accepts(e: Elem, b: char) {
    match e
    case AnyChar => true
    case Literal(c) => b == c
    case Class(k, neg) => InClass(k, b) != neg
    case Range(low, high) => low <= b <= high
    case CharSet(elems, neg) => (exists i :: 0 <= i < |elems| && Accepts(elems[i], b)) != neg
  }

  predicate IsClassLetter(c: char) {
    c in "adgswlucpxz"
  }

  /** The element of an escape: a class, its complement in upper case, or the character itself. */
  function Escaped(next: char): Elem {
    if IsClassLetter(next) then Class(next, false)
    else if IsUpper(next) && IsClassLetter((next as int + 32) as char) then Class((next as int + 32) as char, true)
    else Literal(next)
  }

  // -- sets ---------------------------------------------------------------------------

  /** The index of the ']' that ends a set, or the pattern's length. */
  function SetEnd(p: string, i: nat): (r: nat)
    requires i <= |p|
    ensures i <= r <= |p| && (r < |p| ==> p[r] == ']')
    decreases |p| - i
  {
    if i == |p| || p[i] == ']' then i
    else if p[i] == '%' && i + 1 < |p| then SetEnd(p, i + 2)
    else SetEnd(p, i + 1)
  }

  /** The elements of a set body from i on. */
  function SetElems(set_: string, i: nat): seq<Elem>
    decreases |set_| - i
  {
    if i >= |set_| then []
    else if set_[i] == '%' && i + 1 < |set_| then [Escaped(set_[i + 1])] + SetElems(set_, i + 2)
    else if i + 2 < |set_| && set_[i + 1] == '-' then [Range(set_[i], set_[i + 2])] + SetElems(set_, i + 3)
    else [Literal(set_[i])] + SetElems(set_, i + 1)
  }

  datatype ParsedElem = ParsedElem(e: Elem, next: nat) | BadElem(msg: string)

  const ENDS_WITH_PERCENT := "malformed pattern (ends with '%')"
  const MISSING_BRACKET := "malformed pattern (missing ']')"
  const MISSING_BALANCE := "malformed pattern (missing arguments to '%b')"
  const MISSING_FRONTIER := "missing '[' after '%f' in pattern"
  const CAPTURE_ZERO := "invalid capture index %0"

  /** Where the body of the set that opens at pp starts, after a '^'. */
  function SetStart(p: string, pp: nat): (start: nat)
    requires pp < |p|
    ensures pp < start <= |p|
  {
    if pp + 1 < |p| && p[pp + 1] == '^' then pp + 2 else pp + 1
  }

  /** A ']' right at the start of a set stands for itself. */
  function SetClose(p: string, pp: nat): (end: nat)
    requires pp < |p|
    ensures SetStart(p, pp) <= end <= |p|
  {
    var start := SetStart(p, pp);
    SetEnd(p, if start < |p| && p[start] == ']' then start + 1 else start)
  }

  function SetAt(p: string, pp: nat): (r: ParsedElem)
    requires pp < |p|
    ensures r.ParsedElem? ==> pp < r.next <= |p|
  {
    var (start, end) := (SetStart(p, pp), SetClose(p, pp));
    if end == |p| then BadElem(MISSING_BRACKET)
    else ParsedElem(CharSet(SetElems(p[start..end], 0), start == pp + 2), end + 1)
  }

  function ElemAt(p: string, pp: nat): (r: ParsedElem)
    requires pp < |p|
    ensures r.ParsedElem? ==> pp < r.next <= |p|
  {
    if p[pp] == '%' then
      if pp + 1 >= |p| then BadElem(ENDS_WITH_PERCENT) else ParsedElem(Escaped(p[pp + 1]), pp + 2)
    else if p[pp] == '[' then SetAt(p, pp)
    else ParsedElem(if p[pp] == '.' then AnyChar else Literal(p[pp]), pp + 1)
  }

  // -- items -------------------------------------------------------------------------------

  datatype Rep = One | Opt | Star | Plus | Lazy

  datatype Item =
    | Done
    | Bad(msg: string)
    | AtEnd
    | PosCapture(next: nat)
    | OpenCapture(next: nat)
    | CloseCapture(next: nat)
    | Balance(x: char, y: char, next: nat)
    | Frontier(e: Elem, next: nat)
    | BackRef(l: nat, next: nat)
    | Repeat(e: Elem, rep: Rep, next: nat)

  function RepOf(c: char): Rep {
    match c
    case '*' => Star
    case '+' => Plus
    case '-' => Lazy
    case '?' => Opt
    case _ => One
  }

  /** An element and the modifier after it. */
  function RepeatAt(p: string, pp: nat): (r: Item)
    requires pp < |p|
    ensures r.Bad? || (r.Repeat? && pp < r.next <= |p|)
  {
    match ElemAt(p, pp)
    case BadElem(msg) => Bad(msg)
    case ParsedElem(e, next) =>
      if next < |p| && RepOf(p[next]) != One then Repeat(e, RepOf(p[next]), next + 1) else Repeat(e, One, next)
  }

  function FrontierAt(p: string, pp: nat): (r: Item)
    requires pp < |p|
    ensures r.Bad? || (r.Frontier? && pp < r.next <= |p|)
  {
    if pp + 2 >= |p| || p[pp + 2] != '[' then Bad(MISSING_FRONTIER)
    else
      match SetAt(p, pp + 2)
      case BadElem(msg) => Bad(msg)
      case ParsedElem(e, next) => Frontier(e, next)
  }

  predicate Continues(i: Item) {
    !i.Done? && !i.Bad? && !i.AtEnd?
  }

  function ItemAt(p: string, pp: nat): (r: Item)
    ensures Continues(r) ==> pp < r.next <= |p|
    ensures r.Done? <==> pp >= |p|
  {
    if pp >= |p| then Done
    else if p[pp] == '(' then
      if pp + 1 < |p| && p[pp + 1] == ')' then PosCapture(pp + 2) else OpenCapture(pp + 1)
    else if p[pp] == ')' then CloseCapture(pp + 1)
    else if p[pp] == '$' && pp + 1 == |p| then AtEnd
    else if p[pp] == '%' && pp + 1 < |p| then
      var next := p[pp + 1];
      if next == 'b' then if pp + 3 >= |p| then Bad(MISSING_BALANCE) else Balance(p[pp + 2], p[pp + 3], pp + 4)
      else if next == 'f' then FrontierAt(p, pp)
      else if next == '0' then Bad(CAPTURE_ZERO)
      else if IsDigit(next) then BackRef(next as int - '1' as int, pp + 2)
      else RepeatAt(p, pp)
    else RepeatAt(p, pp)
  }
}
