/**
 The notation of patterns, from the other side: what each construct of the manual
 stands for, how it is written, and that what is written is read back as that.
*/
module PatternNotation {
  import opened Wrappers
  import opened PatternSyntax
  import opened PatternSpec
  import opened PatternTheorems

  /** In a set: a character, a character behind '%', a class or its complement, a range. */
  datatype Member = Char(c: char) | QuotedChar(c: char) | Named(letter: char, complement: bool) | From(low: char, high: char)

  datatype Single = Dot | Plain(c: char) | Quoted(c: char) | ClassOf(letter: char, complement: bool) | Set(complement: bool, members: seq<Member>)

  datatype Times = Once | ZeroOrMore | OneOrMore | Fewest | AtMostOne

  datatype Piece =
    | Begin
    | Close
    | Here
    | Balanced(x: char, y: char)
    | Border(complement: bool, members: seq<Member>)
    | Again(n: nat)
    | Many(single: Single, times: Times)
    | Tail

  // -- what they stand for --------------------------------------------------------------

  predicate ClassName(letter: char) {
    letter in "acdglpsuwxz"
  }

  /** The classes by character code. */
  predicate Codes(letter: char, n: int) {
    match letter
    case 'a' => 65 <= n <= 90 || 97 <= n <= 122
    case 'c' => 0 <= n <= 31 || n == 127
    case 'd' => 48 <= n <= 57
    case 'g' => 33 <= n <= 126
    case 'l' => 97 <= n <= 122
    case 'p' => 33 <= n <= 47 || 58 <= n <= 64 || 91 <= n <= 96 || 123 <= n <= 126
    case 's' => n == 32 || 9 <= n <= 13
    case 'u' => 65 <= n <= 90
    case 'w' => 48 <= n <= 57 || 65 <= n <= 90 || 97 <= n <= 122
    case 'x' => 48 <= n <= 57 || 65 <= n <= 70 || 97 <= n <= 102
    case _ => n == 0
  }

  predicate InMember(m: Member, b: char) {
    match m
    case Char(c) => b == c
    case QuotedChar(c) => b == c
    case Named(letter, complement) => Codes(letter, b as int) != complement
    case From(low, high) => low as int <= b as int <= high as int
  }

  predicate InSet(complement: bool, members: seq<Member>, b: char) {
    (exists i :: 0 <= i < |members| && InMember(members[i], b)) != complement
  }

  predicate In(x: Single, b: char) {
    match x
    case Dot => true
    case Plain(c) => b == c
    case Quoted(c) => b == c
    case ClassOf(letter, complement) => Codes(letter, b as int) != complement
    case Set(complement, members) => InSet(complement, members, b)
  }

  predicate May(times: Times, k: nat) {
    match times
    case Once => k == 1
    case ZeroOrMore => true
    case OneOrMore => k >= 1
    case Fewest => true
    case AtMostOne => k <= 1
  }

  /** The character at i belongs to the set; before the start and at the end stands a zero. */
  predicate SetAtBorder(complement: bool, members: seq<Member>, s: string, i: int) {
    InSet(complement, members, if 0 <= i < |s| then s[i] else 0 as char)
  }

  /** The state after a piece takes k characters from si on, if it can. */
  function Over(s: string, x: Piece, k: nat, si: nat, caps: seq<Slot>): (r: Option<(nat, seq<Slot>)>)
    requires si <= |s| && Within(caps, si)
    ensures r.Some? ==> r.value.0 == si + k <= |s| && Within(r.value.1, si + k)
  {
    match x
    case Begin => if k == 0 && |caps| < 32 then Some((si, caps + [Unfinished(si)])) else None
    case Here => if k == 0 && |caps| < 32 then Some((si, caps + [Position(si)])) else None
    case Close =>
      var l := LastOpen(caps);
      if k == 0 && l >= 0 then Some((si, caps[l := Span(caps[l].init, si - caps[l].init)])) else None
    case Balanced(a, b) => if BalancedRun(s, si, k, a, b) then Some((si + k, caps)) else None
    case Border(complement, members) =>
      if k == 0 && SetAtBorder(complement, members, s, si) && !SetAtBorder(complement, members, s, si - 1) then Some((si, caps)) else None
    case Again(n) =>
      if 1 <= n <= |caps| && caps[n - 1].Span? && k == caps[n - 1].len && si + k <= |s| && s[si..si + k] == s[caps[n - 1].init..caps[n - 1].init + k]
      then Some((si + k, caps)) else None
    case Many(single, times) =>
      if May(times, k) && si + k <= |s| && (forall j :: si <= j < si + k ==> In(single, s[j])) then Some((si + k, caps)) else None
    case Tail => None
  }

  /** Where the pieces from i on lead, taking as many characters as path says. */
  function Along(s: string, ps: seq<Piece>, i: nat, si: nat, caps: seq<Slot>, path: seq<nat>): (r: Option<(nat, seq<Slot>)>)
    requires i <= |ps| && si <= |s| && Within(caps, si)
    decreases |ps| - i
  {
    if i == |ps| || ps[i].Tail? then if path == [] && (i == |ps| || si == |s|) then Some((si, caps)) else None
    else if path == [] then None
    else
      match Over(s, ps[i], path[0], si, caps)
      case None => None
      case Some((si1, caps1)) => Along(s, ps, i + 1, si1, caps1, path[1..])
  }

  /** At the first piece where two paths differ a takes more, or fewer where the fewest are wanted. */
  predicate Sooner(ps: seq<Piece>, i: nat, a: seq<nat>, b: seq<nat>)
    requires i <= |ps|
    decreases |ps| - i
  {
    && i < |ps| && !ps[i].Tail? && a != [] && b != []
    && if a[0] == b[0] then Sooner(ps, i + 1, a[1..], b[1..])
       else if ps[i].Many? && ps[i].times.Fewest? then a[0] < b[0] else a[0] > b[0]
  }

  // -- how they are written ------------------------------------------------------------------

  predicate Letters(c: char) {
    'a' <= c <= 'z' || 'A' <= c <= 'Z' || '0' <= c <= '9'
  }

  predicate Magic(c: char) {
    c in "^$()%.[]*+-?"
  }

  function ClassText(letter: char, complement: bool): string
    requires ClassName(letter)
  {
    ['%', if complement then (letter as int - 32) as char else letter]
  }

  predicate GoodMember(m: Member) {
    match m
    case Char(c) => c !in "]%-^"
    case QuotedChar(c) => !Letters(c)
    case Named(letter, _) => ClassName(letter)
    case From(low, high) => low !in "]%-^" && high !in "]%"
  }

  predicate GoodSet(members: seq<Member>) {
    |members| > 0 && forall i :: 0 <= i < |members| ==> GoodMember(members[i])
  }

  predicate GoodSingle(x: Single) {
    match x
    case Dot => true
    case Plain(c) => !Magic(c)
    case Quoted(c) => !Letters(c)
    case ClassOf(letter, _) => ClassName(letter)
    case Set(_, members) => GoodSet(members)
  }

  /** A '()' would be a position, and only the last '$' is the end. */
  predicate GoodAt(ps: seq<Piece>, i: nat)
    requires i < |ps|
  {
    match ps[i]
    case Begin => i + 1 < |ps| ==> !ps[i + 1].Close?
    case Border(_, members) => GoodSet(members)
    case Again(n) => 1 <= n <= 9
    case Many(single, _) => GoodSingle(single)
    case Tail => i == |ps| - 1
    case _ => true
  }

  predicate Good(ps: seq<Piece>) {
    forall i :: 0 <= i < |ps| ==> GoodAt(ps, i)
  }

  function MemberText(m: Member): (t: string)
    requires GoodMember(m)
    ensures |t| > 0
  {
    match m
    case Char(c) => [c]
    case QuotedChar(c) => ['%', c]
    case Named(letter, complement) => ClassText(letter, complement)
    case From(low, high) => [low, '-', high]
  }

  function MembersText(ms: seq<Member>): string
    requires forall i :: 0 <= i < |ms| ==> GoodMember(ms[i])
  {
    if ms == [] then "" else MemberText(ms[0]) + MembersText(ms[1..])
  }

  function SetText(complement: bool, members: seq<Member>): string
    requires GoodSet(members)
  {
    (if complement then "[^" else "[") + MembersText(members) + "]"
  }

  function SingleText(x: Single): (t: string)
    requires GoodSingle(x)
    ensures |t| > 0
  {
    match x
    case Dot => "."
    case Plain(c) => [c]
    case Quoted(c) => ['%', c]
    case ClassOf(letter, complement) => ClassText(letter, complement)
    case Set(complement, members) => SetText(complement, members)
  }

  function TimesText(times: Times): string {
    match times
    case Once => ""
    case ZeroOrMore => "*"
    case OneOrMore => "+"
    case Fewest => "-"
    case AtMostOne => "?"
  }

  function PieceText(ps: seq<Piece>, i: nat): (t: string)
    requires i < |ps| && GoodAt(ps, i)
    ensures |t| > 0
  {
    match ps[i]
    case Begin => "("
    case Close => ")"
    case Here => "()"
    case Balanced(x, y) => "%b" + [x, y]
    case Border(complement, members) => "%f" + SetText(complement, members)
    case Again(n) => ['%', "0123456789"[n]]
    case Many(single, times) => SingleText(single) + TimesText(times)
    case Tail => "$"
  }

  /** The pattern from piece i on. */
  function Text(ps: seq<Piece>, i: nat): string
    requires Good(ps) && i <= |ps|
    decreases |ps| - i
  {
    if i == |ps| then "" else PieceText(ps, i) + Text(ps, i + 1)
  }

  // -- what is written is read back -----------------------------------------------------------

  function MemberElem(m: Member): Elem {
    match m
    case Char(c) => Literal(c)
    case QuotedChar(c) => Literal(c)
    case Named(letter, complement) => Class(letter, complement)
    case From(low, high) => Range(low, high)
  }

  function ElemsOf(ms: seq<Member>): (es: seq<Elem>)
    ensures |es| == |ms| && forall i :: 0 <= i < |ms| ==> es[i] == MemberElem(ms[i])
  {
    seq(|ms|, i requires 0 <= i < |ms| => MemberElem(ms[i]))
  }

  function ElemOf(x: Single): Elem {
    match x
    case Dot => AnyChar
    case Plain(c) => Literal(c)
    case Quoted(c) => Literal(c)
    case ClassOf(letter, complement) => Class(letter, complement)
    case Set(complement, members) => CharSet(ElemsOf(members), complement)
  }

  function RepFor(times: Times): Rep {
    match times
    case Once => One
    case ZeroOrMore => Star
    case OneOrMore => Plus
    case Fewest => Lazy
    case AtMostOne => Opt
  }

  function ItemOf(x: Piece, next: nat): Item
    requires x.Again? ==> x.n >= 1
  {
    match x
    case Begin => OpenCapture(next)
    case Close => CloseCapture(next)
    case Here => PosCapture(next)
    case Balanced(a, b) => Balance(a, b, next)
    case Border(complement, members) => Frontier(CharSet(ElemsOf(members), complement), next)
    case Again(n) => BackRef(n - 1, next)
    case Many(single, times) => Repeat(ElemOf(single), RepFor(times), next)
    case Tail => AtEnd
  }

  predicate TextAt(p: string, i: nat, t: string) {
    i + |t| <= |p| && p[i..i + |t|] == t
  }

  lemma TextChars(p: string, i: nat, t: string)
    requires TextAt(p, i, t)
    ensures forall k: nat :: k < |t| ==> t[k] == p[i + k]
  {
    var q := p[i..i + |t|];
    assert forall k: nat :: k < |q| ==> q[k] == p[i + k];
  }

  lemma TextParts(p: string, i: nat, a: string, b: string)
    requires TextAt(p, i, a + b)
    ensures TextAt(p, i, a) && TextAt(p, i + |a|, b)
  {
    assert p[i..i + |a|] == (a + b)[..|a|] && p[i + |a|..i + |a + b|] == (a + b)[|a|..];
  }

  lemma ClassRead(letter: char, complement: bool)
    requires ClassName(letter)
    ensures Escaped(ClassText(letter, complement)[1]) == Class(letter, complement)
    ensures ClassText(letter, complement)[1] != ']' && !IsDigit(ClassText(letter, complement)[1]) && ClassText(letter, complement)[1] != 'b' && ClassText(letter, complement)[1] != 'f'
  {
  }

  lemma QuotedRead(c: char)
    requires !Letters(c)
    ensures Escaped(c) == Literal(c) && !IsDigit(c) && c != 'b' && c != 'f'
  {
  }

  lemma {:induction false} SetEndRead(p: string, i: nat, ms: seq<Member>)
    requires (forall k :: 0 <= k < |ms| ==> GoodMember(ms[k])) && TextAt(p, i, MembersText(ms) + "]")
    ensures SetEnd(p, i) == i + |MembersText(ms)|
    decreases |ms|
  {
    TextChars(p, i, MembersText(ms) + "]");
    if ms != [] {
      var (m, t) := (ms[0], MemberText(ms[0]));
      assert MembersText(ms) + "]" == t + (MembersText(ms[1..]) + "]");
      TextParts(p, i, t, MembersText(ms[1..]) + "]");
      TextChars(p, i, t);
      SetEndRead(p, i + |t|, ms[1..]);
      MemberSkipped(p, i, m);
    }
  }

  lemma {:induction false} MemberSkipped(p: string, i: nat, m: Member)
    requires GoodMember(m) && TextAt(p, i, MemberText(m))
    ensures SetEnd(p, i) == SetEnd(p, i + |MemberText(m)|)
  {
    var x := MemberText(m);
    TextChars(p, i, x);
    assert x[0] == p[i + 0] && (|x| > 1 ==> x[1] == p[i + 1]) && (|x| > 2 ==> x[2] == p[i + 2]);
    if m.From? {
      assert SetEnd(p, i) == SetEnd(p, i + 1);
      assert SetEnd(p, i + 1) == SetEnd(p, i + 2);
      assert SetEnd(p, i + 2) == SetEnd(p, i + 3);
    } else if |x| == 2 {
      assert SetEnd(p, i) == SetEnd(p, i + 2);
    } else {
      assert SetEnd(p, i) == SetEnd(p, i + 1);
    }
  }

  /** One member of a set, nothing after it being taken for a range. */
  lemma {:induction false} MemberRead(t: string, i: nat, m: Member)
    requires GoodMember(m) && TextAt(t, i, MemberText(m)) && (i + |MemberText(m)| < |t| ==> t[i + |MemberText(m)|] != '-')
    ensures SetElems(t, i) == [MemberElem(m)] + SetElems(t, i + |MemberText(m)|)
  {
    var x := MemberText(m);
    TextChars(t, i, x);
    assert x[0] == t[i + 0] && (|x| > 1 ==> x[1] == t[i + 1]) && (|x| > 2 ==> x[2] == t[i + 2]);
    hide TextAt;
    match m
    case Named(letter, complement) =>
      ClassRead(letter, complement);
      hide Escaped;
    case QuotedChar(c) =>
      QuotedRead(c);
      hide Escaped;
    case _ => hide Escaped;
  }

  lemma {:induction false} ElemsRead(t: string, i: nat, ms: seq<Member>)
    requires (forall k :: 0 <= k < |ms| ==> GoodMember(ms[k])) && i <= |t| && t[i..] == MembersText(ms)
    ensures SetElems(t, i) == ElemsOf(ms)
    decreases |ms|
  {
    if ms == [] {
      NoElems(t, i);
    } else {
      var x := MemberText(ms[0]);
      assert MembersText(ms) == x + MembersText(ms[1..]);
      hide GoodMember, MemberText, SetElems, Escaped, TextAt, MembersText, ElemsOf;
      Tail(t, i, x, MembersText(ms[1..]));
      assert forall k :: 0 <= k < |ms[1..]| ==> ms[1..][k] == ms[k + 1];
      ElemsRead(t, i + |x|, ms[1..]);
      FirstElem(t, i, ms);
    }
  }

  lemma {:induction false} NoElems(t: string, i: nat)
    requires i <= |t| && t[i..] == ""
    ensures SetElems(t, i) == [] && ElemsOf([]) == []
  {
    assert |t[i..]| == |t| - i;
  }

  lemma {:induction false} FirstElem(t: string, i: nat, ms: seq<Member>)
    requires ms != [] && (forall k :: 0 <= k < |ms| ==> GoodMember(ms[k])) && TextAt(t, i, MemberText(ms[0]))
    requires var n := i + |MemberText(ms[0])|; n <= |t| && t[n..] == MembersText(ms[1..]) && SetElems(t, n) == ElemsOf(ms[1..])
    ensures SetElems(t, i) == ElemsOf(ms)
  {
    hide MemberText, SetElems, Escaped, TextAt, MembersText;
    var m := ms[0];
    NoDash(t, i + |MemberText(m)|, ms[1..]);
    MemberRead(t, i, m);
    hide GoodMember;
    assert ElemsOf(ms) == [MemberElem(m)] + ElemsOf(ms[1..]);
  }

  /** A dash after a member would make a range of it. */
  lemma {:induction false} NoDash(t: string, i: nat, ms: seq<Member>)
    requires (forall k :: 0 <= k < |ms| ==> GoodMember(ms[k])) && i <= |t| && t[i..] == MembersText(ms)
    ensures i < |t| ==> t[i] != '-'
  {
    if ms != [] {
      assert t[i] == t[i..][0] == MemberText(ms[0])[0];
    }
  }

  /** The first member of a set is neither '^' nor ']'. */
  lemma {:induction false} MembersBegin(ms: seq<Member>)
    requires GoodSet(ms)
    ensures MembersText(ms) != "" && MembersText(ms)[0] != '^' && MembersText(ms)[0] != ']'
  {
    assert MembersText(ms)[0] == MemberText(ms[0])[0];
  }

  lemma {:induction false} SetRead(p: string, pp: nat, complement: bool, members: seq<Member>)
    requires GoodSet(members) && TextAt(p, pp, SetText(complement, members))
    ensures SetAt(p, pp) == ParsedElem(CharSet(ElemsOf(members), complement), pp + |SetText(complement, members)|)
    ensures p[pp] == '['
  {
    var body := MembersText(members);
    var head := if complement then "[^" else "[";
    assert SetText(complement, members) == head + (body + "]");
    MembersBegin(members);
    hide MembersText, GoodMember, SetEnd, SetElems, SetText;
    TextParts(p, pp, head, body + "]");
    var start := pp + |head|;
    TextParts(p, start, body, "]");
    assert p[start..start + |body|] == body && body[0..] == body;
    HeadRead(p, pp, complement, body);
    SetEndRead(p, start, members);
    ElemsRead(body, 0, members);
    hide TextAt, GoodSet, ElemsOf;
    SetOf(p, pp, complement, start + |body|, ElemsOf(members));
  }

  lemma SetOf(p: string, pp: nat, complement: bool, end: nat, elems: seq<Elem>)
    requires pp < |p| && SetStart(p, pp) == (if complement then pp + 2 else pp + 1) < |p| && p[SetStart(p, pp)] != ']'
    requires SetEnd(p, SetStart(p, pp)) == end < |p| && SetStart(p, pp) <= end && SetElems(p[SetStart(p, pp)..end], 0) == elems
    ensures SetAt(p, pp) == ParsedElem(CharSet(elems, complement), end + 1)
  {
    hide SetEnd, SetElems, SetStart;
  }

  /** A set begins after its bracket and sign. */
  lemma HeadRead(p: string, pp: nat, complement: bool, body: string)
    requires var head := if complement then "[^" else "["; TextAt(p, pp, head) && TextAt(p, pp + |head|, body)
    requires body != "" && body[0] != '^'
    ensures var head := if complement then "[^" else "["; p[pp] == '[' && SetStart(p, pp) == pp + |head| && pp + |head| < |p| && p[pp + |head|] == body[0]
  {
    var head := if complement then "[^" else "[";
    FirstChars(p, pp, head);
    FirstChars(p, pp + |head|, body);
  }

  lemma {:induction false} ElemRead(p: string, pp: nat, x: Single)
    requires GoodSingle(x) && TextAt(p, pp, SingleText(x))
    ensures ElemAt(p, pp) == ParsedElem(ElemOf(x), pp + |SingleText(x)|)
  {
    TextChars(p, pp, SingleText(x));
    var t := SingleText(x);
    assert t[0] == p[pp + 0] && (|t| > 1 ==> t[1] == p[pp + 1]);
    match x
    case Set(complement, members) => SetRead(p, pp, complement, members);
    case ClassOf(letter, complement) => ClassRead(letter, complement);
    case Quoted(c) => QuotedRead(c);
    case _ =>
  }

  /** How a single begins. */
  lemma SingleBegins(x: Single)
    requires GoodSingle(x)
    ensures var t := SingleText(x);
            && t[0] !in "()*+-?$" && (t[0] == '%' ==> |t| == 2 && !IsDigit(t[1]) && t[1] != 'b' && t[1] != 'f')
  {
    match x
    case Set(complement, members) =>
    case ClassOf(letter, complement) => ClassRead(letter, complement);
    case Quoted(c) => QuotedRead(c);
    case _ =>
  }

  lemma PieceBegins(ps: seq<Piece>, i: nat)
    requires i < |ps| && GoodAt(ps, i)
    ensures var c := PieceText(ps, i)[0]; c !in "*+-?" && (c == ')' ==> ps[i].Close?)
  {
    if ps[i].Many? { SingleBegins(ps[i].single); }
  }

  /** What follows a piece neither repeats it nor makes it something else. */
  lemma {:induction false} RestBegins(ps: seq<Piece>, i: nat)
    requires Good(ps) && i <= |ps| && Text(ps, i) != ""
    ensures i < |ps| && Text(ps, i)[0] !in "*+-?" && (Text(ps, i)[0] == ')' ==> ps[i].Close?)
  {
    PieceBegins(ps, i);
  }

  lemma ItemIsRepeat(p: string, pp: nat)
    requires pp < |p| && p[pp] !in "()$" && (p[pp] == '%' ==> pp + 1 < |p| && !IsDigit(p[pp + 1]) && p[pp + 1] != 'b' && p[pp + 1] != 'f')
    ensures ItemAt(p, pp) == RepeatAt(p, pp)
  {
    hide RepeatAt;
  }

  lemma TimesRead(times: Times)
    ensures var m := TimesText(times); if times.Once? then m == "" && RepFor(times) == One else |m| == 1 && RepOf(m[0]) == RepFor(times) != One
    ensures forall c: char :: c !in "*+-?" ==> RepOf(c) == One
  {
  }

  /** A single and its repetition, with the rest of the pattern after it. */
  lemma {:induction false} ManyRead(p: string, pp: nat, x: Single, times: Times)
    requires GoodSingle(x) && TextAt(p, pp, SingleText(x) + TimesText(times))
    requires var n := pp + |SingleText(x) + TimesText(times)|; n < |p| ==> p[n] !in "*+-?"
    ensures ItemAt(p, pp) == Repeat(ElemOf(x), RepFor(times), pp + |SingleText(x) + TimesText(times)|)
  {
    var (t, m) := (SingleText(x), TimesText(times));
    hide ElemAt, SingleText, ElemOf, TimesText, FrontierAt, ItemAt, TextAt, GoodSingle, RepFor, RepOf;
    TextParts(p, pp, t, m);
    FirstChars(p, pp, t);
    ElemRead(p, pp, x);
    SingleBegins(x);
    ItemIsRepeat(p, pp);
    if m != "" { FirstChars(p, pp + |t|, m); }
    ModifierRead(p, pp, pp + |t|, x, times);
  }

  lemma ModifierRead(p: string, pp: nat, next: nat, x: Single, times: Times)
    requires pp < |p| && GoodSingle(x) && ElemAt(p, pp) == ParsedElem(ElemOf(x), next) && next <= |p|
    requires var n := next + |TimesText(times)|; n <= |p| && (n < |p| ==> p[n] !in "*+-?")
    requires TimesText(times) != "" ==> p[next] == TimesText(times)[0]
    ensures RepeatAt(p, pp) == Repeat(ElemOf(x), RepFor(times), next + |TimesText(times)|)
  {
    hide ElemAt, ElemOf;
    TimesRead(times);
  }

  lemma FirstChars(p: string, i: nat, t: string)
    requires TextAt(p, i, t) && t != ""
    ensures i + |t| <= |p| && p[i] == t[0] && (|t| > 1 ==> p[i + 1] == t[1])
  {
    assert p[i] == p[i..i + |t|][0] && (|t| > 1 ==> p[i + 1] == p[i..i + |t|][1]);
  }

  /** The pieces that are no singles, with the rest of the pattern after them. */
  lemma {:induction false} MarkRead(p: string, pp: nat, ps: seq<Piece>, i: nat)
    requires i < |ps| && GoodAt(ps, i) && TextAt(p, pp, PieceText(ps, i)) && !ps[i].Many? && !ps[i].Border?
    requires ps[i].Begin? && pp + 1 < |p| ==> p[pp + 1] != ')'
    requires ps[i].Tail? ==> pp + 1 == |p|
    ensures ItemAt(p, pp) == ItemOf(ps[i], pp + |PieceText(ps, i)|)
  {
    var t := PieceText(ps, i);
    TextChars(p, pp, t);
    assert t[0] == p[pp + 0] && (|t| > 1 ==> t[1] == p[pp + 1]) && (|t| > 2 ==> t[2] == p[pp + 2]) && (|t| > 3 ==> t[3] == p[pp + 3]);
    hide RepeatAt, FrontierAt, TextAt;
    match ps[i]
    case Again(n) => assert '1' <= "0123456789"[n] <= '9' && "0123456789"[n] as int - '1' as int == n - 1;
    case _ =>
  }

  lemma {:induction false} BorderRead(p: string, pp: nat, complement: bool, members: seq<Member>)
    requires GoodSet(members) && TextAt(p, pp, "%f" + SetText(complement, members))
    ensures ItemAt(p, pp) == Frontier(CharSet(ElemsOf(members), complement), pp + 2 + |SetText(complement, members)|)
  {
    TextParts(p, pp, "%f", SetText(complement, members));
    TextChars(p, pp, "%f");
    SetRead(p, pp + 2, complement, members);
    hide SetAt, SetText, RepeatAt;
  }

  /** The text of a pattern from a place on, and what it begins with. */
  lemma {:induction false} TextSplit(p: string, pp: nat, ps: seq<Piece>, i: nat)
    requires Good(ps) && i < |ps| && pp <= |p| && p[pp..] == Text(ps, i)
    ensures GoodAt(ps, i)
    ensures var next := pp + |PieceText(ps, i)|;
            && next <= |p| && p[next..] == Text(ps, i + 1) && TextAt(p, pp, PieceText(ps, i))
            && (next < |p| ==> p[next] !in "*+-?" && (p[next] == ')' ==> i + 1 < |ps| && ps[i + 1].Close?)) && (i + 1 == |ps| ==> next == |p|)
  {
    assert GoodAt(ps, i);
    var (t, rest) := (PieceText(ps, i), Text(ps, i + 1));
    assert p[pp..] == t + rest;
    if rest != "" { RestBegins(ps, i + 1); }
    assert i + 1 == |ps| ==> rest == "";
    hide Good, GoodAt, PieceText, Text;
    Tail(p, pp, t, rest);
  }

  lemma Tail(p: string, pp: nat, t: string, rest: string)
    requires pp <= |p| && p[pp..] == t + rest
    ensures pp + |t| <= |p| && p[pp + |t|..] == rest && TextAt(p, pp, t) && (if rest == "" then pp + |t| == |p| else pp + |t| < |p| && p[pp + |t|] == rest[0])
  {
    var next := pp + |t|;
    assert p[next..] == p[pp..][|t|..] && p[pp..next] == p[pp..][..|t|];
    assert |p[next..]| == |rest|;
    if rest != "" { assert p[next] == p[next..][0]; }
  }

  /** Each piece of a pattern is read as what it was written for. */
  lemma {:induction false} PieceRead(p: string, pp: nat, ps: seq<Piece>, i: nat)
    requires Good(ps) && i < |ps| && pp <= |p| && p[pp..] == Text(ps, i)
    ensures GoodAt(ps, i)
    ensures var next := pp + |PieceText(ps, i)|;
            next <= |p| && p[next..] == Text(ps, i + 1) && ItemAt(p, pp) == ItemOf(ps[i], next)
  {
    TextSplit(p, pp, ps, i);
    hide ItemAt, SingleText, SetText, GoodSingle, GoodSet, Text, Good, TextAt;
    match ps[i] {
      case Many(x, times) => ManyRead(p, pp, x, times);
      case Border(complement, members) => BorderRead(p, pp, complement, members);
      case _ => MarkRead(p, pp, ps, i);
    }
  }

  lemma {:induction false} EndRead(p: string, pp: nat, ps: seq<Piece>)
    requires Good(ps) && pp <= |p| && p[pp..] == Text(ps, |ps|)
    ensures ItemAt(p, pp) == Done
  {
    assert |p[pp..]| == 0;
  }

  // -- and means what it was written for -----------------------------------------------------

  lemma ClassIs(letter: char, b: char)
    requires ClassName(letter)
    ensures InClass(letter, b) <==> Codes(letter, b as int)
  {
  }

  lemma {:induction false} MemberIs(m: Member, b: char)
    requires GoodMember(m)
    ensures Accepts(MemberElem(m), b) <==> InMember(m, b)
  {
    if m.Named? { ClassIs(m.letter, b); }
    hide InClass, Codes;
  }

  lemma {:induction false} SetIs(complement: bool, members: seq<Member>, b: char)
    requires GoodSet(members)
    ensures Accepts(CharSet(ElemsOf(members), complement), b) <==> InSet(complement, members, b)
  {
    var es := ElemsOf(members);
    forall i | 0 <= i < |members| ensures Accepts(es[i], b) <==> InMember(members[i], b) {
      MemberIs(members[i], b);
    }
    hide GoodMember, InMember, MemberElem;
    assert (exists i :: 0 <= i < |es| && Accepts(es[i], b)) <==> (exists i :: 0 <= i < |members| && InMember(members[i], b));
  }

  /** The characters a single accepts are the manual's. */
  lemma {:induction false} SingleIs(x: Single, b: char)
    requires GoodSingle(x)
    ensures Accepts(ElemOf(x), b) <==> In(x, b)
  {
    match x
    case ClassOf(letter, _) => ClassIs(letter, b);
    case Set(complement, members) => SetIs(complement, members, b);
    case _ =>
  }

  lemma {:induction false} TakeIsOver(s: string, ps: seq<Piece>, i: nat, next: nat, k: nat, si: nat, caps: seq<Slot>)
    requires i < |ps| && GoodAt(ps, i) && si <= |s| && Within(caps, si)
    ensures Take(s, ItemOf(ps[i], next), k, si, caps) == Over(s, ps[i], k, si, caps)
  {
    match ps[i]
    case Many(x, times) =>
      forall b: char ensures Accepts(ElemOf(x), b) <==> In(x, b) { SingleIs(x, b); }
      hide Accepts, In, ElemOf, GoodSingle;
    case Border(complement, members) =>
      forall b: char ensures Accepts(CharSet(ElemsOf(members), complement), b) <==> InSet(complement, members, b) { SetIs(complement, members, b); }
      hide Accepts, InSet, GoodSet;
    case _ => hide BalancedRun;
  }

  /** Following a written pattern is following its pieces. */
  lemma {:induction false} FollowIsAlong(s: string, p: string, pp: nat, ps: seq<Piece>, i: nat, si: nat, caps: seq<Slot>, path: seq<nat>)
    requires Good(ps) && i <= |ps| && pp <= |p| && p[pp..] == Text(ps, i) && si <= |s| && Within(caps, si)
    ensures Follow(s, p, pp, si, caps, path) == Along(s, ps, i, si, caps, path)
    decreases |ps| - i
  {
    hide Take, Over, ItemAt, Good, Text, PieceText;
    if i == |ps| {
      EndRead(p, pp, ps);
    } else {
      PieceRead(p, pp, ps, i);
      if path != [] && !ps[i].Tail? {
        var next := pp + |PieceText(ps, i)|;
        TakeIsOver(s, ps, i, next, path[0], si, caps);
        var r := Over(s, ps[i], path[0], si, caps);
        if r.Some? { FollowIsAlong(s, p, next, ps, i + 1, r.value.0, r.value.1, path[1..]); }
      }
    }
  }

  lemma {:induction false} PreferredIsSooner(p: string, pp: nat, ps: seq<Piece>, i: nat, a: seq<nat>, b: seq<nat>)
    requires Good(ps) && i <= |ps| && pp <= |p| && p[pp..] == Text(ps, i)
    ensures Preferred(p, pp, a, b) <==> Sooner(ps, i, a, b)
    decreases |ps| - i
  {
    hide ItemAt, Good, Text, PieceText;
    if i == |ps| {
      EndRead(p, pp, ps);
    } else {
      PieceRead(p, pp, ps, i);
      if a != [] && b != [] && a[0] == b[0] && !ps[i].Tail? {
        PreferredIsSooner(p, pp + |PieceText(ps, i)|, ps, i + 1, a[1..], b[1..]);
      }
    }
  }

  /** Where path leads is the end of the match, and no other way through the pieces comes sooner. */
  ghost predicate Chosen(s: string, ps: seq<Piece>, si: nat, o: Outcome, path: seq<nat>)
    requires si <= |s|
  {
    match o
    case End(e, caps) =>
      && Along(s, ps, 0, si, [], path) == Some((e, caps))
      && forall q :: Along(s, ps, 0, si, [], q).Some? && q != path ==> Sooner(ps, 0, path, q)
    case Fail => forall q :: Along(s, ps, 0, si, [], q).None?
    case Panic(_) => true
  }

  /** A written pattern matches what its pieces mean: the way the manual prefers, or nothing if there is none. */
  lemma {:induction false} WrittenMatches(s: string, ps: seq<Piece>, si: nat, depth: nat) returns (path: seq<nat>)
    requires Good(ps) && si <= |s|
    ensures Chosen(s, ps, si, Enter(s, Text(ps, 0), 0, si, [], depth), path)
  {
    var p := Text(ps, 0);
    path := EnterIsBest(s, p, 0, si, [], depth);
    assert p[0..] == p;
    hide Enter, Follow, Along, Preferred, Sooner, Text, Good;
    forall q ensures Follow(s, p, 0, si, [], q) == Along(s, ps, 0, si, [], q) {
      FollowIsAlong(s, p, 0, ps, 0, si, [], q);
    }
    forall q ensures Preferred(p, 0, path, q) <==> Sooner(ps, 0, path, q) {
      PreferredIsSooner(p, 0, ps, 0, path, q);
    }
  }

  // -- one repeated character -------------------------------------------------------------------

  /** The longest run of a single's characters from si on ends at e. */
  predicate RunTo(s: string, x: Single, si: nat, e: nat) {
    si <= e <= |s| && (forall j :: si <= j < e ==> In(x, s[j])) && (e < |s| ==> !In(x, s[e]))
  }

  /** Where the match of a repeated single ends; e: the end of the longest run. */
  function Expected(times: Times, si: nat, e: nat): Outcome
    requires si <= e
  {
    match times
    case Once => if e > si then End(si + 1, []) else Fail
    case ZeroOrMore => End(e, [])
    case OneOrMore => if e > si then End(e, []) else Fail
    case Fewest => End(si, [])
    case AtMostOne => End(if e > si then si + 1 else si, [])
  }

  lemma {:induction false} RunIs(s: string, x: Single, si: nat, e: nat)
    requires GoodSingle(x) && RunTo(s, x, si, e)
    ensures MaxRun(ElemOf(x), s, si) == e - si
    decreases e - si
  {
    if si < |s| { SingleIs(x, s[si]); }
    hide In, Accepts, GoodSingle;
    if si < e { RunIs(s, x, si + 1, e); }
  }

  /** x takes one, x* the longest run, x+ the same but at least one, x- none, x? at most one. */
  lemma {:induction false} RepeatedSingle(s: string, x: Single, times: Times, si: nat, e: nat)
    requires GoodSingle(x) && RunTo(s, x, si, e)
    ensures Enter(s, SingleText(x) + TimesText(times), 0, si, [], 0) == Expected(times, si, e)
  {
    var p := SingleText(x) + TimesText(times);
    ManyRead(p, 0, x, times);
    assert ItemAt(p, |p|) == Done;
    RunIs(s, x, si, e);
    RunStarts(ElemOf(x), s, si);
    hide ItemAt, Accepts, MaxRun, SingleText, TimesText, In, ElemOf, Enter, First;
    RepeatEnds(s, p, ElemOf(x), times, si, e);
  }

  lemma {:induction false} RepeatEnds(s: string, p: string, el: Elem, times: Times, si: nat, e: nat)
    requires si <= e <= |s| && ItemAt(p, 0) == Repeat(el, RepFor(times), |p|) && ItemAt(p, |p|) == Done
    requires MaxRun(el, s, si) == e - si && (e > si <==> si < |s| && Accepts(el, s[si]))
    ensures Enter(s, p, 0, si, [], 0) == Expected(times, si, e)
  {
    var n := |p|;
    hide ItemAt, Accepts, MaxRun;
    EndsThere(s, p, si, e);
    assert Enter(s, p, 0, si, [], 0) == First(s, p, 0, si, [], 1);
    assert First(s, p, n, si, [], 1) == End(si, []);
    if e > si {
      RunEnds(s, p, n, si, e - si);
      LazyEnds(s, p, el, si);
      assert Enter(s, p, n, si + 1, [], 1) == End(si + 1, []) && First(s, p, n, si + 1, [], 1) == End(si + 1, []);
      match times
      case ZeroOrMore => assert First(s, p, 0, si, [], 1) == Greedy(s, p, n, si, e - si, 0, [], 1);
      case OneOrMore => assert First(s, p, 0, si, [], 1) == Greedy(s, p, n, si, e - si, 1, [], 1);
      case Fewest => assert First(s, p, 0, si, [], 1) == LazyRun(s, p, n, el, si, [], 1);
      case _ =>
    }
  }

  lemma {:induction false} LazyEnds(s: string, p: string, el: Elem, si: nat)
    requires si <= |s| && ItemAt(p, |p|) == Done
    ensures LazyRun(s, p, |p|, el, si, [], 1) == End(si, [])
  {
    EndsThere(s, p, si, si);
    assert Enter(s, p, |p|, si, [], 1) == End(si, []);
    hide Enter, First, ItemAt, Accepts;
  }

  lemma {:induction false} RunEnds(s: string, p: string, n: nat, si: nat, count: nat)
    requires n == |p| && ItemAt(p, |p|) == Done && si + count <= |s| && count >= 1
    ensures Greedy(s, p, n, si, count, 0, [], 1) == End(si + count, []) && Greedy(s, p, n, si, count, 1, [], 1) == End(si + count, [])
  {
    EndsThere(s, p, si, si + count);
    assert Enter(s, p, n, si + count, [], 1) == End(si + count, []);
    hide Enter, First, ItemAt;
  }

  /** At the end of the pattern the match ends wherever it is. */
  lemma {:induction false} EndsThere(s: string, p: string, si: nat, e: nat)
    requires ItemAt(p, |p|) == Done && si <= e <= |s|
    ensures forall k: nat, d: nat :: k <= |s| && d < 200 ==> Enter(s, p, |p|, k, [], d) == End(k, [])
    ensures forall k: nat, d: nat :: k <= |s| ==> First(s, p, |p|, k, [], d) == End(k, [])
  {
  }
}
