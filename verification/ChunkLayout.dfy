/**
 What a chunk looks like, byte by byte where the reference fixes it: the header
 with its sample numbers, numbers in groups of seven bits, and vectors of words at
 multiples of four bytes.
*/
module ChunkLayout {
  import opened ChunkFormat
  import opened ChunkReader
  import opened ChunkRoundTrip

  predicate Spells(bs: seq<Byte>, t: string) {
    |bs| == |t| && forall k :: 0 <= k < |t| ==> bs[k] == t[k] as int
  }

  /** n bytes, the least significant first, hold x in two's complement. */
  predicate Holds(bs: seq<Byte>, n: nat, x: int) {
    |bs| == n && FromLittleEndian(bs) == if x < 0 then x + Power256(n) else x
  }

  /** The bits of the number -370.5: sign 1, exponent 8 over the bias of 1023, and 370.5 / 2^8 = 1 + m / 2^52. */
  predicate IsSample(bits: nat) {
    bits / 0x8000_0000_0000_0000 == 1 && bits / 0x10_0000_0000_0000 % 0x800 == 1023 + 8
    && 2 * (0x10_0000_0000_0000 + bits % 0x10_0000_0000_0000) == 741 * 0x1000_0000_0000
  }

  /** Signature, version 5.5, format 0 and the conversion check. */
  predicate Signed(d: seq<Byte>) {
    && |d| == 12 && d[0] == 27 && Spells(d[1..4], "Lua") && d[4] == 5 * 16 + 5 && d[5] == 0
    && d[6] == 0x19 && d[7] == 0x93 && Spells(d[8..10], "\r\n") && d[10] == 0x1a && Spells(d[11..12], "\n")
  }

  /** The size of a number and a sample of it. */
  predicate Sized(d: seq<Byte>, n: nat, x: int) {
    |d| == n + 1 && d[0] == n && Holds(d[1..], n, x)
  }

  /** The signature, and the sizes and samples of an int, an instruction, an integer and a float. */
  predicate Begins(d: seq<Byte>) {
    && |d| >= 40 && Signed(d[..12])
    && Sized(d[12..17], 4, -0x5678) && Sized(d[17..22], 4, 0x1234_5678) && Sized(d[22..31], 8, -0x5678)
    && d[31] == 8 && IsSample(FromLittleEndian(d[32..40]))
  }

  function Sum(a: nat, b: nat, c: nat, d: nat): nat {
    a + 0x100 * b + 0x1_0000 * c + 0x100_0000 * d
  }

  lemma {:induction false} Four(a: Byte, b: Byte, c: Byte, d: Byte, rest: seq<Byte>)
    ensures FromLittleEndian([a, b, c, d] + rest) == Sum(a, b, c, d) + 0x1_0000_0000 * FromLittleEndian(rest)
  {
    var bs := [a, b, c, d] + rest;
    assert bs[1..] == [b, c, d] + rest && bs[1..][1..] == [c, d] + rest && bs[1..][1..][1..] == [d] + rest && bs[1..][1..][1..][1..] == rest;
    assert FromLittleEndian(bs[1..][1..][1..]) == d + 256 * FromLittleEndian(rest);
    assert FromLittleEndian(bs[1..][1..]) == c + 256 * FromLittleEndian(bs[1..][1..][1..]);
  }

  lemma {:induction false} Eight(a: seq<Byte>, b: seq<Byte>)
    requires |a| == 4 && |b| == 4
    ensures FromLittleEndian(a) == Sum(a[0], a[1], a[2], a[3])
    ensures FromLittleEndian(a + b) == Sum(a[0], a[1], a[2], a[3]) + 0x1_0000_0000 * Sum(b[0], b[1], b[2], b[3])
  {
    var none: seq<Byte> := [];
    Four(a[0], a[1], a[2], a[3], b);
    Four(a[0], a[1], a[2], a[3], none);
    Four(b[0], b[1], b[2], b[3], none);
    assert [a[0], a[1], a[2], a[3]] == a && [b[0], b[1], b[2], b[3]] == b && a + none == a && b + none == b;
  }

  lemma Powers256()
    ensures Power256(4) == 0x1_0000_0000 && Power256(8) == 0x1_0000_0000_0000_0000
  {
    assert Power256(2) == 0x1_0000 && Power256(6) == 0x1_0000_0000_0000;
  }

  lemma SmallSamples()
    ensures Sized(INT_INFO, 4, -0x5678) && Sized(INSTRUCTION_INFO, 4, 0x1234_5678)
  {
    Powers256();
    Eight(INT_INFO[1..], INT_INFO[1..]);
    Eight(INSTRUCTION_INFO[1..], INSTRUCTION_INFO[1..]);
    hide FromLittleEndian, Power256;
  }

  lemma IntegerSample()
    ensures Sized(INTEGER_INFO, 8, -0x5678)
  {
    Powers256();
    var a, b := INTEGER_INFO[1..5], INTEGER_INFO[5..];
    Eight(a, b);
    hide FromLittleEndian, Power256;
    assert INTEGER_INFO[1..] == a + b;
  }

  lemma SampleBits()
    ensures IsSample(0xC077_2800_0000_0000)
  {
  }

  lemma NumberParts()
    ensures NUMBER_INFO[1..] == [0, 0, 0, 0] + [0, 0x28, 0x77, 0xC0]
  {
  }

  lemma NumberSample()
    ensures IsSample(FromLittleEndian(NUMBER_INFO[1..]))
  {
    var a: seq<Byte> := [0, 0, 0, 0];
    var b: seq<Byte> := [0, 0x28, 0x77, 0xC0];
    NumberParts();
    hide FromLittleEndian, IsSample, NUMBER_INFO;
    Eight(a, b);
    SampleBits();
  }

  lemma Parts(a: seq<Byte>, b: seq<Byte>, c: seq<Byte>, d: seq<Byte>, e: seq<Byte>)
    requires |a| == 12 && |b| == 5 && |c| == 5 && |d| == 9 && |e| == 9
    ensures var h := a + b + c + d + e;
            |h| == 40 && h[..12] == a && h[12..17] == b && h[17..22] == c && h[22..31] == d && h[31] == e[0] && h[32..40] == e[1..]
  {
  }

  lemma HeaderBegins()
    ensures |HEADER| == 40 && Begins(HEADER)
  {
    SmallSamples();
    IntegerSample();
    NumberSample();
    assert Signed(SIGNATURE);
    assert NUMBER_INFO[0] == 8 && |SIGNATURE| == 12 && |INT_INFO| == 5 && |INSTRUCTION_INFO| == 5 && |INTEGER_INFO| == 9 && |NUMBER_INFO| == 9;
    hide Signed, Sized, IsSample, FromLittleEndian, SIGNATURE, INT_INFO, INSTRUCTION_INFO, INTEGER_INFO, NUMBER_INFO;
    Parts(SIGNATURE, INT_INFO, INSTRUCTION_INFO, INTEGER_INFO, NUMBER_INFO);
  }

  lemma BeginsLonger(d: seq<Byte>, e: seq<Byte>)
    requires Begins(d) && d <= e
    ensures Begins(e)
  {
    hide Signed, Sized, IsSample;
    assert e[..12] == d[..12] && e[12..17] == d[12..17] && e[17..22] == d[17..22] && e[22..31] == d[22..31] && e[32..40] == d[32..40];
  }

  /** Every dump begins so, goes on with the number of upvalues, and nothing that begins otherwise is loaded. */
  lemma {:induction false} HeaderIs(p: Proto, strip: bool, data: seq<Byte>)
    requires InRange(p)
    ensures var d := Dump(p, strip); Begins(d) && |d| > 40 && d[40] == |p.upvals| % 256
    ensures Undump(data).Ok? ==> Begins(data)
  {
    HeaderBegins();
    hide Begins, PutFunction, ReadFunction;
    var w1 := PutByte(Writer(HEADER, []), AsByte(|p.upvals|));
    FunctionRoundTrip(w1, p, strip, []);
    var d := Dump(p, strip);
    assert w1.out < d && HEADER < d && d[40] == w1.out[40];
    BeginsLonger(HEADER, d);
    if Undump(data).Ok? { BeginsLonger(HEADER, data); }
  }

  // -- numbers and vectors --------------------------------------------------------------------

  /** The number that groups of seven bits stand for, the most significant first. */
  function Value(bs: seq<Byte>): int {
    if bs == [] then 0 else 128 * Value(bs[..|bs| - 1]) + bs[|bs| - 1] % 128
  }

  lemma {:induction false} GroupsAre(x: nat)
    ensures var g := Groups(x); Value(g) == x && (forall k :: 0 <= k < |g| ==> g[k] >= 128) && (x > 0 ==> g != [] && g[0] > 128)
  {
    if x > 0 {
      GroupsAre(x / 128);
      var g := Groups(x);
      assert g[..|g| - 1] == Groups(x / 128);
    }
  }

  lemma {:induction false} LastGroup(h: seq<Byte>, x: nat)
    requires Value(h) == x / 128
    ensures Value(h + [x % 128]) == x
  {
    var g := h + [x % 128];
    assert g[..|g| - 1] == h && g[|g| - 1] == x % 128;
  }

  /** A number is written in groups of seven bits, as few as possible, the top bit marking all but the last. */
  lemma VarintIs(w: W, x: nat)
    ensures var (a, b) := (w.out, PutVarint(w, x).out);
            && a <= b && var g := b[|a|..];
            && g != [] && Value(g) == x && g[|g| - 1] < 128 && (forall k :: 0 <= k < |g| - 1 ==> g[k] >= 128) && (|g| > 1 ==> g[0] > 128)
  {
    GroupsAre(x / 128);
    LastGroup(Groups(x / 128), x);
    hide Groups, Value;
    var g := Groups(x / 128) + [x % 128];
    assert (w.out + g)[|w.out|..] == g;
  }

  /** The words of a function's code, and of its absolute lines, begin at a multiple of four, after less than four zeros. */
  lemma AlignIs(w: W)
    ensures var (a, b) := (w.out, PutAlign(w).out);
            a <= b && |b| % 4 == 0 && |b| < |a| + 4 && forall k :: |a| <= k < |b| ==> b[k] == 0
  {
  }

  /** A function without a source is given the reference's name for that. */
  lemma {:induction false} StrippedIs(p: Proto)
    ensures Spells(Loaded(p, true).source, "=?") && Loaded(p, true).lines == [] && Loaded(p, true).locals == []
  {
  }

  /** The bits of the vararg flag: 1 for hidden arguments, 2 for a named table of them. */
  lemma FlagIs(p: Proto)
    ensures Flag(p) == (if p.named then 2 else if p.isVarArg then 1 else 0)
  {
  }
}
