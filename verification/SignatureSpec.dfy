/** The mock signature as the end-to-end client computes it (CounterE2E.kt), and how it parses. */
module SignatureSpec {
  import opened Wrappers
  import opened CounterState

  const VERSION: byte := 0x01

  function Pow2(n: nat): nat {
    if n == 0 then 1 else 2 * Pow2(n - 1)
  }

  // Exclusive or of the low `bits` bits, lowest first.
  function XorBits(a: nat, b: nat, bits: nat): (r: nat)
    ensures r < Pow2(bits)
  {
    if bits == 0 then 0
    else (if a % 2 == b % 2 then 0 else 1) + 2 * XorBits(a / 2, b / 2, bits - 1)
  }

  function BitsOfByte(): (n: nat)
    ensures Pow2(n) == 256 && n > 0
  {
    assert Pow2(4) == 16 && Pow2(8) == 16 * Pow2(4);
    8
  }

  function Xor(a: byte, b: byte): byte {
    XorBits(a, b, BitsOfByte())
  }

  /** The low byte of a short, which is also its cast to byte read as unsigned. */
  function LowByte(x: short): byte {
    x % 256
  }

  function LowBits(a: nat, n: nat): (r: nat)
    ensures r < Pow2(n)
  {
    if n == 0 then 0 else a % 2 + 2 * LowBits(a / 2, n - 1)
  }

  // `& 0x7F`
  function ClearTop(a: byte): (r: byte)
    ensures r < 0x80
  {
    LowBits(a, BitsOfByte() - 1)
  }

  function PartLen(challenge: Bytes): nat {
    if |challenge| > 8 then 8 else |challenge|
  }

  function RawFirst(challenge: Bytes, counter: short): (part: Bytes)
    ensures |part| == PartLen(challenge)
  {
    seq(PartLen(challenge), i requires 0 <= i < PartLen(challenge) =>
      Xor(Xor(challenge[i], VERSION), LowByte(counter)))
  }

  function FromEnd(s: Bytes, i: nat): byte
    requires i < |s|
  {
    s[|s| - 1 - i]
  }

  function RawSecond(challenge: Bytes, limit: short): (part: Bytes)
    ensures |part| == PartLen(challenge)
  {
    seq(PartLen(challenge), i requires 0 <= i < PartLen(challenge) =>
      Xor(Xor(FromEnd(challenge, i), LowByte(limit)), 0x5A))
  }

  function ClearFirst(part: Bytes): (r: Bytes)
    ensures |r| == |part|
  {
    if part == [] then [] else part[0 := ClearTop(part[0])]
  }

  function FirstPart(challenge: Bytes, counter: short): (part: Bytes)
    ensures |part| == PartLen(challenge)
  {
    ClearFirst(RawFirst(challenge, counter))
  }

  function SecondPart(challenge: Bytes, limit: short): (part: Bytes)
    ensures |part| == PartLen(challenge)
  {
    ClearFirst(RawSecond(challenge, limit))
  }

  function ExpectedMockSignature(challenge: Bytes, counter: short, limit: short): Bytes {
    var n := PartLen(challenge);
    [0x30, 4 + 2 * n] + [0x02, n] + FirstPart(challenge, counter) + [0x02, n] + SecondPart(challenge, limit)
  }

  /** Reads one tag-length-value item: the value and what follows it. */
  function ReadItem(tag: byte, s: Bytes): Option<(Bytes, Bytes)> {
    if |s| < 2 || s[0] != tag || s[1] >= 0x80 || |s| < 2 + s[1] as nat then None
    else Some((s[2..2 + s[1] as nat], s[2 + s[1] as nat..]))
  }

  /** Exactly two integers. */
  function ParsePair(body: Bytes): Option<(Bytes, Bytes)> {
    match ReadItem(0x02, body)
    case None => None
    case Some((first, body')) =>
      match ReadItem(0x02, body')
      case None => None
      case Some((second, end)) => if end != [] then None else Some((first, second))
  }

  /** A sequence of exactly two integers. */
  function ParseSignature(s: Bytes): Option<(Bytes, Bytes)> {
    match ReadItem(0x30, s)
    case None => None
    case Some((body, rest)) => if rest != [] then None else ParsePair(body)
  }

  lemma ItemBack(tag: byte, value: Bytes, rest: Bytes)
    requires |value| < 0x80
    ensures ReadItem(tag, [tag, |value|] + value + rest) == Some((value, rest))
  {
    var s := [tag, |value|] + value + rest;
    assert s[2..2 + |value|] == value && s[2 + |value|..] == rest;
  }

  lemma PairParses(first: Bytes, second: Bytes, n: byte)
    requires |first| == |second| == n < 0x20
    ensures ParsePair([0x02, n] + first + ([0x02, n] + second)) == Some((first, second))
  {
    ItemBack(0x02, first, [0x02, n] + second);
    assert [0x02, n] + second == [0x02, n] + second + [];
    ItemBack(0x02, second, []);
  }

  // The nested lengths are right: the signature parses back into its two parts of min(len, 8)
  // bytes, neither of which reads as a negative integer.
  lemma SignatureParses(challenge: Bytes, counter: short, limit: short)
    requires challenge != []
    ensures var first, second := FirstPart(challenge, counter), SecondPart(challenge, limit);
            && ParseSignature(ExpectedMockSignature(challenge, counter, limit)) == Some((first, second))
            && |first| == |second| == (if |challenge| > 8 then 8 else |challenge|)
            && first[0] < 0x80 && second[0] < 0x80
  {
    var n := PartLen(challenge);
    var first, second := FirstPart(challenge, counter), SecondPart(challenge, limit);
    var body := [0x02, n] + first + ([0x02, n] + second);
    assert ExpectedMockSignature(challenge, counter, limit) == [0x30, |body|] + body + [];
    ItemBack(0x30, body, []);
    PairParses(first, second, n);
  }

  lemma XorHalves(a: nat, b: nat, bits: nat)
    requires bits > 0
    ensures XorBits(a, b, bits) / 2 == XorBits(a / 2, b / 2, bits - 1)
    ensures XorBits(a, b, bits) % 2 == if a % 2 == b % 2 then 0 else 1
  {
  }

  lemma LowHalves(a: nat, n: nat)
    requires n > 0
    ensures LowBits(a, n) / 2 == LowBits(a / 2, n - 1) && LowBits(a, n) % 2 == a % 2
  {
  }

  lemma LowOfHalves(x: nat, y: nat, n: nat)
    requires n > 0 && x % 2 == y % 2 && LowBits(x / 2, n - 1) == LowBits(y / 2, n - 1)
    ensures LowBits(x, n) == LowBits(y, n)
  {
  }

  lemma {:induction false} XorBitsTwice(a: nat, b: nat, bits: nat)
    requires a < Pow2(bits)
    ensures XorBits(XorBits(a, b, bits), b, bits) == a
  {
    if bits > 0 {
      XorHalves(a, b, bits);
      XorHalves(XorBits(a, b, bits), b, bits);
      XorBitsTwice(a / 2, b / 2, bits - 1);
    }
  }

  lemma XorTwice(a: byte, b: byte)
    ensures Xor(Xor(a, b), b) == a
  {
    XorBitsTwice(a, b, BitsOfByte());
  }

  // The low bits of an exclusive or are those of its operands.
  lemma {:induction false} XorLow(a: nat, c: nat, b: nat, bits: nat, low: nat)
    requires low <= bits && LowBits(a, low) == LowBits(c, low)
    ensures LowBits(XorBits(a, b, bits), low) == LowBits(XorBits(c, b, bits), low)
  {
    if low > 0 {
      LowHalves(a, low);
      LowHalves(c, low);
      XorHalves(a, b, bits);
      XorHalves(c, b, bits);
      XorLow(a / 2, c / 2, b / 2, bits - 1, low - 1);
      LowOfHalves(XorBits(a, b, bits), XorBits(c, b, bits), low);
    }
  }

  lemma {:induction false} LowBitsTwice(a: nat, n: nat)
    ensures LowBits(LowBits(a, n), n) == LowBits(a, n)
  {
    if n > 0 {
      LowHalves(a, n);
      LowBitsTwice(a / 2, n - 1);
    }
  }

  lemma SameButTop(a: byte, c: byte, b: byte)
    requires ClearTop(a) == ClearTop(c)
    ensures ClearTop(Xor(a, b)) == ClearTop(Xor(c, b))
  {
    XorLow(a, c, b, BitsOfByte(), BitsOfByte() - 1);
  }

  // Undoing two exclusive ors of which only the top bit has been lost.
  lemma UndoButTop(x: byte, b: byte, c: byte)
    ensures ClearTop(Xor(Xor(ClearTop(Xor(Xor(x, b), c)), c), b)) == ClearTop(x)
  {
    var mixed := Xor(Xor(x, b), c);
    LowBitsTwice(mixed, BitsOfByte() - 1);
    SameButTop(ClearTop(mixed), mixed, c);
    XorTwice(Xor(x, b), c);
    SameButTop(Xor(ClearTop(mixed), c), Xor(x, b), b);
    XorTwice(x, b);
  }

  // The signature gives the challenge away, counter and limit known: the first bytes of its two
  // parts up to the top bit that is cleared in them, the others whole.
  lemma SignatureDeterminesChallenge(challenge: Bytes, counter: short, limit: short, i: nat)
    requires i < PartLen(challenge)
    ensures var first := Xor(Xor(FirstPart(challenge, counter)[i], LowByte(counter)), VERSION);
            if i == 0 then ClearTop(first) == ClearTop(challenge[0]) else first == challenge[i]
    ensures var second, last := Xor(Xor(SecondPart(challenge, limit)[i], 0x5A), LowByte(limit)), |challenge| - 1;
            if i == 0 then ClearTop(second) == ClearTop(challenge[last]) else second == challenge[last - i]
  {
    var last := challenge[|challenge| - 1 - i];
    if i == 0 {
      UndoButTop(challenge[0], VERSION, LowByte(counter));
      UndoButTop(last, LowByte(limit), 0x5A);
    } else {
      XorTwice(Xor(challenge[i], VERSION), LowByte(counter));
      XorTwice(challenge[i], VERSION);
      XorTwice(Xor(last, LowByte(limit)), 0x5A);
      XorTwice(last, LowByte(limit));
    }
  }

  // Clearing the top bit leaves the rest of the byte.
  lemma {:induction false} LowBitsBelow(a: nat, n: nat)
    requires a < 2 * Pow2(n)
    ensures LowBits(a, n) == if a < Pow2(n) then a else a - Pow2(n)
  {
    if n > 0 {
      LowBitsBelow(a / 2, n - 1);
    }
  }

  lemma ClearTopIs(a: byte)
    ensures ClearTop(a) == a % 0x80
  {
    LowBitsBelow(a, BitsOfByte() - 1);
    assert Pow2(BitsOfByte()) == 2 * Pow2(BitsOfByte() - 1);
  }

  lemma MixedHalves(a: nat, b: nat, d: nat, bits: nat)
    requires bits > 0
    ensures var mixed := XorBits(XorBits(a, b, bits), d, bits);
            && mixed / 2 == XorBits(XorBits(a / 2, b / 2, bits - 1), d / 2, bits - 1)
            && mixed % 2 == (a % 2 + b % 2 + d % 2) % 2
  {
    XorHalves(a, b, bits);
    XorHalves(XorBits(a, b, bits), d, bits);
  }

  lemma SameHalves(x: nat, y: nat)
    requires x / 2 == y / 2 && x % 2 == y % 2
    ensures x == y
  {
  }

  lemma {:induction false} XorBitsSwap(a: nat, b: nat, d: nat, bits: nat)
    ensures XorBits(XorBits(a, b, bits), d, bits) == XorBits(XorBits(a, d, bits), b, bits)
  {
    if bits > 0 {
      MixedHalves(a, b, d, bits);
      MixedHalves(a, d, b, bits);
      XorBitsSwap(a / 2, b / 2, d / 2, bits - 1);
      SameHalves(XorBits(XorBits(a, b, bits), d, bits), XorBits(XorBits(a, d, bits), b, bits));
    }
  }

  lemma {:induction false} XorBitsCommute(a: nat, b: nat, bits: nat)
    ensures XorBits(a, b, bits) == XorBits(b, a, bits)
  {
    if bits > 0 {
      XorHalves(a, b, bits);
      XorHalves(b, a, bits);
      XorBitsCommute(a / 2, b / 2, bits - 1);
    }
  }

  lemma XorSwap(a: byte, b: byte, d: byte)
    ensures Xor(Xor(a, b), d) == Xor(Xor(a, d), b)
  {
    XorBitsSwap(a, b, d, BitsOfByte());
  }

  lemma XorCommutes(a: byte, b: byte)
    ensures Xor(a, b) == Xor(b, a)
  {
    XorBitsCommute(a, b, BitsOfByte());
  }

  // Two of three values mixed by exclusive or are taken out again, in whatever order they went in.
  lemma XorUnmix(c: byte, v: byte, l: byte)
    ensures Xor(Xor(Xor(Xor(c, v), l), c), v) == l
    ensures Xor(Xor(Xor(Xor(c, l), v), c), v) == l
  {
    XorSwap(c, v, l);
    XorSwap(Xor(c, l), v, c);
    XorTwice(Xor(Xor(c, l), c), v);
    XorCommutes(c, l);
    XorTwice(l, c);
  }
}
