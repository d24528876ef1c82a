/**
 Install parameters, from the configuration's hex strings to the applet that reads them back
 (AppletConfig.java, DefaultCardProvider.java, TestCounterApplet.java).
 */
module InstallParams {
  import opened Wrappers
  import opened CounterState

  // Character.digit(c, 16)
  function Digit(c: char): int {
    if '0' <= c <= '9' then c as int - '0' as int
    else if 'a' <= c <= 'f' then c as int - 'a' as int + 10
    else if 'A' <= c <= 'F' then c as int - 'A' as int + 10
    else -1
  }

  // Two characters to a byte; a character that is no digit counts as -1, unnoticed.
  function HexByte(high: char, low: char): byte {
    (Digit(high) * 16 + Digit(low)) % 256
  }

  function FromHex(hex: string): (bytes: Bytes)
    requires |hex| % 2 == 0
    ensures |bytes| == |hex| / 2
  {
    seq(|hex| / 2, i requires 0 <= i < |hex| / 2 => HexByte(hex[2 * i], hex[2 * i + 1]))
  }

  // None is the exception that charAt throws at the end of a string of odd length.
  method HexToBytes(hex: string) returns (bytes: Option<Bytes>)
    ensures bytes == if |hex| % 2 == 0 then Some(FromHex(hex)) else None
  {
    var len := |hex|;
    var data := new byte[len / 2](_ => 0);
    var i := 0;
    while i < len
      invariant 0 <= i && i % 2 == 0 && i <= len
      invariant forall k | 0 <= k < i / 2 :: data[k] == HexByte(hex[2 * k], hex[2 * k + 1])
    {
      if i + 1 >= len {
        return None;
      }
      data[i / 2] := HexByte(hex[i], hex[i + 1]);
      i := i + 2;
    }
    assert data[..] == FromHex(hex);
    return Some(data[..]);
  }

  // [aid length][aid][no privileges][c9 length][c9], each length cut to a byte.
  function Layout(aid: Bytes, c9: Bytes): Bytes {
    [|aid| % 256] + aid + [0, |c9| % 256] + c9
  }

  // System.arraycopy
  method CopyInto(src: Bytes, dst: array<byte>, offset: nat)
    requires offset + |src| <= dst.Length
    modifies dst
    ensures dst[..] == old(dst[..offset]) + src + old(dst[offset + |src|..])
  {
    ghost var before := dst[..];
    for i := 0 to |src|
      invariant forall k | 0 <= k < dst.Length ::
        dst[k] == if offset <= k < offset + i then src[k - offset] else before[k]
    {
      dst[offset + i] := src[i];
    }
    assert dst[..] == before[..offset] + src + before[offset + |src|..];
  }

  method BuildInstallParams(aidHex: string, c9Hex: string) returns (params: Option<Bytes>)
    ensures params == if |aidHex| % 2 == 0 && |c9Hex| % 2 == 0
                      then Some(Layout(FromHex(aidHex), FromHex(c9Hex))) else None
  {
    var aidBytes := HexToBytes(aidHex);
    var c9Bytes := HexToBytes(c9Hex);
    if aidBytes.None? || c9Bytes.None? {
      return None;
    }
    var built := Build(aidBytes.value, c9Bytes.value);
    return Some(built);
  }

  method PutTwo(buf: array<byte>, off: nat, first: byte, second: byte) returns (next: nat)
    requires off + 2 <= buf.Length
    modifies buf
    ensures next == off + 2 && buf[..next] == old(buf[..off]) + [first, second]
  {
    buf[off] := first;
    buf[off + 1] := second;
    return off + 2;
  }

  method Build(aid: Bytes, c9: Bytes) returns (params: Bytes)
    ensures params == Layout(aid, c9)
  {
    var buf := new byte[1 + |aid| + 1 + 1 + |c9|](_ => 0);
    var off := 0;
    buf[off] := |aid| % 256;
    off := off + 1;
    CopyInto(aid, buf, off);
    assert buf[..off + |aid|] == [|aid| % 256] + aid;
    off := off + |aid|;
    off := PutTwo(buf, off, 0, |c9| % 256);
    CopyInto(c9, buf, off);
    assert buf[..] == buf[..off] + c9;
    return buf[..];
  }

  /** What the applet makes of its parameters; `Crash` is an index out of bounds. */
  datatype Installed = Seed(value: short) | Crash

  function At(s: Bytes, i: int): Option<byte> {
    if 0 <= i < |s| then Some(s[i]) else None
  }

  function BigEndian(high: byte, low: byte): short {
    ToShort(high * 256 + low)
  }

  // The applet's walk over the parameters that start at `offset`.
  function Walk(s: Bytes, offset: nat): Installed {
    match At(s, offset)
    case None => Crash
    case Some(aidLen) =>
      match At(s, offset + 1 + aidLen)
      case None => Crash
      case Some(privLen) =>
        var c9At := offset + 2 + aidLen + privLen;
        match At(s, c9At)
        case None => Crash
        case Some(c9Len) =>
          if c9Len != 2 then Seed(0)
          else if c9At + 2 < |s| then Seed(BigEndian(s[c9At + 1], s[c9At + 2]))
          else Crash
  }

  method Install(bArray: array<byte>, bOffset: nat, bLength: int) returns (r: Installed)
    ensures r == if bLength > 0 then Walk(bArray[..], bOffset) else Seed(0)
  {
    var seed: short := 0;
    if bLength > 0 {
      var off := bOffset;
      if off >= bArray.Length {
        return Crash;
      }
      var aidLen := bArray[off];
      off := off + 1 + aidLen;
      if off >= bArray.Length {
        return Crash;
      }
      var privLen := bArray[off];
      off := off + 1 + privLen;
      if off >= bArray.Length {
        return Crash;
      }
      var c9Len := bArray[off];
      off := off + 1;
      if c9Len == 2 {
        if off + 1 >= bArray.Length {
          return Crash;
        }
        seed := BigEndian(bArray[off], bArray[off + 1]);
      }
    }
    return Seed(seed);
  }

  // A Java cast to byte: the provider hands the length of the parameters over as one.
  function SignedByte(n: nat): int {
    (n + 128) % 256 - 128
  }

  function InstalledSeed(aid: Bytes, c9: Bytes): Installed {
    var params := Layout(aid, c9);
    if SignedByte(|params|) > 0 then Walk(params, 0) else Seed(0)
  }

  // One turn of the provider's loop: the parameters are built and handed to the applet, their
  // length as a byte. None is the exception of a hex string of odd length.
  method Create(aidHex: string, c9Hex: string) returns (installed: Option<Installed>)
    ensures installed == if |aidHex| % 2 == 0 && |c9Hex| % 2 == 0
                         then Some(InstalledSeed(FromHex(aidHex), FromHex(c9Hex))) else None
  {
    var built := BuildInstallParams(aidHex, c9Hex);
    if built.None? {
      return None;
    }
    var params := built.value;
    var bArray := new byte[|params|](i requires 0 <= i < |params| => params[i]);
    assert bArray[..] == params;
    var r := Install(bArray, 0, SignedByte(bArray.Length));
    return Some(r);
  }

  // The seed that the configuration means.
  function Meant(c9: Bytes): short {
    if |c9| == 2 then BigEndian(c9[0], c9[1]) else 0
  }

  // A seed written as two bytes, the high one first, is the one that is meant.
  lemma SeedReadsBack(seed: short)
    ensures Meant([seed / 256 % 256, seed % 256]) == seed
  {
    var q := seed / 256;
    assert seed == 256 * q + seed % 256;
    if seed >= 0 {
      assert q % 256 == q;
    } else {
      assert q % 256 == q + 256;
    }
  }

  // The walk steps over whatever identifier and privileges there are, from wherever they start.
  lemma WalkStepsOver(before: Bytes, aid: Bytes, privileges: Bytes, c9: Bytes)
    requires |aid| <= 255 && |privileges| <= 255 && |c9| <= 255
    ensures Walk(before + [|aid|] + aid + [|privileges|] + privileges + [|c9|] + c9, |before|) == Seed(Meant(c9))
  {
    var s := before + [|aid|] + aid + [|privileges|] + privileges + [|c9|] + c9;
    var privilegesAt := |before| + 1 + |aid|;
    var c9At := privilegesAt + 1 + |privileges|;
    assert s[|before|] == |aid| && s[privilegesAt] == |privileges| && s[c9At] == |c9|;
    if |c9| == 2 {
      assert s[c9At + 1] == c9[0] && s[c9At + 2] == c9[1];
    }
  }

  // The walk lands on the c9 length and the c9 data, whatever their length.
  lemma WalkLands(aid: Bytes, c9: Bytes)
    requires |aid| <= 255
    ensures Walk(Layout(aid, c9), 0) == Seed(if |c9| % 256 == 2 then BigEndian(c9[0], c9[1]) else 0)
  {
    var s, a := Layout(aid, c9), |aid|;
    assert s[0] == a && s[1 + a] == 0 && s[2 + a] == |c9| % 256;
    if |c9| % 256 == 2 {
      assert s[3 + a] == c9[0] && s[4 + a] == c9[1];
    }
  }

  lemma InstalledIs(aid: Bytes, c9: Bytes)
    requires |aid| <= 255
    ensures InstalledSeed(aid, c9)
         == Seed(if SignedByte(|aid| + 3 + |c9|) > 0 && |c9| % 256 == 2 then BigEndian(c9[0], c9[1]) else 0)
  {
    WalkLands(aid, c9);
  }

  lemma ShortLength(n: nat)
    requires n <= 127
    ensures SignedByte(n) == n && n % 256 == n
  {
  }

  // Up to 127 bytes in all, the applet is installed with exactly the seed that is meant.
  lemma InstallParamsRoundTrip(aid: Bytes, c9: Bytes)
    requires |aid| + 3 + |c9| <= 127
    ensures InstalledSeed(aid, c9) == Seed(Meant(c9))
  {
    InstalledIs(aid, c9);
    ShortLength(|aid| + 3 + |c9|);
    ShortLength(|c9|);
  }

  // ---- Configurations as they are written.

  function HexChar(n: nat, upper: bool): char
    requires n < 16
  {
    if n < 10 then ('0' as int + n) as char
    else if upper then ('A' as int + n - 10) as char
    else ('a' as int + n - 10) as char
  }

  function Hex(bytes: Bytes, upper: bool): (hex: string)
    ensures |hex| == 2 * |bytes|
  {
    if bytes == [] then ""
    else [HexChar(bytes[0] / 16, upper), HexChar(bytes[0] % 16, upper)] + Hex(bytes[1..], upper)
  }

  lemma {:induction false} HexAt(bytes: Bytes, upper: bool, i: nat)
    requires i < |bytes|
    ensures Hex(bytes, upper)[2 * i] == HexChar(bytes[i] / 16, upper)
    ensures Hex(bytes, upper)[2 * i + 1] == HexChar(bytes[i] % 16, upper)
  {
    if i > 0 {
      HexAt(bytes[1..], upper, i - 1);
    }
  }

  lemma HexByteReadsBack(b: byte, upper: bool)
    ensures HexByte(HexChar(b / 16, upper), HexChar(b % 16, upper)) == b
  {
    DigitReadsBack(b / 16, upper);
    DigitReadsBack(b % 16, upper);
  }

  lemma DigitReadsBack(n: nat, upper: bool)
    requires n < 16
    ensures Digit(HexChar(n, upper)) == n
  {
  }

  // Bytes written as hex digits, in letters of either case, are read back.
  lemma HexReadsBack(bytes: Bytes, upper: bool)
    ensures FromHex(Hex(bytes, upper)) == bytes
  {
    var hex := Hex(bytes, upper);
    forall i | 0 <= i < |bytes| ensures FromHex(hex)[i] == bytes[i] {
      HexAt(bytes, upper, i);
      HexByteReadsBack(bytes[i], upper);
    }
  }

  // From the two strings of a configuration to the seed of the applet.
  lemma ConfigurationRoundTrip(aid: Bytes, c9: Bytes, upper: bool)
    requires |aid| + 3 + |c9| <= 127
    ensures InstalledSeed(FromHex(Hex(aid, upper)), FromHex(Hex(c9, upper))) == Seed(Meant(c9))
  {
    HexReadsBack(aid, upper);
    HexReadsBack(c9, upper);
    InstallParamsRoundTrip(aid, c9);
  }

  lemma ZeroSeed(high: byte, low: byte)
    ensures BigEndian(high, low) == 0 <==> high == 0 && low == 0
  {
    var n := high * 256 + low;
    if n < 0x8000 {
      assert ToShort(n) == n;
    } else {
      assert ToShort(n) == n - 0x1_0000;
    }
  }

  // Beyond that, for identifiers of up to 122 bytes, it is so exactly when the length byte of c9
  // cannot be mistaken for two.
  lemma SeedIsMeantIff(aid: Bytes, c9: Bytes)
    requires |aid| <= 122
    ensures InstalledSeed(aid, c9) == Seed(Meant(c9))
       <==> |c9| == 2 || |c9| % 256 != 2 || (c9[0] == 0 && c9[1] == 0)
  {
    InstalledIs(aid, c9);
    if |c9| % 256 == 2 {
      LongLength(|aid|, |c9|);
      assert InstalledSeed(aid, c9) == Seed(BigEndian(c9[0], c9[1]));
      ZeroSeed(c9[0], c9[1]);
    } else {
      assert InstalledSeed(aid, c9) == Seed(0);
      assert 2 % 256 == 2 && |c9| != 2;
    }
  }

  lemma LongLength(a: nat, c: nat)
    requires a <= 122 && c % 256 == 2
    ensures SignedByte(a + 3 + c) == a + 5
  {
    assert c == c / 256 * 256 + 2;
    assert (a + 3 + c + 128) % 256 == (a + 133) % 256;
  }

  // A c9 of 258 bytes seeds the counter although only one of two bytes may.
  lemma LongC9IsMistaken() returns (aid: Bytes, c9: Bytes)
    ensures |aid| == 5 && |c9| == 258 && InstalledSeed(aid, c9) == Seed(1) && Meant(c9) == 0
  {
    aid := [0xF0, 0, 0, 1, 1];
    c9 := seq(258, i requires 0 <= i < 258 => if i == 1 then 1 else 0);
    WalkLands(aid, c9);
    LongLength(|aid|, |c9|);
  }
}
