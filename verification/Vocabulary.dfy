/**
 What the small words of the schema rules mean (sections 3 to 8 of .spec/idl.md): identifiers,
 versions, application identifiers, reserved bytes, names and types, each said in another way.
 */
module Vocabulary {
  import opened Wrappers
  import opened Text
  import opened Idl
  import opened ValidationRules
  import opened Parser
  import opened ParserProofs
  import opened NormalForm
  import opened SchemaRules
  import InstallParams

  // ---- Text.

  // An identifier grows from a letter by letters, digits and underscores, and in no other way.
  lemma IdentifiersGrow(s: string, c: char)
    ensures !IsIdentifier("")
    ensures IsIdentifier([c]) <==> 'A' <= c <= 'Z' || 'a' <= c <= 'z'
    ensures s != "" ==>
              (IsIdentifier(s + [c]) <==>
                IsIdentifier(s) && ('A' <= c <= 'Z' || 'a' <= c <= 'z' || '0' <= c <= '9' || c == '_'))
  {
    var longer := s + [c];
    assert longer[|s|] == c && forall i | 0 <= i < |s| :: longer[i] == s[i];
  }

  // A text is blank if it is white space throughout.
  lemma BlankIs(s: string)
    ensures IsBlank(s) <==> AllSpace(s)
  {
    TrimmedAway(s);
    TrimRightEmpty(TrimLeft(s));
  }

  lemma {:induction false} TrimmedAway(s: string)
    ensures if AllSpace(s) then TrimLeft(s) == "" else TrimLeft(s) != "" && !IsSpace(TrimLeft(s)[0])
  {
    if s != [] && IsSpace(s[0]) {
      TrimmedAway(s[1..]);
      assert forall i | 0 < i < |s| :: s[i] == s[1..][i - 1];
    }
  }

  lemma {:induction false} TrimRightEmpty(s: string)
    ensures s != "" && !IsSpace(s[0]) ==> TrimRight(s) != ""
  {
    if |s| > 1 && IsSpace(s[|s| - 1]) {
      TrimRightEmpty(s[..|s| - 1]);
    }
  }

  // ---- Numbers and versions.

  lemma {:induction false} DecimalIsNumber(n: nat)
    ensures IsNumber(Decimal(n)) && (n > 0 ==> Decimal(n)[0] != '0')
  {
    if n >= 10 {
      DecimalIsNumber(n / 10);
    }
  }

  // Digits without a leading zero are the decimal form of their value.
  lemma {:induction false} NumberIsDecimal(s: string)
    requires s != "" && s[0] != '0' && forall i | 0 <= i < |s| :: IsDigit(s[i])
    ensures DigitsValue(s) > 0 && Decimal(DigitsValue(s)) == s
  {
    var n := |s| - 1;
    var last := s[n] as int - '0' as int;
    assert s == s[..n] + [s[n]];
    if n > 0 {
      NumberIsDecimal(s[..n]);
      assert DigitsValue(s) / 10 == DigitsValue(s[..n]) && DigitsValue(s) % 10 == last;
    } else {
      assert s[..0] == [];
    }
  }

  lemma NumbersAreDecimals(s: string)
    ensures IsNumber(s) <==> exists n :: Decimal(n) == s
  {
    if IsNumber(s) {
      if s == "0" {
        assert Decimal(0) == s;
      } else {
        NumberIsDecimal(s);
      }
    }
    if n :| Decimal(n) == s {
      DecimalIsNumber(n);
    }
  }

  // The dots are at i and j.
  ghost predicate IsVersion(v: string, a: nat, b: nat, c: nat, i: int, j: int) {
    && 0 <= i < j < |v| && v[i] == v[j] == '.'
    && v[..i] == Decimal(a) && v[i + 1..j] == Decimal(b) && v[j + 1..] == Decimal(c)
  }

  lemma {:induction false} NextDotIs(s: string, from: nat, at: nat, dot: string)
    requires dot == "." && from <= at < |s| && s[at] == '.' && forall i | from <= i < at :: s[i] != '.'
    ensures IndexFrom(s, dot, from) == at
    decreases at - from
  {
    if from == at {
      assert s[at..at + 1] == dot;
    } else {
      assert s[from..from + 1][0] != dot[0];
      NextDotIs(s, from + 1, at, dot);
    }
  }

  lemma DotFound(s: string, from: nat)
    requires from <= |s| && IndexFrom(s, ".", from) >= 0
    ensures var i := IndexFrom(s, ".", from); from <= i < |s| && s[i] == '.'
  {
    IndexIsFirst(s, ".", from);
    var i := IndexFrom(s, ".", from);
    assert s[i..i + 1][0] == '.';
  }

  lemma FirstDot(v: string, from: nat, at: nat, number: string)
    requires from <= at < |v| && v[at] == '.' && v[from..at] == number && '.' !in number
    ensures IndexFrom(v, ".", from) == at
  {
    forall i | from <= i < at ensures v[i] != '.' {
      assert v[i] == v[from..at][i - from];
    }
    NextDotIs(v, from, at, ".");
  }

  lemma NumbersMakeVersion(v: string, a: nat, b: nat, c: nat, i: int, j: int)
    requires IsVersion(v, a, b, c, i, j)
    ensures IsSemver(v)
  {
    assert v[0..i] == v[..i];
    FirstDot(v, 0, i, Decimal(a));
    FirstDot(v, i + 1, j, Decimal(b));
    DecimalIsNumber(a);
    DecimalIsNumber(b);
    DecimalIsNumber(c);
  }

  lemma VersionHasNumbers(v: string, i: nat, j: nat) returns (a: nat, b: nat, c: nat)
    requires i < j < |v| && v[i] == v[j] == '.'
    requires IsNumber(v[..i]) && IsNumber(v[i + 1..j]) && IsNumber(v[j + 1..])
    ensures IsVersion(v, a, b, c, i, j)
  {
    NumbersAreDecimals(v[..i]);
    NumbersAreDecimals(v[i + 1..j]);
    NumbersAreDecimals(v[j + 1..]);
    a :| Decimal(a) == v[..i];
    b :| Decimal(b) == v[i + 1..j];
    c :| Decimal(c) == v[j + 1..];
  }

  // A version is three numbers in decimal with a dot between each two.
  lemma VersionsAreNumbers(v: string)
    ensures IsSemver(v) <==> exists a, b, c, i, j :: IsVersion(v, a, b, c, i, j)
  {
    if IsSemver(v) {
      DotFound(v, 0);
      var i := IndexFrom(v, ".", 0);
      DotFound(v, i + 1);
      var a, b, c := VersionHasNumbers(v, i, IndexFrom(v, ".", i + 1));
    }
    if a, b, c, i, j :| IsVersion(v, a, b, c, i, j) {
      NumbersMakeVersion(v, a, b, c, i, j);
    }
  }

  // ---- Application identifiers.

  // `aid` is the hex form of the bytes, letters in either case.
  ghost predicate IsHexOf(aid: string, bytes: Bytes) {
    SameButCase(aid, InstallParams.Hex(bytes, false))
  }

  lemma HexCharIs(c: char, n: nat)
    requires n < 16
    ensures SameLetter(c, InstallParams.HexChar(n, false)) <==> IsHexDigit(c) && InstallParams.Digit(c) == n
  {
  }

  lemma AidBytes(aid: string, bytes: Bytes, i: nat)
    requires IsHexOf(aid, bytes) && i < |bytes|
    ensures IsHexDigit(aid[2 * i]) && IsHexDigit(aid[2 * i + 1])
  {
    InstallParams.HexAt(bytes, false, i);
    HexCharIs(aid[2 * i], bytes[i] / 16);
    HexCharIs(aid[2 * i + 1], bytes[i] % 16);
  }

  ghost predicate SameLetter(c: char, lower: char) {
    c == lower || ('A' <= c <= 'Z' && c as int + 32 == lower as int)
  }

  lemma HexPair(aid: string, bytes: Bytes, i: nat)
    requires |aid| == 2 * |bytes| && i < |bytes| && IsHexDigit(aid[2 * i]) && IsHexDigit(aid[2 * i + 1])
    requires bytes[i] == InstallParams.HexByte(aid[2 * i], aid[2 * i + 1])
    ensures SameLetter(aid[2 * i], InstallParams.Hex(bytes, false)[2 * i])
    ensures SameLetter(aid[2 * i + 1], InstallParams.Hex(bytes, false)[2 * i + 1])
  {
    InstallParams.HexAt(bytes, false, i);
    TwoDigits(aid[2 * i], aid[2 * i + 1]);
    HexCharIs(aid[2 * i], bytes[i] / 16);
    HexCharIs(aid[2 * i + 1], bytes[i] % 16);
  }

  lemma HexOfItsBytes(aid: string)
    requires |aid| % 2 == 0 && forall i | 0 <= i < |aid| :: IsHexDigit(aid[i])
    ensures IsHexOf(aid, InstallParams.FromHex(aid))
  {
    var bytes := InstallParams.FromHex(aid);
    var hex := InstallParams.Hex(bytes, false);
    forall k | 0 <= k < |aid| ensures SameLetter(aid[k], hex[k]) {
      HexPair(aid, bytes, k / 2);
      assert k == 2 * (k / 2) || k == 2 * (k / 2) + 1;
    }
  }

  lemma TwoDigits(high: char, low: char)
    requires IsHexDigit(high) && IsHexDigit(low)
    ensures var b := InstallParams.HexByte(high, low);
            b / 16 == InstallParams.Digit(high) && b % 16 == InstallParams.Digit(low)
  {
    Halves(InstallParams.Digit(high), InstallParams.Digit(low));
  }

  lemma Halves(high: nat, low: nat)
    requires high < 16 && low < 16
    ensures var b := (high * 16 + low) % 256; b / 16 == high && b % 16 == low
  {
    assert (high * 16 + low) % 256 == high * 16 + low;
  }

  // An application identifier is the hex form of 5 to 16 bytes.
  lemma AidsAreBytes(aid: string)
    ensures IsAid(aid) <==> exists bytes :: 5 <= |bytes| <= 16 && IsHexOf(aid, bytes)
  {
    if IsAid(aid) {
      HexOfItsBytes(aid);
    }
    if bytes :| 5 <= |bytes| <= 16 && IsHexOf(aid, bytes) {
      forall k | 0 <= k < |aid| ensures IsHexDigit(aid[k]) {
        AidBytes(aid, bytes, k / 2);
      }
    }
  }

  // ---- Bytes, types and names.

  // The reserved instruction bytes are those that a status word can start with.
  lemma ReservedBytesStartStatusWords(code: int)
    ensures IsStatusCode(code) <==> 0 <= code <= 0xFFFF && IsReserved(code / 0x100)
  {
  }

  // And they are told by their high half.
  lemma ReservedByHighHalf(ins: byte)
    ensures IsReserved(ins) <==> ins / 16 == 6 || ins / 16 == 9
  {
  }

  // The types that a parameter byte can carry are those whose every field is one byte wide.
  lemma ParameterTypesAreBytes(t: FieldType)
    ensures IsP1P2Type(t) <==> forall f: Field :: f.fieldType == t ==> WireSize(f) == Some(1)
  {
    var f := Field("", t, None, 2, 0, 0, Unplaced);
    assert f.fieldType == t;
  }

  // A method reserves instruction bytes for a stream if one of its fields is one.
  lemma StreamsAreFields(m: Method)
    ensures HasStream(m) <==> exists f :: (f in Fields(m.request) || f in Fields(m.response)) && f.fieldType == Stream
    ensures Span(m) == if HasStream(m) then 6 else 1
  {
    FirstStreamIs(Fields(m.request));
    FirstStreamIs(Fields(m.response));
  }

  // Whatever is named is named by an identifier: its own name, or the key if it has none.
  lemma NamesAreIdentifiers(key: string, name: string, m: Method, w: StatusWord)
    requires IsIdentifier(key) && NameOk(name) && m.name == name && w.name == name
    ensures IsIdentifier(MethodName(key, m)) && IsIdentifier(StatusName(key, w))
    ensures MethodName(key, m) == StatusName(key, w) == if AllSpace(name) then key else name
  {
    BlankIs(name);
  }
}
