/**
 How the fields of a message are laid out as bytes (section 6.4 of .spec/idl.md, and the packers of
 CounterSkeleton.java.golden), against the widths that the generators count on (pluginapi/model.go).
 */
module WireFormat {
  import opened Wrappers
  import opened Idl
  import CounterState
  import CardBuffers

  datatype Value = Number(n: int) | Flag(b: bool) | Octets(bytes: Bytes)

  // The bytes that the packer of the field's type writes for a value; None for a value that is none
  // of the type's. Declared lengths are exact, and a stream's bound is not exceeded.
  function Encoded(f: Field, v: Value): Option<Bytes> {
    match (f.fieldType, v)
    case (U8, Number(n)) => if 0 <= n < 0x100 then Some([n]) else None
    case (U16, Number(n)) => if 0 <= n < 0x1_0000 then Some(CardBuffers.U16(CounterState.ToShort(n))) else None
    case (U32, Number(n)) => if 0 <= n < 0x1_0000_0000 then Some(CardBuffers.U32(n)) else None
    case (Bool, Flag(b)) => Some([CardBuffers.Bit(b)])
    case (FixedBytes, Octets(bytes)) => if bytes != [] && |bytes| == f.fixedLength then Some(bytes) else None
    case (VarBytes, Octets(bytes)) => if HasLength(f, bytes) then Some(bytes) else None
    case (Ascii, Octets(bytes)) => if HasLength(f, bytes) && IsAscii(bytes) then Some(bytes) else None
    case (Text, Octets(bytes)) => Some(bytes)
    case (Stream, Octets(bytes)) => if |bytes| <= f.maxLength then Some(bytes) else None
    case _ => None
  }

  predicate HasLength(f: Field, bytes: Bytes) {
    f.length.Some? ==> bytes != [] && |bytes| == f.length.value
  }

  predicate IsAscii(bytes: Bytes) {
    forall i | 0 <= i < |bytes| :: bytes[i] < 0x80
  }

  // Numbers are read back big-endian, everything else as it is.
  function Decoded(f: Field, bytes: Bytes): Option<Value> {
    match f.fieldType
    case U8 => if |bytes| == 1 then Some(Number(bytes[0])) else None
    case U16 => if |bytes| == 2 then Some(Number(bytes[0] as int * 0x100 + bytes[1])) else None
    case U32 =>
      if |bytes| == 4 then
        Some(Number(bytes[0] as int * 0x100_0000 + bytes[1] as int * 0x1_0000 + bytes[2] as int * 0x100 + bytes[3]))
      else None
    case Bool => if |bytes| == 1 && bytes[0] <= 1 then Some(Flag(bytes[0] == 1)) else None
    case _ => Some(Octets(bytes))
  }

  // Every value of every type comes back.
  lemma EncodedReadsBack(f: Field, v: Value)
    requires Encoded(f, v).Some?
    ensures Decoded(f, Encoded(f, v).value) == Some(v)
  {
    if f.fieldType == U16 {
      ShortReadsBack(v.n);
    }
    if f.fieldType == U32 {
      IntReadsBack(v.n);
    }
  }

  lemma ShortReadsBack(n: int)
    requires 0 <= n < 0x1_0000
    ensures var b := CardBuffers.U16(CounterState.ToShort(n)); b[0] as int * 0x100 + b[1] == n
  {
    var x := CounterState.ToShort(n);
    if n < 0x8000 {
      assert x == n;
    } else {
      assert x == n - 0x1_0000;
      assert x / 0x100 == n / 0x100 - 0x100;
    }
  }

  lemma IntReadsBack(n: int)
    requires 0 <= n < 0x1_0000_0000
    ensures var b := CardBuffers.U32(n);
            b[0] as int * 0x100_0000 + b[1] as int * 0x1_0000 + b[2] as int * 0x100 + b[3] == n
  {
    var a, b, c := n / 0x100, n / 0x100 / 0x100, n / 0x100 / 0x100 / 0x100;
    assert n == 0x100 * a + n % 0x100 && a == 0x100 * b + a % 0x100 && b == 0x100 * c + b % 0x100;
    QuotientOf(n, 0x100);
    QuotientOf(n, 0x1_0000);
    assert c < 0x100;
  }

  lemma QuotientOf(n: nat, m: nat)
    requires m == 0x100 || m == 0x1_0000
    ensures n / m / 0x100 == n / (m * 0x100)
  {
  }

  // The field has values, and they all take n bytes.
  ghost predicate TakesBytes(f: Field, n: int) {
    && (exists v :: Encoded(f, v).Some?)
    && forall v | Encoded(f, v).Some? :: |Encoded(f, v).value| == n
  }

  // The declared width is what every value takes; a field without one has values of more than one
  // width, or none at all.
  lemma WireSizeIsExact(f: Field, n: int)
    requires f.fieldType == Stream ==> f.maxLength > 0
    ensures WireSize(f) == Some(n) <==> TakesBytes(f, n)
  {
    if WireSize(f).Some? {
      var v := SomeValue(f, WireSize(f).value);
      assert |Encoded(f, v).value| == WireSize(f).value;
    } else if exists v :: Encoded(f, v).Some? {
      assert |Encoded(f, Octets([])).value| == 0 && |Encoded(f, Octets([0])).value| == 1;
    }
  }

  lemma SomeValue(f: Field, n: int) returns (v: Value)
    requires WireSize(f) == Some(n)
    ensures Encoded(f, v).Some?
  {
    if f.fieldType in {U8, U16, U32} {
      v := Number(0);
    } else if f.fieldType == Bool {
      v := Flag(true);
    } else {
      v := Octets(seq(n, i => 0));
    }
  }

  // ---- Messages.

  // The fields one after the other.
  function EncodedAll(fields: seq<Field>, values: seq<Value>): Option<Bytes>
    requires |values| == |fields|
  {
    if fields == [] then Some([])
    else
      var n := |fields| - 1;
      var before, last := EncodedAll(fields[..n], values[..n]), Encoded(fields[n], values[n]);
      if before.None? || last.None? then None else Some(before.value + last.value)
  }

  // A field that can be sent at all.
  ghost predicate CanHold(f: Field) {
    (f.fieldType == Stream ==> f.maxLength > 0) && exists v :: Encoded(f, v).Some?
  }

  ghost predicate AllCanHold(fields: seq<Field>) {
    forall i | 0 <= i < |fields| :: CanHold(fields[i])
  }

  ghost predicate IsValue(fields: seq<Field>, values: seq<Value>) {
    |values| == |fields| && EncodedAll(fields, values).Some?
  }

  ghost predicate MessageTakes(fields: seq<Field>, n: int) {
    forall values | IsValue(fields, values) :: |EncodedAll(fields, values).value| == n
  }

  lemma EncodedSnoc(fields: seq<Field>, values: seq<Value>, v: Value)
    requires fields != [] && IsValue(fields[..|fields| - 1], values) && Encoded(fields[|fields| - 1], v).Some?
    ensures IsValue(fields, values + [v])
    ensures |EncodedAll(fields, values + [v]).value|
         == |EncodedAll(fields[..|fields| - 1], values).value| + |Encoded(fields[|fields| - 1], v).value|
  {
    assert (values + [v])[..|values|] == values;
  }

  lemma {:induction false} SomeValues(fields: seq<Field>) returns (values: seq<Value>)
    requires AllCanHold(fields)
    ensures IsValue(fields, values)
  {
    values := [];
    if fields != [] {
      var n := |fields| - 1;
      values := SomeValues(fields[..n]);
      var v := ValueOf(fields[n]);
      EncodedSnoc(fields, values, v);
      values := values + [v];
    }
  }

  lemma {:induction false} WidthIsLength(fields: seq<Field>, values: seq<Value>)
    requires AllCanHold(fields) && Width(fields).Some? && IsValue(fields, values)
    ensures |EncodedAll(fields, values).value| == Width(fields).value
  {
    if fields != [] {
      var n := |fields| - 1;
      WidthIsLength(fields[..n], values[..n]);
      WireSizeIsExact(fields[n], WireSize(fields[n]).value);
    }
  }

  // If all messages have one length, each field has one width, and these add up to it.
  lemma {:induction false} LengthIsWidth(fields: seq<Field>, n: int)
    requires AllCanHold(fields) && MessageTakes(fields, n)
    ensures Width(fields) == Some(n)
  {
    if fields == [] {
      assert IsValue([], []);
    } else {
      var front, last := fields[..|fields| - 1], fields[|fields| - 1];
      var v := ValueOf(last);
      var some := SomeValues(front);
      var length := |Encoded(last, v).value|;
      forall values | IsValue(front, values) ensures |EncodedAll(front, values).value| == n - length {
        EncodedSnoc(fields, values, v);
      }
      LengthIsWidth(front, n - length);
      forall v' | Encoded(last, v').Some? ensures |Encoded(last, v').value| == length {
        EncodedSnoc(fields, some, v');
      }
      WireSizeIsExact(last, length);
    }
  }

  lemma ValueOf(f: Field) returns (v: Value)
    requires CanHold(f)
    ensures Encoded(f, v).Some?
  {
    v :| Encoded(f, v).Some?;
  }

  // The width of a message is the length of everything that can be said with it; without one there
  // are messages of different lengths.
  lemma MessageWidthIsExact(fields: seq<Field>, n: int)
    requires AllCanHold(fields)
    ensures Width(fields) == Some(n) <==> MessageTakes(fields, n)
  {
    if Width(fields) == Some(n) {
      forall values | IsValue(fields, values) ensures |EncodedAll(fields, values).value| == n {
        WidthIsLength(fields, values);
      }
    }
    if MessageTakes(fields, n) {
      LengthIsWidth(fields, n);
    }
  }
}
