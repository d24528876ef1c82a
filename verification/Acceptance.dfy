/** What a well-formed schema guarantees to the generators, and where the validator's sum wraps. */
module Acceptance {
  import opened Wrappers
  import opened Idl
  import opened Keys
  import opened ValidationRules
  import opened Validator
  import opened Text
  import opened Allocation
  import opened Dispatch
  import opened DispatchProofs
  import opened Chunks
  import opened SchemaRules
  import opened Verdict
  import opened WireFormat

  // A schema that the validator accepts has at most 224 instruction bytes, and a dispatch table
  // that is the exact inverse of them.
  lemma AcceptedDispatch(s: Schema, order: seq<string>, statusOrder: seq<string>)
    requires Enumerates(order, s.methods.Keys) && Enumerates(statusOrder, s.statusWords.Keys)
    ensures Report(Some(s), order, statusOrder) == []
            ==> && AllDefined(s.methods) && TotalSpan(s.methods, order) <= 224
                && var families := Streamed(s.methods, SortByIns(s.methods, order));
                   Inverts(s.methods, families, Rows(families, |families|))
  {
    VerdictIsExact(s, order, statusOrder);
    if SchemaOk(s, true) {
      AtMost224Bytes(s.methods, order);
      DispatchInvertsAllocation(s.methods, order);
    }
  }

  function Carried(m: Method, section: Section): seq<Field> {
    Fields(if section == Request then m.request else m.response)
  }

  // Every payload that a stream field of a well-formed schema allows can be sent: the field is
  // alone in its message, and the payload fits 255 chunks whose offsets fit 16 signed bits.
  lemma StreamsCanBeSent(s: Schema, key: string, section: Section, i: nat, payload: Bytes)
    requires MethodsOk(s.applet, s.methods, true) && key in s.methods
    requires i < |Carried(s.methods[key].value, section)|
    requires var f := Carried(s.methods[key].value, section)[i]; f.fieldType == Stream && |payload| <= f.maxLength
    ensures var fields := Carried(s.methods[key].value, section);
            && |fields| == 1 && fields[i].chunkSize > 0
            && var chunks := Split(payload, fields[i].chunkSize);
               |chunks| <= 255 && Joined(chunks) == payload
               && forall k | 0 <= k < |chunks| :: |chunks[k]| <= 255 && k * fields[i].chunkSize + |chunks[k]| <= 0x7FFF
  {
    assert MethodOk(s.applet, key, s.methods[key].value, true);
    assert FieldOk(Carried(s.methods[key].value, section)[i]);
    AcceptedPayloadSplits(Carried(s.methods[key].value, section)[i], payload);
  }

  lemma CarriedIsOk(s: Schema, key: string, section: Section)
    requires MethodsOk(s.applet, s.methods, true) && key in s.methods
    ensures var m := s.methods[key].value;
            && MessageOk(Carried(m, section))
            && (HasStream(m) ==>
                  forall j | 0 <= j < |Fields(m.request)| :: Fields(m.request)[j].location !in {P1, P2})
  {
    assert MethodOk(s.applet, key, s.methods[key].value, true);
  }

  // A field that travels in P1 or P2 is one wire byte, and has the parameter byte to itself; the
  // requests of streamed methods have no such field.
  lemma ParameterBytes(s: Schema, key: string, section: Section, i: nat)
    requires MethodsOk(s.applet, s.methods, true) && key in s.methods
    requires i < |Carried(s.methods[key].value, section)|
    requires Carried(s.methods[key].value, section)[i].location in {P1, P2}
    ensures var m := s.methods[key].value;
            var fields := Carried(m, section);
            && IsSingleByte(fields[i])
            && (forall j | 0 <= j < |fields| && fields[j].location == fields[i].location :: j == i)
            && (section == Request ==> !HasStream(m))
  {
    var fields := Carried(s.methods[key].value, section);
    CarriedIsOk(s, key, section);
    ParameterFieldIs(fields, i);
  }

  lemma ParameterFieldIs(fields: seq<Field>, i: nat)
    requires MessageOk(fields) && i < |fields| && fields[i].location in {P1, P2}
    ensures IsSingleByte(fields[i])
    ensures forall j | 0 <= j < |fields| && fields[j].location == fields[i].location :: j == i
  {
    assert FieldOk(fields[i]);
    forall j | 0 <= j < |fields| && fields[j].location == fields[i].location ensures j == i {
      OneFieldPerParameter(fields, i, j);
    }
  }

  lemma OneFieldPerParameter(fields: seq<Field>, i: nat, j: nat)
    requires MessageOk(fields) && i < |fields| && j < |fields|
    requires fields[i].location == fields[j].location && fields[j].location in {P1, P2}
    ensures i == j
  {
  }

  // The 255-byte bound on a streamed method's fixed response. The sum of the widths is a Go int:
  // the verdict on a width is right exactly when the width fits, or what is left of it in 64 bits
  // is a positive number that does not.
  lemma ResponseBoundIsExact(m: Method)
    requires BoundedWidth(m).Some?
    ensures var w := BoundedWidth(m).value;
            (ResponseIsTooLong(m) <==> w > 0xFF)
            <==> w <= 0xFF || 0xFF < w % 0x1_0000_0000_0000_0000 < 0x8000_0000_0000_0000
  {
    ResponseVerdict(m);
  }

  // One direction of a streamed method, as its row in the dispatch table has it: enabled exactly if
  // the message has a stream field; then exactly the payloads up to `max` are values of that field,
  // and they are sent in at most 255 chunks of `chunk` bytes, which fit a byte.
  ghost predicate Carries(fields: seq<Field>, direction: Direction) {
    if direction.enabled then
      exists f :: f in fields && f.fieldType == Stream && Bounds(f, direction)
    else direction.max == direction.chunk == 0 && forall f | f in fields :: f.fieldType != Stream
  }

  ghost predicate Bounds(f: Field, direction: Direction) {
    && 0 < direction.chunk <= 0xFF
    && forall payload: Bytes ::
         && (Encoded(f, Octets(payload)).Some? <==> |payload| <= direction.max)
         && (|payload| <= direction.max ==> |Split(payload, direction.chunk)| <= 255)
         && (|payload| > 0 ==> (|Split(payload, direction.chunk)| == 1 <==> |payload| <= f.chunkSize))
  }

  lemma DirectionCarries(message: Option<Message>)
    requires MessageOk(Fields(message))
    ensures Carries(Fields(message), DirectionOf(StreamField(message)))
  {
    var fields := Fields(message);
    FirstStreamIs(fields);
    if StreamField(message).Some? {
      var f := StreamField(message).value;
      var i :| 0 <= i < |fields| && fields[i] == f;
      assert FieldOk(fields[i]);
      forall payload: Bytes
        ensures |payload| <= f.maxLength ==> |Split(payload, f.chunkSize)| <= 255
        ensures |payload| > 0 ==> (|Split(payload, f.chunkSize)| == 1 <==> |payload| <= f.chunkSize)
      {
        if |payload| <= f.maxLength {
          AcceptedPayloadSplits(f, payload);
        }
        if payload != [] {
          OneChunk(payload, f.chunkSize);
        }
      }
      assert Bounds(f, DirectionOf(Some(f)));
    } else {
      forall f | f in fields ensures f.fieldType != Stream {
        var i :| 0 <= i < |fields| && fields[i] == f;
      }
    }
  }

  lemma OneChunk(payload: Bytes, size: nat)
    requires size > 0 && payload != []
    ensures |Split(payload, size)| == 1 <==> |payload| <= size
  {
    if |payload| > size {
      assert Split(payload[size..], size) != [];
    }
  }

  // What the rows of a streamed method of a well-formed schema say is what its messages are: each
  // direction its own stream, and the length of every plain response that has one.
  lemma RowsTellTheMessages(s: Schema, key: string)
    requires MethodsOk(s.applet, s.methods, false) && key in s.methods && HasStream(s.methods[key].value)
    ensures var m := s.methods[key].value;
            var config := ConfigOf(m);
            && Carries(Fields(m.request), config.request) && Carries(Fields(m.response), config.response)
            && (config.response.enabled ==> config.exact == Some(-1))
            && (!config.response.enabled ==> TellsLength(Fields(m.response), config.exact))
  {
    var m := s.methods[key].value;
    assert MethodOk(s.applet, key, m, false);
    DirectionCarries(m.request);
    DirectionCarries(m.response);
    if StreamField(m.response).None? {
      PlainLength(Fields(m.response), ConfigOf(m).exact);
    }
  }

  // The length of a plain message that fits a short APDU, as the table has it.
  ghost predicate TellsLength(fields: seq<Field>, exact: Option<int64>) {
    match exact
    case None => Width(fields).None?
    case Some(n) => 0 <= n <= 0xFF && (AllCanHold(fields) ==> MessageTakes(fields, n))
  }

  lemma PlainLength(fields: seq<Field>, exact: Option<int64>)
    requires exact == FixedLength(fields) && (Width(fields).Some? ==> Width(fields).value <= 0xFF)
    ensures TellsLength(fields, exact)
  {
    if Width(fields).Some? {
      WrapIs(Width(fields).value);
      if AllCanHold(fields) {
        MessageWidthIsExact(fields, Width(fields).value);
      }
    }
  }

  // A response of almost 2^64 bytes, in a schema that is accepted.
  lemma WrappedWidthIsAccepted() returns (s: Schema, m: Method)
    ensures s.methods == map["m" := Some(m)] && BoundedWidth(m) == Some(0xFFFF_FFFF_FFFF_FFFE)
    ensures Report(Some(s), ["m"], []) == [] && !WellFormed(s)
  {
    m := WrappingMethod();
    var a := Applet("A", "", "0.0.0", "0000000000", 1, DefaultWorkspace, NoCleanup);
    s := Schema(a, map["m" := Some(m)], map[]);
    AppletIsOk(a);
    OneMethodIsOk(a, s.methods, m);
    assert SchemaOk(s, true) && WidthWraps(s.methods["m"].value);
    VerdictIsExact(s, ["m"], []);
  }

  lemma OneMethodIsOk(a: Applet, methods: Methods, m: Method)
    requires a.workspace == DefaultWorkspace && a.cleanup == NoCleanup && methods == map["m" := Some(m)]
    requires m.name == "" && m.ins == 1 && m.streamMode == NoMode && HasStream(m) && WidthWraps(m)
    requires MessageOk(Fields(m.request)) && MessageOk(Fields(m.response))
    requires forall i | 0 <= i < |Fields(m.request)| :: Fields(m.request)[i].location == InData
    ensures MethodsOk(a, methods, true)
  {
    assert IsIdentifier("m");
    assert TrimSpace("") == "";
    assert MethodOk(a, "m", m, true);
    assert "m" in methods;
    assert Allocated(methods);
  }

  lemma WrappingMethod() returns (m: Method)
    ensures m.name == "" && m.ins == 1 && m.streamMode == NoMode && HasStream(m) && StreamField(m.response).None?
    ensures MessageOk(Fields(m.request)) && MessageOk(Fields(m.response))
    ensures forall i | 0 <= i < |Fields(m.request)| :: Fields(m.request)[i].location == InData
    ensures BoundedWidth(m) == Some(0xFFFF_FFFF_FFFF_FFFE) && WidthWraps(m)
  {
    var payload := Field("p", Stream, None, 0, 1, 1, InData);
    var huge := Field("a", FixedBytes, None, 0x7FFF_FFFF_FFFF_FFFF, 0, 0, Unplaced);
    m := Method("", 1, "", Some(Message([payload])), Some(Message([huge, huge])), NoMode);
    assert IsIdentifier("p") && IsIdentifier("a");
    assert FieldOk(payload) && FieldOk(huge);
    assert [huge, huge][1..] == [huge] && FirstStream([huge]).None?;
    assert [huge, huge][..1] == [huge] && [huge][..0] == [];
    assert Width([huge]) == Some(0x7FFF_FFFF_FFFF_FFFF);
  }

  lemma AppletIsOk(a: Applet)
    requires a == Applet("A", "", "0.0.0", "0000000000", 1, DefaultWorkspace, NoCleanup)
    ensures AppletOk(a)
  {
    assert TrimLeft("A") == "A" && TrimRight("A") == "A";
    assert IsAid("0000000000");
    VersionIsOk(a.version);
  }

  lemma VersionIsOk(v: string)
    requires |v| == 5 && v[0] == v[2] == v[4] == '0' && v[1] == v[3] == '.'
    ensures IsSemver(v)
  {
    NextDot(v, 0, ".");
    NextDot(v, 2, ".");
  }

  lemma NextDot(v: string, i: nat, dot: string)
    requires i + 1 < |v| && dot == "." && v[i] != '.' && v[i + 1] == '.'
    ensures IndexFrom(v, dot, i) == i + 1
  {
    assert v[i..i + 1][0] != dot[0];
    assert v[i + 1..i + 2] == dot;
  }
}
