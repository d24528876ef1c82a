/** The schema that parser, validator and generators share (pluginapi/model.go). */
module Idl {
  import opened Wrappers

  /** Go's int. */
  type int64 = x: int | -0x8000_0000_0000_0000 <= x <= 0x7FFF_FFFF_FFFF_FFFF

  type uint16 = x: int | 0 <= x <= 0xFFFF

  function Wrap64(x: int): int64 {
    (x + 0x8000_0000_0000_0000) % 0x1_0000_0000_0000_0000 - 0x8000_0000_0000_0000
  }

  /**
   These five are strings in the source, with the constants named here: a schema built by hand
   can hold any other string.
   */
  datatype FieldType =
    | U8 | U16 | U32 | Bool | Ascii | Text | VarBytes | FixedBytes | Stream | OtherType(name: string)

  datatype Location = Unplaced | P1 | P2 | InData | OtherLocation(name: string)

  datatype StreamMode = NoMode | PublicInvalidate | Chunked | OtherMode(name: string)

  datatype Workspace = DefaultWorkspace | Transient | Persistent | OtherWorkspace(name: string)

  datatype Cleanup = NoCleanup | WholeReplyArea | AuthenticatedInvalidate | OtherCleanup(name: string)

  datatype Field = Field(
    name: string, fieldType: FieldType, length: Option<int64>, fixedLength: int64,
    maxLength: int64, chunkSize: int64, location: Location)

  datatype Message = Message(fields: seq<Field>)

  datatype Method = Method(
    name: string, ins: byte, description: string,
    request: Option<Message>, response: Option<Message>, streamMode: StreamMode)

  datatype Applet = Applet(
    name: string, description: string, version: string, aid: string, cla: byte,
    workspace: Workspace, cleanup: Cleanup)

  datatype StatusWord = StatusWord(name: string, code: uint16, description: string)

  /** A method that is None is a nil pointer in the map. */
  datatype Schema = Schema(
    applet: Applet, methods: map<string, Option<Method>>, statusWords: map<string, StatusWord>)

  function Fields(message: Option<Message>): seq<Field> {
    match message
    case None => []
    case Some(m) => m.fields
  }

  // The first stream field of a message, if it has one.
  function StreamField(message: Option<Message>): Option<Field> {
    FirstStream(Fields(message))
  }

  function FirstStream(fields: seq<Field>): Option<Field> {
    if fields == [] then None
    else if fields[0].fieldType == Stream then Some(fields[0])
    else FirstStream(fields[1..])
  }

  lemma {:induction false} FirstStreamIs(fields: seq<Field>)
    ensures var r := FirstStream(fields);
            && (r.Some? ==> r.value in fields && r.value.fieldType == Stream)
            && (r.None? <==> forall i | 0 <= i < |fields| :: fields[i].fieldType != Stream)
  {
    if fields != [] {
      FirstStreamIs(fields[1..]);
      assert fields == [fields[0]] + fields[1..];
    }
  }

  predicate HasStream(m: Method) {
    StreamField(m.request).Some? || StreamField(m.response).Some?
  }

  // How many instruction bytes a method occupies.
  function Span(m: Method): nat {
    if HasStream(m) then 6 else 1
  }

  // The encoded width of a field, None when it is not fixed.
  function WireSize(f: Field): (size: Option<int64>)
    ensures size.Some? ==> size.value > 0
  {
    match f.fieldType
    case U8 | Bool => Some(1)
    case U16 => Some(2)
    case U32 => Some(4)
    case FixedBytes => if f.fixedLength > 0 then Some(f.fixedLength) else None
    case Ascii | VarBytes => if f.length.Some? && f.length.value > 0 then f.length else None
    case _ => None
  }

  predicate IsSingleByte(f: Field) {
    WireSize(f) == Some(1)
  }

  // The width of a message whose fields all have one, without a word size.
  function Width(fields: seq<Field>): (r: Option<nat>) {
    if fields == [] then Some(0)
    else
      var before, last := Width(fields[..|fields| - 1]), WireSize(fields[|fields| - 1]);
      if before.None? || last.None? then None else Some(before.value + last.value)
  }

  lemma {:induction false} NoWidth(fields: seq<Field>, n: nat)
    requires n < |fields| && WireSize(fields[n]).None?
    ensures Width(fields).None?
  {
    if n < |fields| - 1 {
      NoWidth(fields[..|fields| - 1], n);
    }
  }

  function FixedLength(fields: seq<Field>): Option<int64> {
    match Width(fields)
    case None => None
    case Some(width) => Some(Wrap64(width))
  }

  lemma WrapSum(a: int, b: int)
    ensures Wrap64(Wrap64(a) + b) == Wrap64(a + b)
  {
  }

  // The sum is a Go int, which wraps around.
  method FixedMessageLength(fields: seq<Field>) returns (r: Option<int64>)
    ensures r == FixedLength(fields)
  {
    var total: int64 := 0;
    for i := 0 to |fields|
      invariant Width(fields[..i]).Some? && total == Wrap64(Width(fields[..i]).value)
    {
      assert fields[..i + 1][..i] == fields[..i];
      var size := WireSize(fields[i]);
      if size.None? {
        NoWidth(fields, i);
        return None;
      }
      WrapSum(Width(fields[..i]).value, size.value);
      total := Wrap64(total + size.value);
    }
    assert fields[..|fields|] == fields;
    return Some(total);
  }
}
