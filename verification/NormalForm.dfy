/**
 Schemas written out as raw values again, and which schemas the parser can give (parser.go, section 4
 of .spec/idl.md).
 */
module NormalForm {
  import opened Wrappers
  import opened Text
  import opened Idl
  import opened ValidationRules
  import opened Parser
  import opened Normalizer
  import opened ParserProofs

  // ---- Fields.

  function TypeName(t: FieldType, n: int64): string {
    match t
    case U8 => "u8"
    case U16 => "u16"
    case U32 => "u32"
    case Bool => "bool"
    case Ascii => "ascii"
    case Text => "string"
    case VarBytes => "bytes"
    case FixedBytes => "bytes[" + Decimal(if n < 0 then 0 else n) + "]"
    case Stream => "stream"
    case OtherType(name) => name
  }

  function LocationName(l: Location): string {
    match l
    case Unplaced => ""
    case P1 => "p1"
    case P2 => "p2"
    case InData => "data"
    case OtherLocation(name) => name
  }

  function WrittenField(f: Field): RawField {
    RawField(f.name, TypeName(f.fieldType, f.fixedLength), f.length,
             if f.fieldType == Stream then Some(f.maxLength) else None,
             if f.fieldType == Stream then Some(f.chunkSize) else None,
             LocationName(f.location))
  }

  // A field that the parser can give: sizes are there only where the type has them.
  predicate FieldNormal(f: Field) {
    && !f.fieldType.OtherType? && !f.location.OtherLocation?
    && (f.length.Some? ==> f.fieldType in {VarBytes, Ascii} && f.length.value > 0)
    && (f.fieldType == FixedBytes ==> f.fixedLength >= 0) && (f.fieldType != FixedBytes ==> f.fixedLength == 0)
    && (f.fieldType != Stream ==> f.maxLength == f.chunkSize == 0)
  }

  lemma {:induction false} LookupIs<T>(names: seq<(string, T)>, i: nat)
    requires i < |names| && forall j | 0 <= j < i :: names[j].0 != names[i].0
    ensures Lookup(names, names[i].0) == Some(names[i].1)
  {
    if i > 0 {
      assert names[1..][i - 1] == names[i];
      assert forall j | 0 <= j < i - 1 :: names[1..][j] == names[j + 1];
      LookupIs(names[1..], i - 1);
    }
  }

  function TypeIndex(t: FieldType): nat {
    match t
    case U8 => 0
    case U16 => 1
    case U32 => 2
    case Bool => 3
    case Ascii => 4
    case Text => 5
    case VarBytes => 6
    case _ => 7
  }

  lemma NamedTypeReadsBack(t: FieldType, left: string, right: string)
    requires !t.OtherType? && t != FixedBytes && AllSpace(left) && AllSpace(right)
    ensures ParseFieldType(left + (TypeName(t, 0) + right)) == Some((t, 0))
  {
    var name := TypeName(t, 0);
    TrimLeftIs(left, name + right);
    TrimRightIs(name, right);
    TypeIsListed(t, name);
  }

  lemma TypeIsListed(t: FieldType, name: string)
    requires !t.OtherType? && t != FixedBytes && name == TypeName(t, 0)
    ensures Lookup(TYPE_NAMES, name) == Some(t)
  {
    assert TYPE_NAMES[TypeIndex(t)] == (name, t);
    LookupIs(TYPE_NAMES, TypeIndex(t));
  }

  // Every type is read back from its name, whatever space is around it.
  lemma TypeReadsBack(t: FieldType, n: int64, left: string, right: string)
    requires !t.OtherType? && AllSpace(left) && AllSpace(right) && (if t == FixedBytes then n >= 0 else n == 0)
    ensures ParseFieldType(left + (TypeName(t, n) + right)) == Some((t, n))
  {
    if t == FixedBytes {
      FixedTypeReadsBack(n, left, right);
    } else {
      NamedTypeReadsBack(t, left, right);
    }
  }

  // The same letters, some of them in upper case.
  ghost predicate SameButCase(s: string, lower: string) {
    && |s| == |lower|
    && forall i | 0 <= i < |s| :: s[i] == lower[i] || ('A' <= s[i] <= 'Z' && s[i] as int + 32 == lower[i] as int)
  }

  lemma {:induction false} LowerIs(s: string, lower: string)
    requires SameButCase(s, lower) && forall i | 0 <= i < |lower| :: !('A' <= lower[i] <= 'Z')
    ensures ToLower(s) == lower
  {
    if s != [] {
      LowerIs(s[1..], lower[1..]);
      assert lower == [lower[0]] + lower[1..];
    }
  }

  // Every location is read back from its name, in whatever case and with space around it.
  lemma LocationReadsBack(l: Location, name: string, left: string, right: string)
    requires l in {P1, P2, InData} && SameButCase(name, LocationName(l)) && AllSpace(left) && AllSpace(right)
    ensures NormalLocation(left + (name + right)) == Some(l)
  {
    var i := if l == P1 then 0 else if l == P2 then 1 else 2;
    assert LOCATION_NAMES[i] == (LocationName(l), l);
    TrimLeftIs(left, name + right);
    TrimRightIs(name, right);
    LowerIs(name, LocationName(l));
    LookupIs(LOCATION_NAMES, i);
  }

  // A field that the parser can give is what it gives for the field written out.
  lemma FieldReadsBack(f: Field)
    requires FieldNormal(f)
    ensures NormalField(WrittenField(f)) == Ok(f)
  {
    TypeNameReadsBack(f.fieldType, f.fixedLength, TypeName(f.fieldType, f.fixedLength));
    LocationNameReadsBack(f.location, LocationName(f.location));
    NormalFieldIs(WrittenField(f), f);
  }

  lemma NormalFieldIs(raw: RawField, f: Field)
    requires ParseFieldType(raw.fieldType) == Some((f.fieldType, f.fixedLength))
    requires NormalLocation(raw.location) == Some(f.location) && raw.name == f.name && raw.length == f.length
    requires f.length.Some? ==> f.fieldType in {VarBytes, Ascii} && f.length.value > 0
    requires if f.fieldType == Stream then raw.maxLength == Some(f.maxLength) && raw.chunkSize == Some(f.chunkSize)
             else raw.maxLength == raw.chunkSize == None && f.maxLength == f.chunkSize == 0
    ensures NormalField(raw) == Ok(f)
  {
  }

  lemma TypeNameReadsBack(t: FieldType, n: int64, name: string)
    requires !t.OtherType? && name == TypeName(t, n) && (if t == FixedBytes then n >= 0 else n == 0)
    ensures ParseFieldType(name) == Some((t, n))
  {
    TypeReadsBack(t, n, "", "");
    assert "" + (name + "") == name;
  }

  lemma LocationNameReadsBack(l: Location, name: string)
    requires !l.OtherLocation? && name == LocationName(l)
    ensures NormalLocation(name) == Some(l)
  {
    if l != Unplaced {
      LocationReadsBack(l, name, "", "");
      assert "" + (name + "") == name;
    }
  }

  // And it gives no other fields.
  lemma ParsedFieldIsNormal(raw: RawField)
    requires NormalField(raw).Ok?
    ensures FieldNormal(NormalField(raw).value)
  {
    KnownTypes(TrimSpace(raw.fieldType));
  }

  // ---- What is refused.

  lemma {:induction false} TrimLeftSplits(s: string) returns (left: string)
    ensures AllSpace(left) && s == left + TrimLeft(s) && (TrimLeft(s) != "" ==> !IsSpace(TrimLeft(s)[0]))
  {
    left := "";
    if s != "" && IsSpace(s[0]) {
      left := TrimLeftSplits(s[1..]);
      assert s == [s[0]] + (left + TrimLeft(s[1..]));
      left := [s[0]] + left;
    }
  }

  lemma {:induction false} TrimRightSplits(s: string) returns (right: string)
    ensures AllSpace(right) && s == TrimRight(s) + right
  {
    right := "";
    if s != "" && IsSpace(s[|s| - 1]) {
      var n := |s| - 1;
      right := TrimRightSplits(s[..n]);
      assert s == s[..n] + [s[n]];
      right := right + [s[n]];
    }
  }

  lemma TrimSplits(s: string) returns (left: string, right: string)
    ensures AllSpace(left) && AllSpace(right) && s == left + (TrimSpace(s) + right)
  {
    left := TrimLeftSplits(s);
    right := TrimRightSplits(TrimLeft(s));
  }

  // The names of the types: eight words, and bytes[N] for every N, written with any digits, that fits.
  ghost predicate IsTypeName(name: string) {
    || name in {"u8", "u16", "u32", "bool", "ascii", "string", "bytes", "stream"}
    || exists digits :: IsFixedName(name, digits)
  }

  ghost predicate IsFixedName(name: string, digits: string) {
    && name == "bytes[" + digits + "]" && digits != ""
    && (forall i | 0 <= i < |digits| :: IsDigit(digits[i])) && DigitsValue(digits) <= MAX_INT
  }

  lemma FixedNames(name: string)
    ensures FixedWidth(name).Some? <==> exists digits :: IsFixedName(name, digits)
  {
    if FixedWidth(name).Some? {
      var digits := name[6..|name| - 1];
      assert name == name[..6] + digits + [name[|name| - 1]];
      assert IsFixedName(name, digits);
    }
    if digits :| IsFixedName(name, digits) {
      PartsOf(name, "bytes[", digits, "]");
    }
  }

  lemma PartsOf(s: string, a: string, b: string, c: string)
    requires s == a + b + c
    ensures s[..|a|] == a && s[|a|..|a| + |b|] == b && s[|a| + |b|..] == c
    ensures forall i | |a| <= i < |a| + |b| :: s[i] == b[i - |a|]
  {
  }

  lemma WordIsKnown(name: string)
    ensures Lookup(TYPE_NAMES, name).Some?
       <==> name in {"u8", "u16", "u32", "bool", "ascii", "string", "bytes", "stream"}
  {
    LookupFinds(TYPE_NAMES, name);
    if name in {"u8", "u16", "u32", "bool", "ascii", "string", "bytes", "stream"} {
      TypeIsListed(TypeOfWord(name), name);
    }
  }

  function TypeOfWord(name: string): FieldType {
    if name == "u8" then U8
    else if name == "u16" then U16
    else if name == "u32" then U32
    else if name == "bool" then Bool
    else if name == "ascii" then Ascii
    else if name == "string" then FieldType.Text
    else if name == "bytes" then VarBytes
    else Stream
  }

  lemma TrimmedTypes(name: string)
    ensures Lookup(TYPE_NAMES, name).Some? || FixedWidth(name).Some? <==> IsTypeName(name)
  {
    WordIsKnown(name);
    FixedNames(name);
  }

  ghost predicate Spaced(s: string, left: string, name: string, right: string) {
    AllSpace(left) && AllSpace(right) && s == left + (name + right)
  }

  lemma NamesAreTrim(name: string)
    requires IsTypeName(name)
    ensures name != "" && !IsSpace(name[0]) && !IsSpace(name[|name| - 1])
  {
  }

  // A type is accepted if it is one of the names, with space around it or not.
  lemma TypesAreNames(t: string)
    ensures ParseFieldType(t).Some? <==> exists left, name, right :: IsTypeName(name) && Spaced(t, left, name, right)
  {
    TrimmedTypes(TrimSpace(t));
    var left, right := TrimSplits(t);
    assert Spaced(t, left, TrimSpace(t), right);
    if l, name, r :| IsTypeName(name) && Spaced(t, l, name, r) {
      NamesAreTrim(name);
      TrimLeftIs(l, name + r);
      TrimRightIs(name, r);
    }
  }

  // Why a field is refused: the first of these that holds of it.
  ghost predicate HasFault(raw: RawField, fault: FieldFault) {
    match fault
    case BadType => ParseFieldType(raw.fieldType).None?
    case LengthNotAllowed => raw.length.Some? && !IsOfType(raw, VarBytes) && !IsOfType(raw, Ascii)
    case LengthNotAboveZero => raw.length.Some? && raw.length.value <= 0
    case SizesNotAllowed => (raw.maxLength.Some? || raw.chunkSize.Some?) && !IsOfType(raw, Stream)
    case BadLocation => raw.location != "" && ParseLocation(raw.location).None?
  }

  ghost predicate IsOfType(raw: RawField, t: FieldType) {
    ParseFieldType(raw.fieldType) == Some((t, 0))
  }

  lemma NamedTypesHaveNoLength(name: string)
    ensures var parsed := ParseFieldType(name);
            parsed.Some? && parsed.value.0 != FixedBytes ==> parsed.value.1 == 0
  {
  }

  lemma FaultsAreExact(raw: RawField)
    ensures match NormalField(raw)
            case Ok(_) => forall fault :: !HasFault(raw, fault)
            case Err(fault) => HasFault(raw, fault) && forall other | Earlier(other, fault) :: !HasFault(raw, other)
  {
    NamedTypesHaveNoLength(raw.fieldType);
  }

  // The order in which the parser looks for faults.
  predicate Earlier(a: FieldFault, b: FieldFault) {
    Rank(a) < Rank(b)
  }

  function Rank(fault: FieldFault): nat {
    match fault
    case BadType => 0
    case LengthNotAllowed => 1
    case LengthNotAboveZero => 2
    case SizesNotAllowed => 3
    case BadLocation => 4
  }

  // ---- Messages.

  // Where each field of a request goes: where it says; into the data if only others say; into the
  // parameter bytes, in order, if nothing is said and there are one or two single bytes in all.
  lemma PlacementIs(fields: seq<Field>, i: nat)
    requires i < |fields|
    ensures Placed(fields)[i].location ==
            if fields[i].location != Unplaced then fields[i].location
            else if exists j | 0 <= j < |fields| :: fields[j].location != Unplaced then InData
            else if |fields| <= 2 && forall j | 0 <= j < |fields| :: fields[j].fieldType in {U8, Bool} then
              if i == 0 then P1 else P2
            else InData
  {
  }

  // The fields of a request are all placed, without a conflict.
  ghost predicate MessageNormal(section: Section, fields: seq<Field>) {
    && (forall i | 0 <= i < |fields| :: FieldNormal(fields[i]))
    && (section == Request ==>
          Conflict(fields, |fields|).None? && forall i | 0 <= i < |fields| :: fields[i].location != Unplaced)
  }

  function WrittenFields(fields: seq<Field>): (raws: seq<RawField>)
    ensures |raws| == |fields|
  {
    seq(|fields|, i requires 0 <= i < |fields| => WrittenField(fields[i]))
  }

  ghost predicate ParsesTo(raw: RawField, f: Field) {
    NormalField(raw) == Ok(f)
  }

  lemma OneMoreField(raws: seq<RawField>, front: seq<Field>, last: Field)
    requires |front| < |raws| && NormalFields(raws, |front|) == Ok(front) && ParsesTo(raws[|front|], last)
    ensures NormalFields(raws, |front| + 1) == Ok(front + [last])
  {
    NextField(raws, |front|, front, Ok(last));
  }

  lemma {:induction false} FieldsParse(raws: seq<RawField>, done: seq<Field>, n: nat)
    requires n == |done| <= |raws|
    requires forall i {:trigger ParsesTo(raws[i], done[i])} | 0 <= i < n :: ParsesTo(raws[i], done[i])
    ensures NormalFields(raws, n) == Ok(done)
  {
    if n > 0 {
      var front, last := done[..n - 1], done[n - 1];
      forall i {:trigger ParsesTo(raws[i], front[i])} | 0 <= i < n - 1 ensures ParsesTo(raws[i], front[i]) {
        assert ParsesTo(raws[i], done[i]);
      }
      FieldsParse(raws, front, n - 1);
      assert ParsesTo(raws[n - 1], last);
      OneMoreField(raws, front, last);
      assert done == front + [last];
    }
  }

  lemma FieldsReadBack(fields: seq<Field>)
    requires forall i | 0 <= i < |fields| :: FieldNormal(fields[i])
    ensures NormalFields(WrittenFields(fields), |fields|) == Ok(fields)
  {
    var raws := WrittenFields(fields);
    forall i | 0 <= i < |fields| ensures ParsesTo(raws[i], fields[i]) {
      FieldReadsBack(fields[i]);
    }
    FieldsParse(raws, fields, |fields|);
  }

  lemma MessageReadsBack(key: string, section: Section, fields: seq<Field>)
    requires MessageNormal(section, fields)
    ensures MessageOf(key, section, RawMessage(WrittenFields(fields))) == Ok(Message(fields))
  {
    FieldsReadBack(fields);
    if section == Request {
      PlacedAlready(fields);
    }
  }

  lemma {:induction false} ParsedFieldsAreNormal(raws: seq<RawField>, n: nat)
    requires n <= |raws| && NormalFields(raws, n).Ok?
    ensures forall i | 0 <= i < n :: FieldNormal(NormalFields(raws, n).value[i])
  {
    if n > 0 {
      ParsedFieldsAreNormal(raws, n - 1);
      ParsedFieldIsNormal(raws[n - 1]);
    }
  }

  lemma ParsedMessageIsNormal(key: string, section: Section, raw: RawMessage)
    requires MessageOf(key, section, raw).Ok?
    ensures MessageNormal(section, MessageOf(key, section, raw).value.fields)
  {
    ParsedFieldsAreNormal(raw.fields, |raw.fields|);
    var fields := NormalFields(raw.fields, |raw.fields|).value;
    if section == Request {
      PlacementIsStable(fields);
    }
  }

  // ---- Schemas.

  ghost predicate OptionalNormal(section: Section, message: Option<Message>) {
    message.Some? ==> MessageNormal(section, message.value.fields)
  }

  ghost predicate MethodNormal(key: string, m: Option<Method>) {
    && m.Some? && m.value.name == key
    && OptionalNormal(Request, m.value.request) && OptionalNormal(Response, m.value.response)
  }

  // A schema that the parser can give.
  ghost predicate SchemaNormal(s: Schema) {
    && (forall k | k in s.methods :: MethodNormal(k, s.methods[k]))
    && (forall k | k in s.statusWords :: s.statusWords[k].name == k)
  }

  function WrittenMessage(message: Option<Message>): Option<RawMessage> {
    match message
    case None => None
    case Some(m) => Some(RawMessage(WrittenFields(m.fields)))
  }

  function WrittenMethod(m: Method): RawMethod {
    RawMethod(m.ins, m.description, m.streamMode, WrittenMessage(m.request), WrittenMessage(m.response))
  }

  function Written(s: Schema): RawSchema
    requires forall k | k in s.methods :: s.methods[k].Some?
  {
    RawSchema(
      RawApplet(s.applet.name, s.applet.description, s.applet.version, s.applet.aid, s.applet.cla,
                s.applet.workspace, s.applet.cleanup),
      map k | k in s.methods :: WrittenMethod(s.methods[k].value),
      map k | k in s.statusWords :: RawStatusWord(s.statusWords[k].code, s.statusWords[k].description))
  }

  lemma MethodReadsBack(key: string, m: Method)
    requires MethodNormal(key, Some(m))
    ensures MethodOf(key, WrittenMethod(m)) == Ok(m)
  {
    if m.request.Some? {
      MessageReadsBack(key, Request, m.request.value.fields);
    }
    if m.response.Some? {
      MessageReadsBack(key, Response, m.response.value.fields);
    }
  }

  // A schema written out as raw values normalises back to itself.
  lemma SchemaReadsBack(s: Schema)
    requires SchemaNormal(s)
    ensures Normalizes(Written(s)) && Normalized(Written(s)) == s
  {
    var raw := Written(s);
    forall k | k in raw.methods ensures MethodOf(k, raw.methods[k]) == Ok(s.methods[k].value) {
      MethodReadsBack(k, s.methods[k].value);
    }
    assert MethodsOf(raw.methods) == s.methods;
    assert StatusWordsOf(raw.statusWords) == s.statusWords;
  }

  lemma ParsedMethodIsNormal(key: string, raw: RawMethod)
    requires MethodOf(key, raw).Ok?
    ensures MethodNormal(key, Some(MethodOf(key, raw).value))
  {
    if raw.request.Some? {
      ParsedMessageIsNormal(key, Request, raw.request.value);
    }
    if raw.response.Some? {
      ParsedMessageIsNormal(key, Response, raw.response.value);
    }
  }

  lemma ParsedSchemaIsNormal(raw: RawSchema)
    requires Normalizes(raw)
    ensures SchemaNormal(Normalized(raw))
  {
    forall k | k in raw.methods ensures MethodNormal(k, Normalized(raw).methods[k]) {
      ParsedMethodIsNormal(k, raw.methods[k]);
    }
  }

  // The schemas that the parser gives for some raw values are exactly these.
  lemma ParsedSchemasAreNormal(s: Schema)
    ensures SchemaNormal(s) <==> exists raw :: Normalizes(raw) && Normalized(raw) == s
  {
    if SchemaNormal(s) {
      SchemaReadsBack(s);
    }
    if raw :| Normalizes(raw) && Normalized(raw) == s {
      ParsedSchemaIsNormal(raw);
    }
  }
}
