/** From raw schema values to the normalised schema (parser.go). */
module Parser {
  import opened Wrappers
  import opened Text
  import opened Idl
  import opened ValidationRules

  datatype RawField = RawField(
    name: string, fieldType: string, length: Option<int64>,
    maxLength: Option<int64>, chunkSize: Option<int64>, location: string)

  datatype RawMessage = RawMessage(fields: seq<RawField>)

  datatype RawMethod = RawMethod(
    ins: int64, description: string, streamMode: StreamMode,
    request: Option<RawMessage>, response: Option<RawMessage>)

  datatype RawStatusWord = RawStatusWord(code: int64, description: string)

  datatype RawApplet = RawApplet(
    name: string, description: string, version: string, aid: string, cla: int64,
    workspace: Workspace, cleanup: Cleanup)

  datatype RawSchema = RawSchema(
    applet: RawApplet, methods: map<string, RawMethod>, statusWords: map<string, RawStatusWord>)

  /** Why a field is refused. */
  datatype FieldFault = BadType | LengthNotAllowed | LengthNotAboveZero | SizesNotAllowed | BadLocation

  /** The error that stops the parser. */
  datatype ParseError =
    | ClaOutOfRange
    | InsOutOfRange(key: string)
    | CodeOutOfRange(key: string)
    | InField(key: string, section: Section, index: nat, fault: FieldFault)
    | InRequest(key: string, location: Location)

  // ---- Field types and locations.

  const TYPE_NAMES: seq<(string, FieldType)> :=
    [("u8", U8), ("u16", U16), ("u32", U32), ("bool", Bool), ("ascii", Ascii),
     ("string", FieldType.Text), ("bytes", VarBytes), ("stream", Stream)]

  const LOCATION_NAMES: seq<(string, Location)> := [("p1", P1), ("p2", P2), ("data", InData)]

  function Lookup<T>(names: seq<(string, T)>, name: string): Option<T> {
    if names == [] then None
    else if names[0].0 == name then Some(names[0].1)
    else Lookup(names[1..], name)
  }

  function ToLower(s: string): (r: string)
    ensures |r| == |s|
  {
    if s == [] then []
    else [if 'A' <= s[0] <= 'Z' then (s[0] as int + 32) as char else s[0]] + ToLower(s[1..])
  }

  // strconv.Atoi on a string of digits: None when it does not fit.
  function DigitsValue(digits: string): nat
    requires forall i | 0 <= i < |digits| :: IsDigit(digits[i])
  {
    if digits == [] then 0
    else
      assert IsDigit(digits[|digits| - 1]);
      10 * DigitsValue(digits[..|digits| - 1]) + (digits[|digits| - 1] as int - '0' as int)
  }

  const MAX_INT := 0x7FFF_FFFF_FFFF_FFFF

  // The N of bytes[N].
  function FixedWidth(t: string): Option<int64> {
    if |t| < 8 || t[..6] != "bytes[" || t[|t| - 1] != ']' then None
    else if exists i | 6 <= i < |t| - 1 :: !IsDigit(t[i]) then None
    else if DigitsValue(t[6..|t| - 1]) > MAX_INT then None
    else Some(DigitsValue(t[6..|t| - 1]))
  }

  // The type, and the fixed length that goes with it.
  function ParseFieldType(t: string): (r: Option<(FieldType, int64)>)
    ensures r.Some? ==> !r.value.0.OtherType? && (r.value.0 == FixedBytes ==> r.value.1 >= 0)
  {
    var trimmed := TrimSpace(t);
    match Lookup(TYPE_NAMES, trimmed)
    case Some(known) => KnownTypes(trimmed); Some((known, 0))
    case None =>
      match FixedWidth(trimmed)
      case Some(n) => Some((FixedBytes, n))
      case None => None
  }

  lemma KnownTypes(name: string)
    ensures var r := Lookup(TYPE_NAMES, name); r.Some? ==> !r.value.OtherType? && r.value != FixedBytes
  {
    LookupFinds(TYPE_NAMES, name);
  }

  lemma {:induction false} LookupFinds<T>(names: seq<(string, T)>, name: string)
    ensures var r := Lookup(names, name); r.Some? ==> (name, r.value) in names
  {
    if names != [] && names[0].0 != name {
      LookupFinds(names[1..], name);
    } else if names != [] {
      assert names[0] == (name, names[0].1);
    }
  }

  function ParseLocation(location: string): (r: Option<Location>)
    ensures r.Some? ==> r.value in {P1, P2, InData}
  {
    LookupFinds(LOCATION_NAMES, ToLower(TrimSpace(location)));
    Lookup(LOCATION_NAMES, ToLower(TrimSpace(location)))
  }

  // A field without a location is not placed yet.
  function NormalLocation(location: string): (r: Option<Location>)
    ensures r.Some? ==> r.value in {Unplaced, P1, P2, InData}
  {
    if location == "" then Some(Unplaced) else ParseLocation(location)
  }

  function ValueOr(x: Option<int64>, otherwise: int64): int64 {
    if x.Some? then x.value else otherwise
  }

  function NormalField(raw: RawField): Result<Field, FieldFault> {
    var parsed, location := ParseFieldType(raw.fieldType), NormalLocation(raw.location);
    if parsed.None? then Err(BadType)
    else if parsed.value.0 != VarBytes && parsed.value.0 != Ascii && raw.length.Some? then Err(LengthNotAllowed)
    else if raw.length.Some? && raw.length.value <= 0 then Err(LengthNotAboveZero)
    else if parsed.value.0 != Stream && (raw.maxLength.Some? || raw.chunkSize.Some?) then Err(SizesNotAllowed)
    else if location.None? then Err(BadLocation)
    else
      Ok(Field(raw.name, parsed.value.0, raw.length, parsed.value.1,
               ValueOr(raw.maxLength, 0), ValueOr(raw.chunkSize, 0), location.value))
  }

  // ---- The locations of request fields.

  // The first field that claims a parameter byte again, or has an unknown location.
  function Conflict(fields: seq<Field>, n: nat): Option<Location>
    requires n <= |fields|
  {
    if n == 0 then None
    else if Conflict(fields, n - 1).Some? then Conflict(fields, n - 1)
    else
      match fields[n - 1].location
      case P1 | P2 => if InUse(fields, n - 1, fields[n - 1].location) then Some(fields[n - 1].location) else None
      case OtherLocation(_) => Some(fields[n - 1].location)
      case _ => None
  }

  predicate Explicit(fields: seq<Field>, n: nat)
    requires n <= |fields|
  {
    exists i | 0 <= i < n :: fields[i].location != Unplaced
  }

  function InDataByDefault(f: Field): Field {
    if f.location == Unplaced then f.(location := InData) else f
  }

  // A request that says nothing about locations: one or two single bytes go to P1 and P2,
  // anything else into the data. Otherwise what is not placed goes into the data.
  function Placed(fields: seq<Field>): (r: seq<Field>)
    ensures |r| == |fields|
  {
    if Explicit(fields, |fields|) then seq(|fields|, i requires 0 <= i < |fields| => InDataByDefault(fields[i]))
    else if |fields| == 1 && IsP1P2Type(fields[0].fieldType) then [fields[0].(location := P1)]
    else if |fields| == 2 && IsP1P2Type(fields[0].fieldType) && IsP1P2Type(fields[1].fieldType) then
      [fields[0].(location := P1), fields[1].(location := P2)]
    else seq(|fields|, i requires 0 <= i < |fields| => fields[i].(location := InData))
  }

  // The explicit case: None is success, and the fields are placed in the array itself.
  method PlaceExplicit(fields: array<Field>) returns (conflict: Option<Location>)
    modifies fields
    ensures conflict == Conflict(old(fields[..]), fields.Length)
    ensures conflict.None? ==> forall i | 0 <= i < fields.Length :: fields[i] == InDataByDefault(old(fields[i]))
  {
    ghost var before := fields[..];
    var seenP1, seenP2 := false, false;
    for i := 0 to fields.Length
      invariant seenP1 == InUse(before, i, P1) && seenP2 == InUse(before, i, P2)
      invariant Conflict(before, i) == None
      invariant forall k | 0 <= k < i :: fields[k] == InDataByDefault(before[k])
      invariant forall k | i <= k < fields.Length :: fields[k] == before[k]
    {
      match fields[i].location {
        case Unplaced => fields[i] := fields[i].(location := InData);
        case P1 =>
          if seenP1 {
            ConflictStays(before, i + 1, fields.Length);
            return Some(P1);
          }
          seenP1 := true;
        case P2 =>
          if seenP2 {
            ConflictStays(before, i + 1, fields.Length);
            return Some(P2);
          }
          seenP2 := true;
        case InData =>
        case OtherLocation(_) =>
          ConflictStays(before, i + 1, fields.Length);
          return Some(fields[i].location);
      }
    }
    return None;
  }

  lemma {:induction false} ConflictStays(fields: seq<Field>, i: nat, n: nat)
    requires i <= n <= |fields| && Conflict(fields, i).Some?
    ensures Conflict(fields, n) == Conflict(fields, i)
    decreases n
  {
    if i < n {
      ConflictStays(fields, i, n - 1);
    }
  }

  lemma {:induction false} NoConflict(fields: seq<Field>, n: nat)
    requires n <= |fields| && forall i | 0 <= i < n :: fields[i].location == Unplaced
    ensures Conflict(fields, n) == None
  {
    if n > 0 {
      NoConflict(fields, n - 1);
    }
  }

  method AssignRequestLocations(fields: array<Field>) returns (conflict: Option<Location>)
    modifies fields
    ensures conflict == Conflict(old(fields[..]), fields.Length)
    ensures conflict.None? ==> fields[..] == Placed(old(fields[..]))
  {
    ghost var before := fields[..];
    if fields.Length == 0 {
      return None;
    }
    var explicit := false;
    for i := 0 to fields.Length
      invariant !explicit && !Explicit(before, i)
      invariant fields[..] == before
    {
      if fields[i].location != Unplaced {
        explicit := true;
        break;
      }
    }
    if explicit {
      conflict := PlaceExplicit(fields);
      assert conflict.None? ==> fields[..] == Placed(before);
      return;
    }
    NoConflict(before, fields.Length);
    if fields.Length == 1 && IsP1P2Type(fields[0].fieldType) {
      fields[0] := fields[0].(location := P1);
    } else if fields.Length == 2 && IsP1P2Type(fields[0].fieldType) && IsP1P2Type(fields[1].fieldType) {
      fields[0] := fields[0].(location := P1);
      fields[1] := fields[1].(location := P2);
    } else {
      for i := 0 to fields.Length
        invariant forall k | 0 <= k < i :: fields[k] == before[k].(location := InData)
        invariant forall k | i <= k < fields.Length :: fields[k] == before[k]
      {
        fields[i] := fields[i].(location := InData);
      }
    }
    assert fields[..] == Placed(before);
    return None;
  }
}
