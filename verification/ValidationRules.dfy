/**
 What the schema validator reports, entry by entry (validator.go, workspace_authenticated.go).
 Paths and messages are structured here; the source renders them as text.
 */
module ValidationRules {
  import opened Wrappers
  import opened Text
  import opened Idl

  datatype Section = Request | Response

  datatype Part = NamePart | TypePart | LengthPart | MaxLengthPart | ChunkSizePart | LocationPart

  datatype AppletField = NameField | AidField | ClaField | VersionField | WorkspaceField | CleanupField

  datatype Where =
    | SchemaPath
    | AppletPath(field: AppletField)
    | MethodsPath
    | MethodPath(key: string)
    | MethodNamePath(key: string)
    | InsPath(key: string)
    | StreamModePath(key: string)
    | ResponsePath(key: string)
    | FieldsPath(key: string, section: Section)
    | FieldPath(key: string, section: Section, index: nat, part: Part)
    | StatusPath(key: string)
    | StatusNamePath(key: string)
    | CodePath(key: string)

  /** `first` is the key of the entry that the message says was there before. */
  datatype Problem =
    | NilSchema | NoMethods | NilMethod | BadIdentifier | Blank
    | BadWorkspace | CleanupNeedsPersistent | BadCleanup | BadAid | ReservedCla | BadVersion
    | DuplicateName(name: string, first: string)
    | ExceedsByte(base: int, last: int)
    | DuplicateIns(ins: int, first: string)
    | Collides(ins: int, first: string)
    | ReservedIns(ins: int)
    | UnsupportedType(fieldType: FieldType) | BadMaxLength | BadChunkSize | TooManyChunks
    | StreamNotInData | LengthNotSupported | LengthNotPositive | FixedLengthNotPositive
    | NotU8OrBool(location: Location) | DuplicateLocation(location: Location)
    | UnsupportedLocation(location: Location) | StreamNotAlone
    | BadMode | ModeNeedsStream | ModeNeedsAuthenticated | ModeNeedsRequestStream
    | StreamResponseRefused | ResponseTooLong | ReservedForStream
    | BadCode | DuplicateCode(code: int, first: string)

  datatype ValidationError = ValidationError(where: Where, problem: Problem)

  function When(reported: bool, where: Where, problem: Problem): seq<ValidationError> {
    if reported then [ValidationError(where, problem)] else []
  }

  predicate IsLetter(c: char) {
    'A' <= c <= 'Z' || 'a' <= c <= 'z'
  }

  predicate IsDigit(c: char) {
    '0' <= c <= '9'
  }

  predicate IsIdentifier(name: string) {
    && name != [] && IsLetter(name[0])
    && forall i | 0 <= i < |name| :: IsLetter(name[i]) || IsDigit(name[i]) || name[i] == '_'
  }

  predicate IsBlank(s: string) {
    TrimSpace(s) == ""
  }

  predicate IsNumber(s: string) {
    s == "0" || (s != "" && s[0] != '0' && forall i | 0 <= i < |s| :: IsDigit(s[i]))
  }

  // Three numbers without leading zeros, separated by dots.
  predicate IsSemver(s: string) {
    var i := IndexFrom(s, ".", 0);
    i >= 0 && IsNumber(s[..i]) &&
    var j := IndexFrom(s, ".", i + 1);
    j >= 0 && IsNumber(s[i + 1..j]) && IsNumber(s[j + 1..])
  }

  predicate IsHexDigit(c: char) {
    IsDigit(c) || 'A' <= c <= 'F' || 'a' <= c <= 'f'
  }

  predicate IsAid(aid: string) {
    10 <= |aid| <= 32 && |aid| % 2 == 0 && forall i | 0 <= i < |aid| :: IsHexDigit(aid[i])
  }

  function WorkspaceErrors(applet: Applet): seq<ValidationError> {
    When(applet.workspace.OtherWorkspace?, AppletPath(WorkspaceField), BadWorkspace)
    + When((applet.cleanup.WholeReplyArea? || applet.cleanup.AuthenticatedInvalidate?)
             && applet.workspace != Persistent,
           AppletPath(CleanupField), CleanupNeedsPersistent)
    + When(applet.cleanup.OtherCleanup?, AppletPath(CleanupField), BadCleanup)
  }

  function IdentityErrors(applet: Applet): seq<ValidationError> {
    When(IsBlank(applet.name), AppletPath(NameField), Blank)
    + When(!IsAid(applet.aid), AppletPath(AidField), BadAid)
    + When(applet.cla == 0, AppletPath(ClaField), ReservedCla)
    + When(!IsSemver(applet.version), AppletPath(VersionField), BadVersion)
  }

  function AppletErrors(applet: Applet): seq<ValidationError> {
    WorkspaceErrors(applet) + IdentityErrors(applet)
  }

  predicate IsP1P2Type(t: FieldType) {
    t == U8 || t == Bool
  }

  function StreamErrors(key: string, section: Section, i: nat, f: Field): seq<ValidationError> {
    When(f.maxLength <= 0 || f.maxLength > 0x7FFF, FieldPath(key, section, i, MaxLengthPart), BadMaxLength)
    + When(f.chunkSize <= 0 || f.chunkSize > 0xFF, FieldPath(key, section, i, ChunkSizePart), BadChunkSize)
    + When(f.maxLength > 0 && f.chunkSize > 0 && f.maxLength > Wrap64(f.chunkSize * 0xFF),
           FieldPath(key, section, i, MaxLengthPart), TooManyChunks)
    + When(f.location != Unplaced && f.location != InData, FieldPath(key, section, i, LocationPart), StreamNotInData)
  }

  function LocationErrors(key: string, section: Section, i: nat, f: Field, seenP1: bool, seenP2: bool)
    : seq<ValidationError>
  {
    match f.location
    case Unplaced | InData => []
    case P1 | P2 =>
      When(!IsP1P2Type(f.fieldType), FieldPath(key, section, i, TypePart), NotU8OrBool(f.location))
      + When(if f.location == P1 then seenP1 else seenP2,
             FieldPath(key, section, i, LocationPart), DuplicateLocation(f.location))
    case OtherLocation(_) => When(true, FieldPath(key, section, i, LocationPart), UnsupportedLocation(f.location))
  }

  function FieldErrors(key: string, section: Section, i: nat, f: Field, seenP1: bool, seenP2: bool)
    : seq<ValidationError>
  {
    When(!IsIdentifier(f.name), FieldPath(key, section, i, NamePart), BadIdentifier)
    + When(f.fieldType.OtherType?, FieldPath(key, section, i, TypePart), UnsupportedType(f.fieldType))
    + (if f.fieldType == Stream then StreamErrors(key, section, i, f) else [])
    + When(f.length.Some? && f.fieldType != VarBytes && f.fieldType != Ascii,
           FieldPath(key, section, i, LengthPart), LengthNotSupported)
    + When(f.length.Some? && f.length.value <= 0, FieldPath(key, section, i, LengthPart), LengthNotPositive)
    + When(f.fieldType == FixedBytes && f.fixedLength <= 0,
           FieldPath(key, section, i, TypePart), FixedLengthNotPositive)
    + LocationErrors(key, section, i, f, seenP1, seenP2)
  }

  predicate InUse(fields: seq<Field>, n: nat, location: Location)
    requires n <= |fields|
  {
    n > 0 && (InUse(fields, n - 1, location) || fields[n - 1].location == location)
  }

  lemma {:induction false} InUseIs(fields: seq<Field>, n: nat, location: Location)
    requires n <= |fields|
    ensures InUse(fields, n, location) <==> exists j | 0 <= j < n :: fields[j].location == location
  {
    if n > 0 {
      InUseIs(fields, n - 1, location);
    }
  }

  function FieldParts(key: string, section: Section, fields: seq<Field>): (parts: seq<seq<ValidationError>>)
    ensures |parts| == |fields|
  {
    seq(|fields|, i requires 0 <= i < |fields| =>
      FieldErrors(key, section, i, fields[i], InUse(fields, i, P1), InUse(fields, i, P2)))
  }

  function StreamCount(fields: seq<Field>, n: nat): nat
    requires n <= |fields|
  {
    if n == 0 then 0 else StreamCount(fields, n - 1) + if fields[n - 1].fieldType == Stream then 1 else 0
  }

  function MessageErrors(key: string, section: Section, message: Option<Message>): seq<ValidationError> {
    match message
    case None => []
    case Some(Message(fields)) =>
      Joined(FieldParts(key, section, fields))
      + When(StreamCount(fields, |fields|) > 0 && |fields| != 1, FieldsPath(key, section), StreamNotAlone)
  }

  predicate IsReserved(ins: int) {
    0x60 <= ins <= 0x6F || 0x90 <= ins <= 0x9F
  }

  // One byte of a method's range, against the bytes that earlier methods own.
  function ByteErrors(key: string, base: byte, offset: nat, seen: map<int, string>): seq<ValidationError> {
    var ins := base + offset;
    (if ins !in seen then []
     else if offset == 0 then When(true, InsPath(key), DuplicateIns(ins, seen[ins]))
     else When(true, InsPath(key), Collides(ins, seen[ins])))
    + When(IsReserved(ins), InsPath(key), ReservedIns(ins))
  }

  // The n bytes of a range; what lies beyond 0xFF is not looked at.
  function ByteParts(key: string, base: byte, n: nat, seen: map<int, string>): (parts: seq<seq<ValidationError>>)
    ensures |parts| == n
  {
    seq(n, k requires 0 <= k < n => if base + k <= 0xFF then ByteErrors(key, base, k, seen) else [])
  }

  function InsErrors(key: string, m: Method, seen: map<int, string>): seq<ValidationError> {
    When(m.ins + Span(m) - 1 > 0xFF, InsPath(key), ExceedsByte(m.ins, m.ins + Span(m) - 1))
    + Joined(ByteParts(key, m.ins, Span(m), seen))
  }

  function StreamModeErrors(key: string, applet: Applet, m: Method): seq<ValidationError> {
    var at := StreamModePath(key);
    if m.streamMode == NoMode then []
    else if m.streamMode.OtherMode? then When(true, at, BadMode)
    else if !HasStream(m) then When(true, at, ModeNeedsStream)
    else if applet.workspace != Persistent || applet.cleanup != AuthenticatedInvalidate then
      When(true, at, ModeNeedsAuthenticated)
    else When(StreamField(m.request).None?, at, ModeNeedsRequestStream)
  }

  // p1 and p2 carry the packet index and count of a streamed method.
  function ReservedParts(key: string, fields: seq<Field>): (parts: seq<seq<ValidationError>>)
    ensures |parts| == |fields|
  {
    seq(|fields|, i requires 0 <= i < |fields| =>
      When(fields[i].location == P1 || fields[i].location == P2,
           FieldPath(key, Request, i, LocationPart), ReservedForStream))
  }

  predicate ResponseIsTooLong(m: Method) {
    HasStream(m) && StreamField(m.response).None? &&
    var length := FixedLength(Fields(m.response));
    length.Some? && length.value > 0xFF
  }

  function StreamUseErrors(key: string, applet: Applet, m: Method): seq<ValidationError> {
    StreamModeErrors(key, applet, m)
    + When(applet.cleanup == AuthenticatedInvalidate && StreamField(m.response).Some? && m.streamMode == NoMode,
           ResponsePath(key), StreamResponseRefused)
    + When(ResponseIsTooLong(m), FieldsPath(key, Response), ResponseTooLong)
    + (if HasStream(m) then Joined(ReservedParts(key, Fields(m.request))) else [])
  }

  function MethodName(key: string, m: Method): string {
    if IsBlank(m.name) then key else m.name
  }

  function NameErrors(key: string, m: Method, names: map<string, string>): seq<ValidationError> {
    When(!IsBlank(m.name) && !IsIdentifier(m.name), MethodNamePath(key), BadIdentifier)
    + (if MethodName(key, m) in names
       then When(true, MethodPath(key), DuplicateName(MethodName(key, m), names[MethodName(key, m)])) else [])
  }

  // Indexing a Go map: a missing method is nil, a missing status word the zero value.
  function MethodAt(methods: map<string, Option<Method>>, key: string): Option<Method> {
    if key in methods then methods[key] else None
  }

  function WordAt(words: map<string, StatusWord>, key: string): StatusWord {
    if key in words then words[key] else StatusWord("", 0, "")
  }

  // Who claimed an instruction byte first among the first n keys; bytes beyond 0xFF are not claimed.
  predicate Claims(methods: map<string, Option<Method>>, key: string, ins: int) {
    match MethodAt(methods, key)
    case None => false
    case Some(m) => m.ins <= ins < m.ins + Span(m) && ins <= 0xFF
  }

  function FirstClaim(methods: map<string, Option<Method>>, keys: seq<string>, n: nat, ins: int): (r: Option<string>)
    requires n <= |keys|
  {
    if n == 0 then None
    else
      var before := FirstClaim(methods, keys, n - 1, ins);
      if before.Some? then before
      else if Claims(methods, keys[n - 1], ins) then Some(keys[n - 1])
      else None
  }

  function InsOwners(methods: map<string, Option<Method>>, keys: seq<string>, n: nat): map<int, string>
    requires n <= |keys|
  {
    map ins | 0 <= ins <= 0xFF && FirstClaim(methods, keys, n, ins).Some? :: FirstClaim(methods, keys, n, ins).value
  }

  // Whoever is there, or else `key`.
  function FirstOwner<T>(owners: map<T, string>, claimed: T, key: string): map<T, string> {
    if claimed in owners then owners else owners[claimed := key]
  }

  function NameOwners(methods: map<string, Option<Method>>, keys: seq<string>, n: nat): map<string, string>
    requires n <= |keys|
  {
    if n == 0 then map[]
    else
      var before, key := NameOwners(methods, keys, n - 1), keys[n - 1];
      match MethodAt(methods, key)
      case None => before
      case Some(m) => FirstOwner(before, MethodName(key, m), key)
  }

  // What is reported of a method, given who owns names and bytes already.
  function DefinitionErrors(applet: Applet, key: string, m: Method, names: map<string, string>, seen: map<int, string>)
    : seq<ValidationError>
  {
    NameErrors(key, m, names)
    + InsErrors(key, m, seen)
    + MessageErrors(key, Request, m.request)
    + MessageErrors(key, Response, m.response)
    + StreamUseErrors(key, applet, m)
  }

  function MethodErrors(s: Schema, keys: seq<string>, i: nat): seq<ValidationError>
    requires i < |keys|
  {
    When(!IsIdentifier(keys[i]), MethodPath(keys[i]), BadIdentifier)
    + match MethodAt(s.methods, keys[i])
      case None => When(true, MethodPath(keys[i]), NilMethod)
      case Some(m) =>
        DefinitionErrors(s.applet, keys[i], m, NameOwners(s.methods, keys, i), InsOwners(s.methods, keys, i))
  }

  function MethodParts(s: Schema, keys: seq<string>): (parts: seq<seq<ValidationError>>)
    ensures |parts| == |keys|
  {
    seq(|keys|, i requires 0 <= i < |keys| => MethodErrors(s, keys, i))
  }

  function AllMethodsErrors(s: Schema, keys: seq<string>): seq<ValidationError> {
    if keys == [] then When(true, MethodsPath, NoMethods) else Joined(MethodParts(s, keys))
  }

  predicate IsStatusCode(code: int) {
    0x6000 <= code <= 0x6FFF || 0x9000 <= code <= 0x9FFF
  }

  function StatusName(key: string, w: StatusWord): string {
    if IsBlank(w.name) then key else w.name
  }

  function StatusNames(words: map<string, StatusWord>, keys: seq<string>, n: nat): map<string, string>
    requires n <= |keys|
  {
    if n == 0 then map[]
    else FirstOwner(StatusNames(words, keys, n - 1), StatusName(keys[n - 1], WordAt(words, keys[n - 1])), keys[n - 1])
  }

  function Codes(words: map<string, StatusWord>, keys: seq<string>, n: nat): map<int, string>
    requires n <= |keys|
  {
    if n == 0 then map[]
    else FirstOwner(Codes(words, keys, n - 1), WordAt(words, keys[n - 1]).code, keys[n - 1])
  }

  function StatusErrors(key: string, w: StatusWord, names: map<string, string>, codes: map<int, string>)
    : seq<ValidationError>
  {
    When(!IsIdentifier(key), StatusPath(key), BadIdentifier)
    + When(!IsBlank(w.name) && !IsIdentifier(w.name), StatusNamePath(key), BadIdentifier)
    + (if StatusName(key, w) in names
       then When(true, StatusPath(key), DuplicateName(StatusName(key, w), names[StatusName(key, w)])) else [])
    + When(!IsStatusCode(w.code), CodePath(key), BadCode)
    + (if w.code in codes then When(true, CodePath(key), DuplicateCode(w.code, codes[w.code])) else [])
  }

  function StatusWordErrors(words: map<string, StatusWord>, keys: seq<string>, i: nat): seq<ValidationError>
    requires i < |keys|
  {
    StatusErrors(keys[i], WordAt(words, keys[i]), StatusNames(words, keys, i), Codes(words, keys, i))
  }

  function StatusWordParts(words: map<string, StatusWord>, keys: seq<string>): (parts: seq<seq<ValidationError>>)
    ensures |parts| == |keys|
  {
    seq(|keys|, i requires 0 <= i < |keys| => StatusWordErrors(words, keys, i))
  }

  // Everything Validate reports, for the two maps' keys in the order it takes them.
  function SchemaErrors(s: Schema, keys: seq<string>, statusKeys: seq<string>): seq<ValidationError> {
    AppletErrors(s.applet)
    + AllMethodsErrors(s, keys)
    + Joined(StatusWordParts(s.statusWords, statusKeys))
  }
}
