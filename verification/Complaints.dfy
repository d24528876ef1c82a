/**
 What there is to complain about in a schema, said of the schema itself: no order of visiting, no
 maps of what was seen before. The validator's report is proved to hold exactly this.
 */
module Complaints {
  import opened Wrappers
  import opened Idl
  import opened Keys
  import opened ValidationRules
  import opened Validator
  import opened Allocation
  import opened Dispatch
  import opened Verdict

  // ---- The complaints.

  ghost predicate Says(e: ValidationError, where: Where, problem: Problem) {
    e == ValidationError(where, problem)
  }

  ghost predicate AppletComplaint(a: Applet, e: ValidationError) {
    || WorkspaceComplaint(a, e)
    || (Says(e, AppletPath(NameField), Blank) && IsBlank(a.name))
    || (Says(e, AppletPath(AidField), BadAid) && !IsAid(a.aid))
    || (Says(e, AppletPath(ClaField), ReservedCla) && a.cla == 0)
    || (Says(e, AppletPath(VersionField), BadVersion) && !IsSemver(a.version))
  }

  ghost predicate WorkspaceComplaint(a: Applet, e: ValidationError) {
    || (Says(e, AppletPath(WorkspaceField), BadWorkspace) && a.workspace.OtherWorkspace?)
    || (Says(e, AppletPath(CleanupField), CleanupNeedsPersistent)
        && a.workspace != Persistent && (a.cleanup.WholeReplyArea? || a.cleanup.AuthenticatedInvalidate?))
    || (Says(e, AppletPath(CleanupField), BadCleanup) && a.cleanup.OtherCleanup?)
  }

  // What is wrong with the bounds and the place of a stream field.
  ghost predicate BoundsComplaint(key: string, section: Section, i: nat, f: Field, e: ValidationError) {
    || (Says(e, FieldPath(key, section, i, MaxLengthPart), BadMaxLength) && !(0 < f.maxLength <= 0x7FFF))
    || (Says(e, FieldPath(key, section, i, ChunkSizePart), BadChunkSize) && !(0 < f.chunkSize <= 0xFF))
    || (Says(e, FieldPath(key, section, i, MaxLengthPart), TooManyChunks)
        && 0 < f.maxLength && 0 < f.chunkSize && Wrap64(f.chunkSize * 0xFF) < f.maxLength)
    || (Says(e, FieldPath(key, section, i, LocationPart), StreamNotInData) && f.location !in {Unplaced, InData})
  }

  // What is wrong with where a field goes; a parameter byte belongs to the first field that has it.
  ghost predicate PlaceComplaint(key: string, section: Section, fields: seq<Field>, i: nat, e: ValidationError)
    requires i < |fields|
  {
    var f := fields[i];
    || (Says(e, FieldPath(key, section, i, TypePart), NotU8OrBool(f.location))
        && f.location in {P1, P2} && !IsP1P2Type(f.fieldType))
    || (Says(e, FieldPath(key, section, i, LocationPart), DuplicateLocation(f.location))
        && f.location in {P1, P2} && exists j | 0 <= j < i :: fields[j].location == f.location)
    || (Says(e, FieldPath(key, section, i, LocationPart), UnsupportedLocation(f.location)) && f.location.OtherLocation?)
  }

  ghost predicate FieldComplaint(key: string, section: Section, fields: seq<Field>, i: nat, e: ValidationError)
    requires i < |fields|
  {
    var f := fields[i];
    || (Says(e, FieldPath(key, section, i, NamePart), BadIdentifier) && !IsIdentifier(f.name))
    || (Says(e, FieldPath(key, section, i, TypePart), UnsupportedType(f.fieldType)) && f.fieldType.OtherType?)
    || (f.fieldType == Stream && BoundsComplaint(key, section, i, f, e))
    || (Says(e, FieldPath(key, section, i, LengthPart), LengthNotSupported)
        && f.length.Some? && f.fieldType !in {VarBytes, Ascii})
    || (Says(e, FieldPath(key, section, i, LengthPart), LengthNotPositive) && f.length.Some? && f.length.value <= 0)
    || (Says(e, FieldPath(key, section, i, TypePart), FixedLengthNotPositive)
        && f.fieldType == FixedBytes && f.fixedLength <= 0)
    || PlaceComplaint(key, section, fields, i, e)
  }

  ghost predicate MessageComplaint(key: string, section: Section, fields: seq<Field>, e: ValidationError) {
    || (exists i :: 0 <= i < |fields| && FieldComplaint(key, section, fields, i, e))
    || (Says(e, FieldsPath(key, section), StreamNotAlone) && |fields| != 1
        && exists i | 0 <= i < |fields| :: fields[i].fieldType == Stream)
  }

  // Of the things that can be wrong with a stream mode only the first is reported.
  ghost predicate ModeComplaint(key: string, a: Applet, m: Method, e: ValidationError) {
    if m.streamMode == NoMode then false
    else if m.streamMode.OtherMode? then Says(e, StreamModePath(key), BadMode)
    else if !HasStream(m) then Says(e, StreamModePath(key), ModeNeedsStream)
    else if !(a.workspace == Persistent && a.cleanup == AuthenticatedInvalidate) then
      Says(e, StreamModePath(key), ModeNeedsAuthenticated)
    else Says(e, StreamModePath(key), ModeNeedsRequestStream) && StreamField(m.request).None?
  }

  // What is wrong with a method as a streamed one.
  ghost predicate StreamComplaint(key: string, a: Applet, m: Method, e: ValidationError) {
    || ModeComplaint(key, a, m, e)
    || (Says(e, ResponsePath(key), StreamResponseRefused)
        && a.cleanup == AuthenticatedInvalidate && StreamField(m.response).Some? && m.streamMode == NoMode)
    || (Says(e, FieldsPath(key, Response), ResponseTooLong) && ResponseIsTooLong(m))
    || (HasStream(m) && ReservedComplaint(key, Fields(m.request), e))
  }

  // A request of a streamed method uses a parameter byte.
  ghost predicate ReservedComplaint(key: string, fields: seq<Field>, e: ValidationError) {
    exists i :: 0 <= i < |fields| && fields[i].location in {P1, P2}
                && Says(e, FieldPath(key, Request, i, LocationPart), ReservedForStream)
  }

  // The least of some keys, which is the one that a message about a duplicate names.
  ghost predicate Least(among: set<string>, first: string) {
    first in among && forall k | k in among :: k == first || Before(first, k)
  }

  function KeysNamed(methods: Methods, name: string): set<string> {
    set k | k in methods && methods[k].Some? && MethodName(k, methods[k].value) == name
  }

  ghost predicate NameComplaint(methods: Methods, key: string, m: Method, e: ValidationError) {
    || (Says(e, MethodNamePath(key), BadIdentifier) && !IsBlank(m.name) && !IsIdentifier(m.name))
    || (e.problem.DuplicateName? && Says(e, MethodPath(key), DuplicateName(MethodName(key, m), e.problem.first))
        && e.problem.first != key && Least(KeysNamed(methods, MethodName(key, m)), e.problem.first))
  }

  ghost predicate DefinitionComplaint(s: Schema, key: string, m: Method, e: ValidationError) {
    || NameComplaint(s.methods, key, m, e)
    || (e.where == InsPath(key) && InsProblem(s.methods, key, e.problem))
    || MessageComplaint(key, Request, Fields(m.request), e)
    || MessageComplaint(key, Response, Fields(m.response), e)
    || StreamComplaint(key, s.applet, m, e)
  }

  ghost predicate MethodComplaint(s: Schema, key: string, e: ValidationError) {
    || (Says(e, MethodPath(key), BadIdentifier) && !IsIdentifier(key))
    || match MethodAt(s.methods, key)
       case None => Says(e, MethodPath(key), NilMethod)
       case Some(m) => DefinitionComplaint(s, key, m, e)
  }

  function WordsNamed(words: map<string, StatusWord>, name: string): set<string> {
    set k | k in words && StatusName(k, words[k]) == name
  }

  function WordsCoded(words: map<string, StatusWord>, code: int): set<string> {
    set k | k in words && words[k].code == code
  }

  ghost predicate StatusComplaint(words: map<string, StatusWord>, key: string, e: ValidationError) {
    var w := WordAt(words, key);
    || (Says(e, StatusPath(key), BadIdentifier) && !IsIdentifier(key))
    || (Says(e, StatusNamePath(key), BadIdentifier) && !IsBlank(w.name) && !IsIdentifier(w.name))
    || (e.problem.DuplicateName? && Says(e, StatusPath(key), DuplicateName(StatusName(key, w), e.problem.first))
        && e.problem.first != key && Least(WordsNamed(words, StatusName(key, w)), e.problem.first))
    || (Says(e, CodePath(key), BadCode) && !IsStatusCode(w.code))
    || (e.problem.DuplicateCode? && Says(e, CodePath(key), DuplicateCode(w.code, e.problem.first))
        && e.problem.first != key && Least(WordsCoded(words, w.code), e.problem.first))
  }

  ghost predicate IsComplaint(s: Schema, e: ValidationError) {
    || AppletComplaint(s.applet, e)
    || (Says(e, MethodsPath, NoMethods) && s.methods == map[])
    || (exists key :: key in s.methods && MethodComplaint(s, key, e))
    || (exists key :: key in s.statusWords && StatusComplaint(s.statusWords, key, e))
  }

  // ---- Lists of errors.

  lemma InWhen(c: bool, where: Where, problem: Problem, e: ValidationError)
    ensures e in When(c, where, problem) <==> c && Says(e, where, problem)
  {
  }

  lemma InSum<T>(a: seq<T>, b: seq<T>, x: T)
    ensures x in a + b <==> x in a || x in b
  {
  }

  lemma InThree<T>(a: seq<T>, b: seq<T>, c: seq<T>, x: T)
    ensures x in a + b + c <==> x in a || x in b || x in c
  {
    InSum(a, b, x);
    InSum(a + b, c, x);
  }

  lemma InFour<T>(a: seq<T>, b: seq<T>, c: seq<T>, d: seq<T>, x: T)
    ensures x in a + b + c + d <==> x in a || x in b || x in c || x in d
  {
    InThree(a, b, c, x);
    InSum(a + b + c, d, x);
  }

  lemma InFive<T>(a: seq<T>, b: seq<T>, c: seq<T>, d: seq<T>, e: seq<T>, x: T)
    ensures x in a + b + c + d + e <==> x in a || x in b || x in c || x in d || x in e
  {
    InFour(a, b, c, d, x);
    InSum(a + b + c + d, e, x);
  }

  lemma InSeven<T>(a: seq<T>, b: seq<T>, c: seq<T>, d: seq<T>, e: seq<T>, f: seq<T>, g: seq<T>, x: T)
    ensures x in a + b + c + d + e + f + g <==> x in a || x in b || x in c || x in d || x in e || x in f || x in g
  {
    InFive(a, b, c, d, e, x);
    InSum(a + b + c + d + e, f, x);
    InSum(a + b + c + d + e + f, g, x);
  }

  lemma AppletErrorsAre(a: Applet, e: ValidationError)
    ensures e in AppletErrors(a) <==> AppletComplaint(a, e)
  {
    InSum(WorkspaceErrors(a), IdentityErrors(a), e);
    WorkspaceErrorsAre(a, e);
    IdentityErrorsAre(a, e);
  }

  lemma WorkspaceErrorsAre(a: Applet, e: ValidationError)
    ensures e in WorkspaceErrors(a) <==> WorkspaceComplaint(a, e)
  {
    var needs := (a.cleanup.WholeReplyArea? || a.cleanup.AuthenticatedInvalidate?) && a.workspace != Persistent;
    InThree(When(a.workspace.OtherWorkspace?, AppletPath(WorkspaceField), BadWorkspace),
            When(needs, AppletPath(CleanupField), CleanupNeedsPersistent),
            When(a.cleanup.OtherCleanup?, AppletPath(CleanupField), BadCleanup), e);
    InWhen(a.workspace.OtherWorkspace?, AppletPath(WorkspaceField), BadWorkspace, e);
    InWhen(needs, AppletPath(CleanupField), CleanupNeedsPersistent, e);
    InWhen(a.cleanup.OtherCleanup?, AppletPath(CleanupField), BadCleanup, e);
  }

  lemma IdentityErrorsAre(a: Applet, e: ValidationError)
    ensures e in IdentityErrors(a) <==> AppletComplaint(a, e) && !WorkspaceComplaint(a, e)
  {
    InFourWhens(IsBlank(a.name), AppletPath(NameField), Blank, !IsAid(a.aid), AppletPath(AidField), BadAid,
                a.cla == 0, AppletPath(ClaField), ReservedCla,
                !IsSemver(a.version), AppletPath(VersionField), BadVersion, e);
  }

  lemma InFourWhens(a: bool, w: Where, p: Problem, b: bool, x: Where, q: Problem,
                    c: bool, y: Where, r: Problem, d: bool, z: Where, t: Problem, e: ValidationError)
    ensures e in When(a, w, p) + When(b, x, q) + When(c, y, r) + When(d, z, t)
       <==> (a && Says(e, w, p)) || (b && Says(e, x, q)) || (c && Says(e, y, r)) || (d && Says(e, z, t))
  {
    InFour(When(a, w, p), When(b, x, q), When(c, y, r), When(d, z, t), e);
    InWhen(a, w, p, e);
    InWhen(b, x, q, e);
    InWhen(c, y, r, e);
    InWhen(d, z, t, e);
  }

  // ---- Messages.

  lemma BoundsErrorsAre(key: string, section: Section, i: nat, f: Field, e: ValidationError)
    ensures e in StreamErrors(key, section, i, f) <==> BoundsComplaint(key, section, i, f, e)
  {
    var tooMany := f.maxLength > 0 && f.chunkSize > 0 && f.maxLength > Wrap64(f.chunkSize * 0xFF);
    InFourWhens(f.maxLength <= 0 || f.maxLength > 0x7FFF, FieldPath(key, section, i, MaxLengthPart), BadMaxLength,
                f.chunkSize <= 0 || f.chunkSize > 0xFF, FieldPath(key, section, i, ChunkSizePart), BadChunkSize,
                tooMany, FieldPath(key, section, i, MaxLengthPart), TooManyChunks,
                f.location != Unplaced && f.location != InData,
                FieldPath(key, section, i, LocationPart), StreamNotInData, e);
  }

  lemma PlaceErrorsAre(key: string, section: Section, fields: seq<Field>, i: nat, e: ValidationError)
    requires i < |fields|
    ensures e in LocationErrors(key, section, i, fields[i], InUse(fields, i, P1), InUse(fields, i, P2))
       <==> PlaceComplaint(key, section, fields, i, e)
  {
    var f := fields[i];
    var seen := if f.location == P1 then InUse(fields, i, P1) else InUse(fields, i, P2);
    InUseIs(fields, i, P1);
    InUseIs(fields, i, P2);
    InSum(When(!IsP1P2Type(f.fieldType), FieldPath(key, section, i, TypePart), NotU8OrBool(f.location)),
          When(seen, FieldPath(key, section, i, LocationPart), DuplicateLocation(f.location)), e);
    InWhen(!IsP1P2Type(f.fieldType), FieldPath(key, section, i, TypePart), NotU8OrBool(f.location), e);
    InWhen(seen, FieldPath(key, section, i, LocationPart), DuplicateLocation(f.location), e);
    InWhen(true, FieldPath(key, section, i, LocationPart), UnsupportedLocation(f.location), e);
  }

  lemma FieldErrorsAre(key: string, section: Section, fields: seq<Field>, i: nat, e: ValidationError)
    requires i < |fields|
    ensures e in FieldErrors(key, section, i, fields[i], InUse(fields, i, P1), InUse(fields, i, P2))
       <==> FieldComplaint(key, section, fields, i, e)
  {
    var f := fields[i];
    var noLength := f.length.Some? && f.fieldType != VarBytes && f.fieldType != Ascii;
    InSeven(When(!IsIdentifier(f.name), FieldPath(key, section, i, NamePart), BadIdentifier),
            When(f.fieldType.OtherType?, FieldPath(key, section, i, TypePart), UnsupportedType(f.fieldType)),
            if f.fieldType == Stream then StreamErrors(key, section, i, f) else [],
            When(noLength, FieldPath(key, section, i, LengthPart), LengthNotSupported),
            When(f.length.Some? && f.length.value <= 0, FieldPath(key, section, i, LengthPart), LengthNotPositive),
            When(f.fieldType == FixedBytes && f.fixedLength <= 0,
                 FieldPath(key, section, i, TypePart), FixedLengthNotPositive),
            LocationErrors(key, section, i, f, InUse(fields, i, P1), InUse(fields, i, P2)), e);
    InWhen(!IsIdentifier(f.name), FieldPath(key, section, i, NamePart), BadIdentifier, e);
    InWhen(f.fieldType.OtherType?, FieldPath(key, section, i, TypePart), UnsupportedType(f.fieldType), e);
    InWhen(noLength, FieldPath(key, section, i, LengthPart), LengthNotSupported, e);
    InWhen(f.length.Some? && f.length.value <= 0, FieldPath(key, section, i, LengthPart), LengthNotPositive, e);
    InWhen(f.fieldType == FixedBytes && f.fixedLength <= 0,
           FieldPath(key, section, i, TypePart), FixedLengthNotPositive, e);
    BoundsErrorsAre(key, section, i, f, e);
    PlaceErrorsAre(key, section, fields, i, e);
  }

  lemma FieldPartsAre(key: string, section: Section, fields: seq<Field>, e: ValidationError)
    ensures e in Joined(FieldParts(key, section, fields))
       <==> exists i :: 0 <= i < |fields| && FieldComplaint(key, section, fields, i, e)
  {
    var parts := FieldParts(key, section, fields);
    JoinedMembers(parts, e);
    forall i | 0 <= i < |fields| ensures e in parts[i] <==> FieldComplaint(key, section, fields, i, e) {
      FieldErrorsAre(key, section, fields, i, e);
    }
  }

  lemma MessageErrorsAre(key: string, section: Section, message: Option<Message>, e: ValidationError)
    ensures e in MessageErrors(key, section, message) <==> MessageComplaint(key, section, Fields(message), e)
  {
    if message.Some? {
      var fields := message.value.fields;
      var alone := StreamCount(fields, |fields|) > 0 && |fields| != 1;
      FieldPartsAre(key, section, fields, e);
      StreamCountIs(fields, |fields|);
      InSum(Joined(FieldParts(key, section, fields)), When(alone, FieldsPath(key, section), StreamNotAlone), e);
      InWhen(alone, FieldsPath(key, section), StreamNotAlone, e);
    }
  }

  // ---- Streamed methods.

  lemma ModeErrorsAre(key: string, a: Applet, m: Method, e: ValidationError)
    ensures e in StreamModeErrors(key, a, m) <==> ModeComplaint(key, a, m, e)
  {
    var at := StreamModePath(key);
    InWhen(true, at, BadMode, e);
    InWhen(true, at, ModeNeedsStream, e);
    InWhen(true, at, ModeNeedsAuthenticated, e);
    InWhen(StreamField(m.request).None?, at, ModeNeedsRequestStream, e);
  }

  lemma ReservedErrorsAre(key: string, fields: seq<Field>, e: ValidationError)
    ensures e in Joined(ReservedParts(key, fields)) <==> ReservedComplaint(key, fields, e)
  {
    var parts := ReservedParts(key, fields);
    JoinedMembers(parts, e);
    forall i | 0 <= i < |fields|
      ensures e in parts[i] <==> fields[i].location in {P1, P2}
                                 && Says(e, FieldPath(key, Request, i, LocationPart), ReservedForStream)
    {
      InWhen(fields[i].location == P1 || fields[i].location == P2,
             FieldPath(key, Request, i, LocationPart), ReservedForStream, e);
    }
  }

  lemma StreamUseErrorsAre(key: string, a: Applet, m: Method, e: ValidationError)
    ensures e in StreamUseErrors(key, a, m) <==> StreamComplaint(key, a, m, e)
  {
    var refused := a.cleanup == AuthenticatedInvalidate && StreamField(m.response).Some? && m.streamMode == NoMode;
    var reserved := if HasStream(m) then Joined(ReservedParts(key, Fields(m.request))) else [];
    InFour(StreamModeErrors(key, a, m), When(refused, ResponsePath(key), StreamResponseRefused),
           When(ResponseIsTooLong(m), FieldsPath(key, Response), ResponseTooLong), reserved, e);
    ModeErrorsAre(key, a, m, e);
    InWhen(refused, ResponsePath(key), StreamResponseRefused, e);
    InWhen(ResponseIsTooLong(m), FieldsPath(key, Response), ResponseTooLong, e);
    ReservedErrorsAre(key, Fields(m.request), e);
  }

  // ---- Duplicates.

  // The first of the first n keys that is among some.
  function FirstIn(keys: seq<string>, n: nat, among: set<string>): Option<string>
    requires n <= |keys|
  {
    if n == 0 then None
    else if FirstIn(keys, n - 1, among).Some? then FirstIn(keys, n - 1, among)
    else if keys[n - 1] in among then Some(keys[n - 1]) else None
  }

  lemma {:induction false} FirstInIs(keys: seq<string>, n: nat, among: set<string>)
    requires n <= |keys|
    ensures var first := FirstIn(keys, n, among);
            && (first.None? ==> forall j | 0 <= j < n :: keys[j] !in among)
            && (first.Some? ==> exists j | 0 <= j < n :: keys[j] == first.value && keys[j] in among
                                  && forall k | 0 <= k < j :: keys[k] !in among)
  {
    if n > 0 {
      FirstInIs(keys, n - 1, among);
    }
  }

  lemma FirstInIsLeast(keys: seq<string>, n: nat, among: set<string>, first: string)
    requires Ascending(keys) && n <= |keys| && FirstIn(keys, n, among) == Some(first)
    requires forall k | k in among :: k in keys
    ensures Least(among, first)
  {
    FirstInIs(keys, n, among);
    var j :| 0 <= j < n && keys[j] == first && keys[j] in among && forall k | 0 <= k < j :: keys[k] !in among;
    forall k | k in among ensures k == first || Before(first, k) {
      var at :| 0 <= at < |keys| && keys[at] == k;
      assert j <= at;
    }
  }

  lemma LeastIsFirstIn(keys: seq<string>, n: nat, among: set<string>, first: string)
    requires Ascending(keys) && n < |keys| && keys[n] in among && Least(among, first) && first != keys[n]
    requires first in keys
    ensures FirstIn(keys, n, among) == Some(first)
  {
    var j :| 0 <= j < |keys| && keys[j] == first;
    PlacesFollowKeys(keys, j, n);
    FirstInIs(keys, n, among);
    var found := FirstIn(keys, n, among).value;
    var i :| 0 <= i < n && keys[i] == found && keys[i] in among && forall k | 0 <= k < i :: keys[k] !in among;
    if found != first {
      PlacesFollowKeys(keys, j, i);
    }
  }

  // With the keys taken in ascending order, a duplicate is told against the least of its kind.
  lemma DuplicateIs(keys: seq<string>, i: nat, among: set<string>, first: string)
    requires Ascending(keys) && i < |keys| && keys[i] in among && forall k | k in among :: k in keys
    ensures FirstIn(keys, i, among) == Some(first) <==> Least(among, first) && first != keys[i]
  {
    if FirstIn(keys, i, among) == Some(first) {
      FirstInIsLeast(keys, i, among, first);
      FirstInIs(keys, i, among);
      var j :| 0 <= j < i && keys[j] == first;
      NotBeforeItself(first);
    }
    if Least(among, first) && first != keys[i] {
      LeastIsFirstIn(keys, i, among, first);
    }
  }

  // What a map of first owners says about one claim.
  function OwnerIn<T>(owners: map<T, string>, claim: T): Option<string> {
    if claim in owners then Some(owners[claim]) else None
  }

  lemma {:induction false} NameOwnerIs(methods: Methods, keys: seq<string>, n: nat, name: string)
    requires n <= |keys|
    ensures OwnerIn(NameOwners(methods, keys, n), name) == FirstIn(keys, n, KeysNamed(methods, name))
  {
    if n > 0 {
      NameOwnerIs(methods, keys, n - 1, name);
    }
  }

  lemma NameErrorsAre(methods: Methods, keys: seq<string>, i: nat, m: Method, e: ValidationError)
    requires Ascending(keys) && Enumerates(keys, methods.Keys) && i < |keys| && methods[keys[i]] == Some(m)
    ensures e in NameErrors(keys[i], m, NameOwners(methods, keys, i)) <==> NameComplaint(methods, keys[i], m, e)
  {
    var key, name := keys[i], MethodName(keys[i], m);
    var among, bad := KeysNamed(methods, name), !IsBlank(m.name) && !IsIdentifier(m.name);
    var owner := OwnerIn(NameOwners(methods, keys, i), name);
    NameOwnerIs(methods, keys, i, name);
    assert key in keys && key in among;
    InSum(When(bad, MethodNamePath(key), BadIdentifier), DuplicateError(MethodPath(key), name, owner), e);
    InWhen(bad, MethodNamePath(key), BadIdentifier, e);
    DuplicateErrorIs(MethodPath(key), name, owner, e);
    if e.problem.DuplicateName? {
      DuplicateIs(keys, i, among, e.problem.first);
    }
  }

  function DuplicateError(where: Where, name: string, owner: Option<string>): seq<ValidationError> {
    if owner.Some? then When(true, where, DuplicateName(name, owner.value)) else []
  }

  lemma DuplicateErrorIs(where: Where, name: string, owner: Option<string>, e: ValidationError)
    ensures e in DuplicateError(where, name, owner)
       <==> e.problem.DuplicateName? && Says(e, where, DuplicateName(name, e.problem.first))
            && owner == Some(e.problem.first)
  {
  }

  // ---- Methods.

  lemma DefinitionErrorsAre(s: Schema, keys: seq<string>, i: nat, m: Method, e: ValidationError)
    requires Ascending(keys) && Enumerates(keys, s.methods.Keys) && i < |keys| && s.methods[keys[i]] == Some(m)
    ensures e in DefinitionErrors(s.applet, keys[i], m, NameOwners(s.methods, keys, i), InsOwners(s.methods, keys, i))
       <==> DefinitionComplaint(s, keys[i], m, e)
  {
    var key, names, seen := keys[i], NameOwners(s.methods, keys, i), InsOwners(s.methods, keys, i);
    InFive(NameErrors(key, m, names), InsErrors(key, m, seen), MessageErrors(key, Request, m.request),
           MessageErrors(key, Response, m.response), StreamUseErrors(key, s.applet, m), e);
    NameErrorsAre(s.methods, keys, i, m, e);
    InsErrorsAreProblems(s.methods, keys, i, m, e);
    MessageErrorsAre(key, Request, m.request, e);
    MessageErrorsAre(key, Response, m.response, e);
    StreamUseErrorsAre(key, s.applet, m, e);
  }

  lemma InsErrorsAreProblems(methods: Methods, keys: seq<string>, i: nat, m: Method, e: ValidationError)
    requires Ascending(keys) && Enumerates(keys, methods.Keys) && i < |keys| && methods[keys[i]] == Some(m)
    ensures e in InsErrors(keys[i], m, InsOwners(methods, keys, i))
       <==> e.where == InsPath(keys[i]) && InsProblem(methods, keys[i], e.problem)
  {
    assert keys[i] in keys;
    if e.where.InsPath? {
      FoundIsProblem(methods, keys, i, e);
    } else {
      InsErrorsAre(keys[i], m, InsOwners(methods, keys, i), e);
    }
  }

  lemma MethodErrorsAre(s: Schema, keys: seq<string>, i: nat, e: ValidationError)
    requires Ascending(keys) && Enumerates(keys, s.methods.Keys) && i < |keys|
    ensures e in MethodErrors(s, keys, i) <==> MethodComplaint(s, keys[i], e)
  {
    var key := keys[i];
    assert key in keys;
    var named := When(!IsIdentifier(key), MethodPath(key), BadIdentifier);
    InWhen(!IsIdentifier(key), MethodPath(key), BadIdentifier, e);
    match s.methods[key]
    case None =>
      InSum(named, When(true, MethodPath(key), NilMethod), e);
      InWhen(true, MethodPath(key), NilMethod, e);
    case Some(m) =>
      var names, seen := NameOwners(s.methods, keys, i), InsOwners(s.methods, keys, i);
      InSum(named, DefinitionErrors(s.applet, key, m, names, seen), e);
      DefinitionErrorsAre(s, keys, i, m, e);
  }

  ghost predicate SomeMethodComplaint(s: Schema, e: ValidationError) {
    exists key :: key in s.methods && MethodComplaint(s, key, e)
  }

  lemma AllMethodsErrorsAre(s: Schema, keys: seq<string>, e: ValidationError)
    requires Ascending(keys) && Enumerates(keys, s.methods.Keys)
    ensures e in AllMethodsErrors(s, keys)
       <==> (Says(e, MethodsPath, NoMethods) && s.methods == map[]) || SomeMethodComplaint(s, e)
  {
    InWhen(true, MethodsPath, NoMethods, e);
    if keys == [] {
      assert s.methods == map[] by {
        assert forall k :: k in s.methods ==> k in keys;
      }
    } else {
      assert keys[0] in keys;
      MethodPartsAre(s, keys, e);
    }
  }

  lemma MethodPartsAre(s: Schema, keys: seq<string>, e: ValidationError)
    requires Ascending(keys) && Enumerates(keys, s.methods.Keys)
    ensures e in Joined(MethodParts(s, keys)) <==> SomeMethodComplaint(s, e)
  {
    var parts := MethodParts(s, keys);
    JoinedMembers(parts, e);
    forall i | 0 <= i < |keys| ensures e in parts[i] <==> MethodComplaint(s, keys[i], e) {
      MethodErrorsAre(s, keys, i, e);
    }
    forall i | 0 <= i < |keys| ensures keys[i] in s.methods {
      assert keys[i] in keys;
    }
    if key :| key in s.methods && MethodComplaint(s, key, e) {
      var i :| 0 <= i < |keys| && keys[i] == key;
    }
  }

  // ---- Status words.

  lemma {:induction false} WordOwnersAre(
      words: map<string, StatusWord>, keys: seq<string>, n: nat, name: string, code: int)
    requires n <= |keys| && Enumerates(keys, words.Keys)
    ensures OwnerIn(StatusNames(words, keys, n), name) == FirstIn(keys, n, WordsNamed(words, name))
    ensures OwnerIn(Codes(words, keys, n), code) == FirstIn(keys, n, WordsCoded(words, code))
  {
    if n > 0 {
      WordOwnersAre(words, keys, n - 1, name, code);
      assert keys[n - 1] in keys;
    }
  }

  function DuplicateCodeError(where: Where, code: int, owner: Option<string>): seq<ValidationError> {
    if owner.Some? then When(true, where, DuplicateCode(code, owner.value)) else []
  }

  lemma DuplicateCodeErrorIs(where: Where, code: int, owner: Option<string>, e: ValidationError)
    ensures e in DuplicateCodeError(where, code, owner)
       <==> e.problem.DuplicateCode? && Says(e, where, DuplicateCode(code, e.problem.first))
            && owner == Some(e.problem.first)
  {
  }

  lemma StatusErrorsIn(
      key: string, w: StatusWord, names: map<string, string>, codes: map<int, string>, e: ValidationError)
    ensures e in StatusErrors(key, w, names, codes)
       <==> || (Says(e, StatusPath(key), BadIdentifier) && !IsIdentifier(key))
            || (Says(e, StatusNamePath(key), BadIdentifier) && !IsBlank(w.name) && !IsIdentifier(w.name))
            || e in DuplicateError(StatusPath(key), StatusName(key, w), OwnerIn(names, StatusName(key, w)))
            || (Says(e, CodePath(key), BadCode) && !IsStatusCode(w.code))
            || e in DuplicateCodeError(CodePath(key), w.code, OwnerIn(codes, w.code))
  {
    var bad := !IsBlank(w.name) && !IsIdentifier(w.name);
    InFive(When(!IsIdentifier(key), StatusPath(key), BadIdentifier), When(bad, StatusNamePath(key), BadIdentifier),
           DuplicateError(StatusPath(key), StatusName(key, w), OwnerIn(names, StatusName(key, w))),
           When(!IsStatusCode(w.code), CodePath(key), BadCode),
           DuplicateCodeError(CodePath(key), w.code, OwnerIn(codes, w.code)), e);
    InWhen(!IsIdentifier(key), StatusPath(key), BadIdentifier, e);
    InWhen(bad, StatusNamePath(key), BadIdentifier, e);
    InWhen(!IsStatusCode(w.code), CodePath(key), BadCode, e);
  }

  lemma StatusErrorsAre(words: map<string, StatusWord>, keys: seq<string>, i: nat, e: ValidationError)
    requires Ascending(keys) && Enumerates(keys, words.Keys) && i < |keys|
    ensures e in StatusWordErrors(words, keys, i) <==> StatusComplaint(words, keys[i], e)
  {
    var key := keys[i];
    assert key in keys;
    var w := words[key];
    var name, names, codes := StatusName(key, w), StatusNames(words, keys, i), Codes(words, keys, i);
    StatusErrorsIn(key, w, names, codes, e);
    WordOwnersAre(words, keys, i, name, w.code);
    DuplicateErrorIs(StatusPath(key), name, OwnerIn(names, name), e);
    DuplicateCodeErrorIs(CodePath(key), w.code, OwnerIn(codes, w.code), e);
    if e.problem.DuplicateName? {
      DuplicateIs(keys, i, WordsNamed(words, name), e.problem.first);
    }
    if e.problem.DuplicateCode? {
      DuplicateIs(keys, i, WordsCoded(words, w.code), e.problem.first);
    }
  }

  ghost predicate SomeStatusComplaint(words: map<string, StatusWord>, e: ValidationError) {
    exists key :: key in words && StatusComplaint(words, key, e)
  }

  lemma StatusPartsAre(words: map<string, StatusWord>, keys: seq<string>, e: ValidationError)
    requires Ascending(keys) && Enumerates(keys, words.Keys)
    ensures e in Joined(StatusWordParts(words, keys)) <==> SomeStatusComplaint(words, e)
  {
    var parts := StatusWordParts(words, keys);
    JoinedMembers(parts, e);
    forall i | 0 <= i < |keys| ensures e in parts[i] <==> StatusComplaint(words, keys[i], e) {
      StatusErrorsAre(words, keys, i, e);
    }
    forall i | 0 <= i < |keys| ensures keys[i] in words {
      assert keys[i] in keys;
    }
    if key :| key in words && StatusComplaint(words, key, e) {
      var i :| 0 <= i < |keys| && keys[i] == key;
    }
  }

  // ---- The report.

  // The report is exact: it holds every complaint there is and no other, whatever the order in which
  // the two maps are ranged over.
  lemma ReportIsExact(s: Schema, order: seq<string>, statusOrder: seq<string>, e: ValidationError)
    requires Enumerates(order, s.methods.Keys) && Enumerates(statusOrder, s.statusWords.Keys)
    ensures e in Report(Some(s), order, statusOrder) <==> IsComplaint(s, e)
  {
    SortedKeys(order, s.methods.Keys);
    SortedKeys(statusOrder, s.statusWords.Keys);
    SchemaErrorsAre(s, Sort(order), Sort(statusOrder), e);
  }

  lemma SchemaErrorsAre(s: Schema, keys: seq<string>, statusKeys: seq<string>, e: ValidationError)
    requires Ascending(keys) && Enumerates(keys, s.methods.Keys)
    requires Ascending(statusKeys) && Enumerates(statusKeys, s.statusWords.Keys)
    ensures e in SchemaErrors(s, keys, statusKeys) <==> IsComplaint(s, e)
  {
    InThree(AppletErrors(s.applet), AllMethodsErrors(s, keys),
            Joined(StatusWordParts(s.statusWords, statusKeys)), e);
    AppletErrorsAre(s.applet, e);
    AllMethodsErrorsAre(s, keys, e);
    StatusPartsAre(s.statusWords, statusKeys, e);
  }
}
