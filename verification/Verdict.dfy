/** The validator reports nothing if and only if the schema is well-formed (validator.go). */
module Verdict {
  import opened Wrappers
  import opened Idl
  import opened Keys
  import opened ValidationRules
  import opened Validator
  import opened Allocation
  import opened Dispatch
  import opened Chunks
  import opened SchemaRules

  lemma {:induction false} JoinedEmpty<T>(parts: seq<seq<T>>)
    ensures Joined(parts) == [] <==> forall i | 0 <= i < |parts| :: parts[i] == []
  {
    if parts != [] {
      var front, last := parts[..|parts| - 1], parts[|parts| - 1];
      JoinedEmpty(front);
      assert |Joined(parts)| == |Joined(front)| + |last|;
    }
  }

  lemma EmptySum<T>(a: seq<T>, b: seq<T>)
    ensures a + b == [] <==> a == [] && b == []
  {
    assert |a + b| == |a| + |b|;
  }

  lemma EmptySums<T>(a: seq<T>, b: seq<T>, c: seq<T>, d: seq<T>, e: seq<T>)
    ensures a + b + c + d + e == [] <==> a == [] && b == [] && c == [] && d == [] && e == []
  {
    EmptySum(a, b);
    EmptySum(a + b, c);
    EmptySum(a + b + c, d);
    EmptySum(a + b + c + d, e);
  }

  lemma EmptyWhen(reported: bool, where: Where, problem: Problem)
    ensures When(reported, where, problem) == [] <==> !reported
  {
  }

  lemma AppletVerdict(a: Applet)
    ensures AppletErrors(a) == [] <==> AppletOk(a)
  {
    EmptySum(WorkspaceErrors(a), IdentityErrors(a));
    IdentityVerdict(IsBlank(a.name), !IsAid(a.aid), a.cla == 0, !IsSemver(a.version));
  }

  lemma IdentityVerdict(name: bool, aid: bool, cla: bool, version: bool)
    ensures When(name, AppletPath(NameField), Blank) + When(aid, AppletPath(AidField), BadAid)
            + When(cla, AppletPath(ClaField), ReservedCla) + When(version, AppletPath(VersionField), BadVersion) == []
       <==> !name && !aid && !cla && !version
  {
  }

  lemma StreamVerdict(key: string, section: Section, i: nat, f: Field)
    ensures StreamErrors(key, section, i, f) == [] <==> SoundStream(f) && f.location in {Unplaced, InData}
  {
    assert 1 <= f.chunkSize <= 0xFF ==> Wrap64(f.chunkSize * 0xFF) == f.chunkSize * 0xFF;
  }

  lemma LocationVerdict(key: string, section: Section, i: nat, f: Field, seenP1: bool, seenP2: bool)
    ensures LocationErrors(key, section, i, f, seenP1, seenP2) == []
       <==> && !f.location.OtherLocation? && (f.location in {P1, P2} ==> IsP1P2Type(f.fieldType))
            && !(f.location == P1 && seenP1) && !(f.location == P2 && seenP2)
  {
  }

  lemma FieldVerdict(key: string, section: Section, i: nat, f: Field, seenP1: bool, seenP2: bool)
    ensures FieldErrors(key, section, i, f, seenP1, seenP2) == []
       <==> FieldOk(f) && !(f.location == P1 && seenP1) && !(f.location == P2 && seenP2)
  {
    StreamVerdict(key, section, i, f);
    LocationVerdict(key, section, i, f, seenP1, seenP2);
    SevenParts(When(!IsIdentifier(f.name), FieldPath(key, section, i, NamePart), BadIdentifier),
               When(f.fieldType.OtherType?, FieldPath(key, section, i, TypePart), UnsupportedType(f.fieldType)),
               if f.fieldType == Stream then StreamErrors(key, section, i, f) else [],
               When(f.length.Some? && f.fieldType != VarBytes && f.fieldType != Ascii,
                    FieldPath(key, section, i, LengthPart), LengthNotSupported),
               When(f.length.Some? && f.length.value <= 0, FieldPath(key, section, i, LengthPart), LengthNotPositive),
               When(f.fieldType == FixedBytes && f.fixedLength <= 0,
                    FieldPath(key, section, i, TypePart), FixedLengthNotPositive),
               LocationErrors(key, section, i, f, seenP1, seenP2));
  }

  lemma SevenParts<T>(a: seq<T>, b: seq<T>, c: seq<T>, d: seq<T>, e: seq<T>, f: seq<T>, g: seq<T>)
    ensures a + b + c + d + e + f + g == []
       <==> a == [] && b == [] && c == [] && d == [] && e == [] && f == [] && g == []
  {
    EmptySums(a, b, c, d, e);
    EmptySum(a + b + c + d + e, f);
    EmptySum(a + b + c + d + e + f, g);
  }

  lemma {:induction false} StreamCountIs(fields: seq<Field>, n: nat)
    requires n <= |fields|
    ensures StreamCount(fields, n) == 0 <==> forall j | 0 <= j < n :: fields[j].fieldType != Stream
  {
    if n > 0 {
      StreamCountIs(fields, n - 1);
    }
  }

  lemma MessageVerdict(key: string, section: Section, message: Option<Message>)
    ensures MessageErrors(key, section, message) == [] <==> MessageOk(Fields(message))
  {
    if message.Some? {
      var fields := message.value.fields;
      var alone := When(StreamCount(fields, |fields|) > 0 && |fields| != 1, FieldsPath(key, section), StreamNotAlone);
      FieldsVerdict(key, section, fields);
      AloneVerdict(key, section, fields);
      EmptySum(Joined(FieldParts(key, section, fields)), alone);
    }
  }

  lemma FieldsVerdict(key: string, section: Section, fields: seq<Field>)
    ensures Joined(FieldParts(key, section, fields)) == [] <==> FieldsOk(fields)
  {
    var parts := FieldParts(key, section, fields);
    JoinedEmpty(parts);
    forall i | 0 <= i < |fields| ensures parts[i] == [] <==> FieldOk(fields[i]) && FirstInPlace(fields, i) {
      PartVerdict(key, section, fields, i);
    }
  }

  lemma PartVerdict(key: string, section: Section, fields: seq<Field>, i: nat)
    requires i < |fields|
    ensures FieldParts(key, section, fields)[i] == [] <==> FieldOk(fields[i]) && FirstInPlace(fields, i)
  {
    InUseIs(fields, i, P1);
    InUseIs(fields, i, P2);
    FieldVerdict(key, section, i, fields[i], InUse(fields, i, P1), InUse(fields, i, P2));
  }

  lemma AloneVerdict(key: string, section: Section, fields: seq<Field>)
    ensures When(StreamCount(fields, |fields|) > 0 && |fields| != 1, FieldsPath(key, section), StreamNotAlone) == []
       <==> forall i | 0 <= i < |fields| && fields[i].fieldType == Stream :: |fields| == 1
  {
    StreamCountIs(fields, |fields|);
  }

  ghost predicate FirstInPlace(fields: seq<Field>, i: nat)
    requires i < |fields|
  {
    fields[i].location in {P1, P2} ==> forall j | 0 <= j < i :: fields[j].location != fields[i].location
  }

  lemma ResponseVerdict(m: Method)
    ensures ResponseIsTooLong(m) <==> !ResponseFits(m) && !WidthWraps(m)
  {
    if BoundedWidth(m).Some? {
      WrapIs(BoundedWidth(m).value);
    }
  }

  lemma WrapIs(n: nat)
    ensures Wrap64(n) > 0xFF <==> 0xFF < n % 0x1_0000_0000_0000_0000 < 0x8000_0000_0000_0000
  {
    var m := 0x1_0000_0000_0000_0000;
    assert n == n / m * m + n % m;
    assert (n + m / 2) % m == (n % m + m / 2) % m;
  }

  lemma StreamUseVerdict(key: string, a: Applet, m: Method)
    ensures StreamUseErrors(key, a, m) == [] <==> StreamUseOk(a, m, true)
  {
    var fields := Fields(m.request);
    ResponseVerdict(m);
    JoinedEmpty(ReservedParts(key, fields));
    forall i | 0 <= i < |fields| ensures ReservedParts(key, fields)[i] == [] <==> fields[i].location !in {P1, P2} {
    }
    EmptySums(StreamModeErrors(key, a, m),
              When(a.cleanup == AuthenticatedInvalidate && StreamField(m.response).Some? && m.streamMode == NoMode,
                   ResponsePath(key), StreamResponseRefused),
              When(ResponseIsTooLong(m), FieldsPath(key, Response), ResponseTooLong),
              if HasStream(m) then Joined(ReservedParts(key, fields)) else [], []);
    assert StreamUseErrors(key, a, m) + [] == StreamUseErrors(key, a, m);
  }

  // ---- Names.

  ghost predicate Named(methods: Methods, key: string, name: string) {
    MethodAt(methods, key).Some? && MethodName(key, MethodAt(methods, key).value) == name
  }

  lemma {:induction false} NameOwnersAre(methods: Methods, keys: seq<string>, n: nat, name: string)
    requires n <= |keys|
    ensures name in NameOwners(methods, keys, n) <==> exists j :: 0 <= j < n && Named(methods, keys[j], name)
  {
    if n > 0 {
      NameOwnersAre(methods, keys, n - 1, name);
    }
  }

  // No other method among the first i has the name of the i-th.
  ghost predicate NameIsNew(methods: Methods, keys: seq<string>, i: nat, m: Method)
    requires i < |keys|
  {
    forall j | 0 <= j < i :: !Named(methods, keys[j], MethodName(keys[i], m))
  }

  lemma NameVerdict(methods: Methods, keys: seq<string>, i: nat, m: Method)
    requires i < |keys|
    ensures NameErrors(keys[i], m, NameOwners(methods, keys, i)) == []
       <==> NameOk(m.name) && NameIsNew(methods, keys, i, m)
  {
    NameOwnersAre(methods, keys, i, MethodName(keys[i], m));
    EmptyWhen(!IsBlank(m.name) && !IsIdentifier(m.name), MethodNamePath(keys[i]), BadIdentifier);
    NameErrorsSplit(keys[i], m, NameOwners(methods, keys, i));
  }

  lemma NameErrorsSplit(key: string, m: Method, names: map<string, string>)
    ensures NameErrors(key, m, names) == [] <==> NameOk(m.name) && MethodName(key, m) !in names
  {
  }

  // ---- Methods.

  // The entry at i is in order, whoever came before it.
  ghost predicate EntryOk(a: Applet, methods: Methods, keys: seq<string>, i: nat)
    requires i < |keys|
  {
    match MethodAt(methods, keys[i])
    case None => false
    case Some(m) =>
      && MethodOk(a, keys[i], m, true) && NameIsNew(methods, keys, i, m)
      && InsErrors(keys[i], m, InsOwners(methods, keys, i)) == []
  }

  lemma DefinitionVerdict(a: Applet, key: string, m: Method, names: map<string, string>, seen: map<int, string>)
    ensures DefinitionErrors(a, key, m, names, seen) == []
       <==> && NameErrors(key, m, names) == [] && InsErrors(key, m, seen) == []
            && MessageOk(Fields(m.request)) && MessageOk(Fields(m.response)) && StreamUseOk(a, m, true)
  {
    MessageVerdict(key, Request, m.request);
    MessageVerdict(key, Response, m.response);
    StreamUseVerdict(key, a, m);
    EmptySums(NameErrors(key, m, names), InsErrors(key, m, seen), MessageErrors(key, Request, m.request),
              MessageErrors(key, Response, m.response), StreamUseErrors(key, a, m));
  }

  lemma EntryVerdict(s: Schema, keys: seq<string>, i: nat)
    requires i < |keys|
    ensures MethodErrors(s, keys, i) == [] <==> EntryOk(s.applet, s.methods, keys, i)
  {
    var key := keys[i];
    match MethodAt(s.methods, key)
    case None =>
      EmptySum(When(!IsIdentifier(key), MethodPath(key), BadIdentifier), When(true, MethodPath(key), NilMethod));
    case Some(m) =>
      var names, seen := NameOwners(s.methods, keys, i), InsOwners(s.methods, keys, i);
      EmptyWhen(!IsIdentifier(key), MethodPath(key), BadIdentifier);
      NameVerdict(s.methods, keys, i, m);
      DefinitionVerdict(s.applet, key, m, names, seen);
      EmptySum(When(!IsIdentifier(key), MethodPath(key), BadIdentifier),
               DefinitionErrors(s.applet, key, m, names, seen));
  }

  // No range is complained about, in ascending order of the keys, if and only if all are allocated.
  lemma AllocationVerdict(methods: Methods, keys: seq<string>)
    requires Ascending(keys) && Enumerates(keys, methods.Keys)
    ensures (forall i, e | 0 <= i < |keys| :: !InsFound(methods, keys, i, e)) <==> Allocated(methods)
  {
    if Allocated(methods) {
      forall i, e | 0 <= i < |keys| ensures !InsFound(methods, keys, i, e) {
        if InsFound(methods, keys, i, e) {
          InsFoundWhere(methods, keys, i, e);
          FoundAreProblems(methods, keys, e);
          AProblem(methods, e.where.key, e.problem);
        }
      }
    }
    if forall i, e | 0 <= i < |keys| :: !InsFound(methods, keys, i, e) {
      forall key, problem | key in methods ensures !InsProblem(methods, key, problem) {
        FoundAreProblems(methods, keys, ValidationError(InsPath(key), problem));
      }
      NoProblems(methods);
    }
  }

  lemma InsFoundWhere(methods: Methods, keys: seq<string>, i: nat, e: ValidationError)
    requires i < |keys| && InsFound(methods, keys, i, e)
    ensures e.where.InsPath?
  {
    InsErrorsAre(keys[i], MethodAt(methods, keys[i]).value, InsOwners(methods, keys, i), e);
  }

  lemma MethodsVerdict(a: Applet, methods: Methods, keys: seq<string>)
    requires Ascending(keys) && Enumerates(keys, methods.Keys)
    ensures keys != [] && (forall i | 0 <= i < |keys| :: EntryOk(a, methods, keys, i)) <==> MethodsOk(a, methods, true)
  {
    AllocationVerdict(methods, keys);
    if MethodsOk(a, methods, true) {
      var k :| k in methods;
      assert k in keys;
      forall i | 0 <= i < |keys| ensures EntryOk(a, methods, keys, i) {
        MethodsOkEntry(a, methods, keys, i);
      }
    }
    if keys != [] && forall i | 0 <= i < |keys| :: EntryOk(a, methods, keys, i) {
      EntriesOkMethods(a, methods, keys);
    }
  }

  lemma MethodsOkEntry(a: Applet, methods: Methods, keys: seq<string>, i: nat)
    requires Ascending(keys) && Enumerates(keys, methods.Keys) && i < |keys| && MethodsOk(a, methods, true)
    requires forall i, e | 0 <= i < |keys| :: !InsFound(methods, keys, i, e)
    ensures EntryOk(a, methods, keys, i)
  {
    assert keys[i] in keys;
    var m := methods[keys[i]].value;
    var errs := InsErrors(keys[i], m, InsOwners(methods, keys, i));
    if errs != [] {
      assert InsFound(methods, keys, i, errs[0]);
    }
    forall j | 0 <= j < i ensures !Named(methods, keys[j], MethodName(keys[i], m)) {
      assert keys[j] in keys;
    }
  }

  lemma NamesDiffer(methods: Methods, keys: seq<string>, x: nat, y: nat)
    requires x < y < |keys| && MethodAt(methods, keys[x]).Some? && MethodAt(methods, keys[y]).Some?
    requires NameIsNew(methods, keys, y, MethodAt(methods, keys[y]).value)
    ensures MethodName(keys[x], MethodAt(methods, keys[x]).value)
         != MethodName(keys[y], MethodAt(methods, keys[y]).value)
  {
    assert !Named(methods, keys[x], MethodName(keys[y], MethodAt(methods, keys[y]).value));
  }

  lemma EntriesOkMethods(a: Applet, methods: Methods, keys: seq<string>)
    requires Ascending(keys) && Enumerates(keys, methods.Keys) && keys != []
    requires forall i | 0 <= i < |keys| :: EntryOk(a, methods, keys, i)
    ensures MethodsOk(a, methods, true)
  {
    AllocationVerdict(methods, keys);
    EntriesOkEach(a, methods, keys);
    EntriesOkNames(a, methods, keys);
    assert keys[0] in keys;
    forall i, e | 0 <= i < |keys| ensures !InsFound(methods, keys, i, e) {
      assert EntryOk(a, methods, keys, i);
    }
  }

  lemma EntriesOkEach(a: Applet, methods: Methods, keys: seq<string>)
    requires Enumerates(keys, methods.Keys) && forall i | 0 <= i < |keys| :: EntryOk(a, methods, keys, i)
    ensures forall k | k in methods :: methods[k].Some? && MethodOk(a, k, methods[k].value, true)
  {
    forall k | k in methods ensures methods[k].Some? && MethodOk(a, k, methods[k].value, true) {
      assert k in keys;
      var i :| 0 <= i < |keys| && keys[i] == k;
      assert EntryOk(a, methods, keys, i);
    }
  }

  lemma EntriesOkNames(a: Applet, methods: Methods, keys: seq<string>)
    requires Enumerates(keys, methods.Keys) && forall i | 0 <= i < |keys| :: EntryOk(a, methods, keys, i)
    ensures MethodNamesDistinct(methods)
  {
    forall i | 0 <= i < |keys| ensures NewName(methods, keys, i) {
      assert EntryOk(a, methods, keys, i);
    }
    NewNamesDiffer(methods, keys);
  }

  ghost predicate NewName(methods: Methods, keys: seq<string>, i: nat)
    requires i < |keys|
  {
    MethodAt(methods, keys[i]).Some? && NameIsNew(methods, keys, i, MethodAt(methods, keys[i]).value)
  }

  lemma NewNamesDiffer(methods: Methods, keys: seq<string>)
    requires Enumerates(keys, methods.Keys) && forall i | 0 <= i < |keys| :: NewName(methods, keys, i)
    ensures MethodNamesDistinct(methods)
  {
    forall j, k | j in methods && k in methods && j != k && methods[j].Some? && methods[k].Some?
      ensures MethodName(j, methods[j].value) != MethodName(k, methods[k].value)
    {
      assert j in keys && k in keys;
      var x :| 0 <= x < |keys| && keys[x] == j;
      var y :| 0 <= y < |keys| && keys[y] == k;
      assert NewName(methods, keys, x) && NewName(methods, keys, y);
      NamesDiffer(methods, keys, if x < y then x else y, if x < y then y else x);
    }
  }

  // ---- Status words.

  lemma {:induction false} StatusNamesAre(words: map<string, StatusWord>, keys: seq<string>, n: nat, name: string)
    requires n <= |keys|
    ensures name in StatusNames(words, keys, n)
       <==> exists j | 0 <= j < n :: StatusName(keys[j], WordAt(words, keys[j])) == name
  {
    if n > 0 {
      StatusNamesAre(words, keys, n - 1, name);
    }
  }

  lemma {:induction false} CodesAre(words: map<string, StatusWord>, keys: seq<string>, n: nat, code: int)
    requires n <= |keys|
    ensures code in Codes(words, keys, n) <==> exists j | 0 <= j < n :: WordAt(words, keys[j]).code == code
  {
    if n > 0 {
      CodesAre(words, keys, n - 1, code);
    }
  }

  lemma StatusVerdict(key: string, w: StatusWord, names: map<string, string>, codes: map<int, string>)
    ensures StatusErrors(key, w, names, codes) == []
       <==> && IsIdentifier(key) && NameOk(w.name) && IsStatusCode(w.code)
            && StatusName(key, w) !in names && w.code !in codes
  {
    EmptyWhen(!IsIdentifier(key), StatusPath(key), BadIdentifier);
    EmptyWhen(!IsBlank(w.name) && !IsIdentifier(w.name), StatusNamePath(key), BadIdentifier);
    EmptyWhen(!IsStatusCode(w.code), CodePath(key), BadCode);
    EmptySums(When(!IsIdentifier(key), StatusPath(key), BadIdentifier),
              When(!IsBlank(w.name) && !IsIdentifier(w.name), StatusNamePath(key), BadIdentifier),
              if StatusName(key, w) in names
              then When(true, StatusPath(key), DuplicateName(StatusName(key, w), names[StatusName(key, w)])) else [],
              When(!IsStatusCode(w.code), CodePath(key), BadCode),
              if w.code in codes then When(true, CodePath(key), DuplicateCode(w.code, codes[w.code])) else []);
  }

  // Neither the name nor the code of the i-th status word is one of an earlier one.
  ghost predicate StatusIsNew(words: map<string, StatusWord>, keys: seq<string>, i: nat)
    requires i < |keys|
  {
    var w := WordAt(words, keys[i]);
    forall j | 0 <= j < i ::
      StatusName(keys[j], WordAt(words, keys[j])) != StatusName(keys[i], w) && WordAt(words, keys[j]).code != w.code
  }

  ghost predicate StatusEntryOk(words: map<string, StatusWord>, keys: seq<string>, i: nat)
    requires i < |keys|
  {
    var w := WordAt(words, keys[i]);
    IsIdentifier(keys[i]) && NameOk(w.name) && IsStatusCode(w.code) && StatusIsNew(words, keys, i)
  }

  lemma StatusEntryVerdict(words: map<string, StatusWord>, keys: seq<string>, i: nat)
    requires i < |keys|
    ensures StatusWordErrors(words, keys, i) == [] <==> StatusEntryOk(words, keys, i)
  {
    var w := WordAt(words, keys[i]);
    StatusVerdict(keys[i], w, StatusNames(words, keys, i), Codes(words, keys, i));
    StatusNamesAre(words, keys, i, StatusName(keys[i], w));
    CodesAre(words, keys, i, w.code);
  }

  lemma StatusWordsVerdict(words: map<string, StatusWord>, keys: seq<string>)
    requires Enumerates(keys, words.Keys)
    ensures (forall i | 0 <= i < |keys| :: StatusEntryOk(words, keys, i)) <==> StatusWordsOk(words)
  {
    if StatusWordsOk(words) {
      forall i | 0 <= i < |keys| ensures StatusEntryOk(words, keys, i) {
        assert keys[i] in keys;
        forall j | 0 <= j < i ensures keys[j] in words && keys[j] != keys[i] {
          assert keys[j] in keys;
        }
      }
    }
    if forall i | 0 <= i < |keys| :: StatusEntryOk(words, keys, i) {
      StatusEntriesOk(words, keys);
    }
  }

  lemma StatusEntriesOk(words: map<string, StatusWord>, keys: seq<string>)
    requires Enumerates(keys, words.Keys)
    requires forall i | 0 <= i < |keys| :: StatusEntryOk(words, keys, i)
    ensures StatusWordsOk(words)
  {
    forall k | k in words ensures IsIdentifier(k) && NameOk(words[k].name) && IsStatusCode(words[k].code) {
      assert k in keys;
      var i :| 0 <= i < |keys| && keys[i] == k;
      assert StatusEntryOk(words, keys, i);
    }
    forall j, k | j in words && k in words && j != k
      ensures StatusName(j, words[j]) != StatusName(k, words[k]) && words[j].code != words[k].code
    {
      assert j in keys && k in keys;
      var x :| 0 <= x < |keys| && keys[x] == j;
      var y :| 0 <= y < |keys| && keys[y] == k;
      StatusDiffers(words, keys, if x < y then x else y, if x < y then y else x);
    }
  }

  lemma StatusDiffers(words: map<string, StatusWord>, keys: seq<string>, x: nat, y: nat)
    requires x < y < |keys| && StatusEntryOk(words, keys, y)
    ensures var v, w := WordAt(words, keys[x]), WordAt(words, keys[y]);
            StatusName(keys[x], v) != StatusName(keys[y], w) && v.code != w.code
  {
  }

  // ---- The whole schema.

  // The validator accepts the well-formed schemas, whatever the order in which the two maps are
  // ranged over, and beyond them exactly those that only miss being well-formed because the width
  // of some streamed method's response wraps around.
  lemma VerdictIsExact(s: Schema, order: seq<string>, statusOrder: seq<string>)
    requires Enumerates(order, s.methods.Keys) && Enumerates(statusOrder, s.statusWords.Keys)
    ensures Report(Some(s), order, statusOrder) == [] <==> SchemaOk(s, true)
    ensures Report(Some(s), order, statusOrder) == [] && !SomeWidthWraps(s.methods) <==> WellFormed(s)
  {
    LenientIsWellFormed(s);
    SchemaVerdict(s, order, statusOrder);
  }

  lemma SchemaVerdict(s: Schema, order: seq<string>, statusOrder: seq<string>)
    requires Enumerates(order, s.methods.Keys) && Enumerates(statusOrder, s.statusWords.Keys)
    ensures Report(Some(s), order, statusOrder) == [] <==> SchemaOk(s, true)
  {
    var keys, statusKeys := Sort(order), Sort(statusOrder);
    SortedKeys(order, s.methods.Keys);
    SortedKeys(statusOrder, s.statusWords.Keys);
    AppletVerdict(s.applet);
    AllMethodsVerdict(s, keys);
    AllStatusWordsVerdict(s.statusWords, statusKeys);
    EmptySum(AppletErrors(s.applet), AllMethodsErrors(s, keys));
    EmptySum(AppletErrors(s.applet) + AllMethodsErrors(s, keys), Joined(StatusWordParts(s.statusWords, statusKeys)));
  }

  lemma AllMethodsVerdict(s: Schema, keys: seq<string>)
    requires Ascending(keys) && Enumerates(keys, s.methods.Keys)
    ensures AllMethodsErrors(s, keys) == [] <==> MethodsOk(s.applet, s.methods, true)
  {
    EntriesVerdict(s, keys);
    MethodsVerdict(s.applet, s.methods, keys);
  }

  lemma EntriesVerdict(s: Schema, keys: seq<string>)
    ensures AllMethodsErrors(s, keys) == []
       <==> keys != [] && forall i | 0 <= i < |keys| :: EntryOk(s.applet, s.methods, keys, i)
  {
    EmptyWhen(true, MethodsPath, NoMethods);
    var parts := MethodParts(s, keys);
    JoinedEmpty(parts);
    forall i | 0 <= i < |keys| ensures parts[i] == [] <==> EntryOk(s.applet, s.methods, keys, i) {
      EntryVerdict(s, keys, i);
    }
  }

  lemma AllStatusWordsVerdict(words: map<string, StatusWord>, keys: seq<string>)
    requires Enumerates(keys, words.Keys)
    ensures Joined(StatusWordParts(words, keys)) == [] <==> StatusWordsOk(words)
  {
    StatusWordsVerdict(words, keys);
    var parts := StatusWordParts(words, keys);
    JoinedEmpty(parts);
    forall i | 0 <= i < |keys| ensures parts[i] == [] <==> StatusEntryOk(words, keys, i) {
      StatusEntryVerdict(words, keys, i);
    }
  }
}
