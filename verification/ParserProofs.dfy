/** What parsing establishes: stable placement, and conditions the validator need not complain about. */
module ParserProofs {
  import opened Wrappers
  import opened Text
  import opened Keys
  import opened Idl
  import opened ValidationRules
  import opened Validator
  import opened Parser
  import opened Normalizer

  // ---- Placement.

  // No parameter byte is claimed twice and every location is known.
  ghost predicate Orderly(fields: seq<Field>, n: nat)
    requires n <= |fields|
  {
    && (forall i | 0 <= i < n :: !fields[i].location.OtherLocation?)
    && (forall i, j | 0 <= i < j < n && (fields[i].location == P1 || fields[i].location == P2) ::
          fields[j].location != fields[i].location)
  }

  lemma {:induction false} ConflictIs(fields: seq<Field>, n: nat)
    requires n <= |fields|
    ensures Conflict(fields, n).None? <==> Orderly(fields, n)
  {
    if n > 0 {
      ConflictIs(fields, n - 1);
      InUseIs(fields, n - 1, P1);
      InUseIs(fields, n - 1, P2);
    }
  }

  // The field at i claims a parameter byte that an earlier one has, or has an unknown location.
  ghost predicate Conflicts(fields: seq<Field>, i: int)
    requires 0 <= i < |fields|
  {
    || fields[i].location.OtherLocation?
    || (fields[i].location in {P1, P2} && exists j | 0 <= j < i :: fields[j].location == fields[i].location)
  }

  // The conflict that is reported is that of the first field that has one.
  lemma {:induction false} ConflictIsFirst(fields: seq<Field>, n: nat, l: Location)
    requires n <= |fields|
    ensures Conflict(fields, n).None? <==> forall j | 0 <= j < n :: !Conflicts(fields, j)
    ensures Conflict(fields, n) == Some(l) ==> exists i :: i < n && FirstConflict(fields, i, l)
  {
    if n > 0 {
      ConflictIsFirst(fields, n - 1, l);
      if Conflict(fields, n - 1).None? {
        NextConflict(fields, n);
        assert Conflict(fields, n) == Some(l) ==> FirstConflict(fields, n - 1, l);
        assert Conflicts(fields, n - 1) || forall j | 0 <= j < n :: !Conflicts(fields, j);
      } else {
        var j :| 0 <= j < n - 1 && Conflicts(fields, j);
      }
    }
  }

  lemma NextConflict(fields: seq<Field>, n: nat)
    requires 0 < n <= |fields| && Conflict(fields, n - 1).None?
    ensures Conflict(fields, n) == if Conflicts(fields, n - 1) then Some(fields[n - 1].location) else None
  {
    InUseIs(fields, n - 1, P1);
    InUseIs(fields, n - 1, P2);
  }

  ghost predicate FirstConflict(fields: seq<Field>, i: int, l: Location) {
    && 0 <= i < |fields| && fields[i].location == l && Conflicts(fields, i)
    && forall j | 0 <= j < i :: !Conflicts(fields, j)
  }

  lemma PlacedLocations(fields: seq<Field>)
    requires Orderly(fields, |fields|)
    ensures Orderly(Placed(fields), |fields|)
    ensures forall i | 0 <= i < |fields| :: Placed(fields)[i].location in {P1, P2, InData}
  {
  }

  lemma PlacedAlready(fields: seq<Field>)
    requires forall i | 0 <= i < |fields| :: fields[i].location != Unplaced
    ensures Placed(fields) == fields
  {
    if fields != [] {
      assert fields[0].location != Unplaced;
    }
  }

  // Every field of a request gets a place, at most one is in P1 and at most one in P2, and
  // placing the result again changes nothing.
  lemma PlacementIsStable(fields: seq<Field>)
    requires Conflict(fields, |fields|).None?
    ensures forall i | 0 <= i < |fields| :: Placed(fields)[i].location in {P1, P2, InData}
    ensures Conflict(Placed(fields), |fields|).None? && Placed(Placed(fields)) == Placed(fields)
    ensures forall i | 0 <= i < |fields| ::
              Placed(fields)[i] == fields[i].(location := Placed(fields)[i].location)
              && (fields[i].location != Unplaced ==> Placed(fields)[i] == fields[i])
  {
    ConflictIs(fields, |fields|);
    PlacedLocations(fields);
    var placed := Placed(fields);
    ConflictIs(placed, |fields|);
    PlacedAlready(placed);
  }

  // ---- Types.

  lemma {:induction false} LookupMisses<T>(names: seq<(string, T)>, name: string)
    requires forall i | 0 <= i < |names| :: names[i].0 != name
    ensures Lookup(names, name).None?
  {
    if names != [] {
      LookupMisses(names[1..], name);
    }
  }

  lemma {:induction false} DecimalReadsBack(n: nat)
    ensures DigitsValue(Decimal(n)) == n
  {
    var r := Decimal(n);
    if n >= 10 {
      DecimalReadsBack(n / 10);
      assert r[..|r| - 1] == Decimal(n / 10);
    } else {
      assert r[..0] == [];
    }
  }

  ghost predicate AllSpace(s: string) {
    forall i | 0 <= i < |s| :: IsSpace(s[i])
  }

  lemma {:induction false} TrimLeftIs(left: string, rest: string)
    requires AllSpace(left) && rest != [] && !IsSpace(rest[0])
    ensures TrimLeft(left + rest) == rest
  {
    if left == [] {
      assert left + rest == rest;
    } else {
      assert (left + rest)[1..] == left[1..] + rest;
      TrimLeftIs(left[1..], rest);
    }
  }

  lemma {:induction false} TrimRightIs(rest: string, right: string)
    requires AllSpace(right) && rest != [] && !IsSpace(rest[|rest| - 1])
    ensures TrimRight(rest + right) == rest
  {
    if right == [] {
      assert rest + right == rest;
    } else {
      assert (rest + right)[..|rest + right| - 1] == rest + right[..|right| - 1];
      TrimRightIs(rest, right[..|right| - 1]);
    }
  }

  // The schema's bytes[N] is read back as N, whatever space is around it; zero included, which
  // only the validator refuses.
  lemma FixedTypeReadsBack(n: nat, left: string, right: string)
    requires n <= MAX_INT && AllSpace(left) && AllSpace(right)
    ensures ParseFieldType(left + ("bytes[" + Decimal(n) + "]" + right)) == Some((FixedBytes, n))
  {
    var t := "bytes[" + Decimal(n) + "]";
    TrimLeftIs(left, t + right);
    TrimRightIs(t, right);
    FixedWidthReadsBack(n);
    LookupMisses(TYPE_NAMES, t);
  }

  lemma FixedWidthReadsBack(n: nat)
    requires n <= MAX_INT
    ensures FixedWidth("bytes[" + Decimal(n) + "]") == Some(n)
  {
    var digits := Decimal(n);
    var t := "bytes[" + digits + "]";
    DecimalReadsBack(n);
    assert t[..6] == "bytes[" && t[6..|t| - 1] == digits && t[|t| - 1] == ']';
    assert forall i | 6 <= i < |t| - 1 :: t[i] == digits[i - 6];
  }

  // ---- What the validator cannot find in a parsed schema.

  ghost predicate Excluded(e: ValidationError) {
    || e.problem.NilMethod? || e.problem.UnsupportedType? || e.problem.LengthNotSupported?
    || e.problem.LengthNotPositive? || e.problem.UnsupportedLocation?
    || (e.problem.DuplicateLocation? && e.where.FieldPath? && e.where.section == Request)
  }

  ghost predicate NoneExcluded(errs: seq<ValidationError>) {
    forall e | e in errs :: !Excluded(e)
  }

  lemma NoneExcludedJoined(parts: seq<seq<ValidationError>>)
    requires forall i | 0 <= i < |parts| :: NoneExcluded(parts[i])
    ensures NoneExcluded(Joined(parts))
  {
    forall e | e in Joined(parts) ensures !Excluded(e) {
      JoinedMembers(parts, e);
    }
  }

  lemma NoneExcludedFive(a: seq<ValidationError>, b: seq<ValidationError>, c: seq<ValidationError>,
                         d: seq<ValidationError>, e: seq<ValidationError>)
    requires NoneExcluded(a) && NoneExcluded(b) && NoneExcluded(c) && NoneExcluded(d) && NoneExcluded(e)
    ensures NoneExcluded(a + b + c + d + e)
  {
  }

  // A field as NormalField makes it.
  predicate Regular(f: Field) {
    && !f.fieldType.OtherType? && !f.location.OtherLocation?
    && (f.length.Some? ==> (f.fieldType == VarBytes || f.fieldType == Ascii) && f.length.value > 0)
  }

  lemma {:induction false} NormalFieldsAreRegular(raws: seq<RawField>, n: nat)
    requires n <= |raws| && NormalFields(raws, n).Ok?
    ensures forall i | 0 <= i < n :: Regular(NormalFields(raws, n).value[i])
  {
    if n > 0 {
      NormalFieldsAreRegular(raws, n - 1);
      NormalFieldIsRegular(raws[n - 1]);
    }
  }

  lemma NormalFieldIsRegular(raw: RawField)
    requires NormalField(raw).Ok?
    ensures Regular(NormalField(raw).value)
  {
  }

  // A message as the parser makes it; only requests are placed.
  ghost predicate RegularMessage(section: Section, fields: seq<Field>) {
    && (forall i | 0 <= i < |fields| :: Regular(fields[i]))
    && (section == Request ==>
          Orderly(fields, |fields|) && forall i | 0 <= i < |fields| :: fields[i].location != Unplaced)
  }

  lemma MessageIsRegular(key: string, section: Section, raw: RawMessage)
    requires MessageOf(key, section, raw).Ok?
    ensures RegularMessage(section, MessageOf(key, section, raw).value.fields)
  {
    var fields := NormalFields(raw.fields, |raw.fields|).value;
    NormalFieldsAreRegular(raw.fields, |raw.fields|);
    if section == Request {
      PlacementIsStable(fields);
      ConflictIs(Placed(fields), |fields|);
    }
  }

  lemma RegularFieldErrors(key: string, section: Section, i: nat, f: Field, seenP1: bool, seenP2: bool)
    requires Regular(f)
    requires section == Request ==> !(f.location == P1 && seenP1) && !(f.location == P2 && seenP2)
    ensures NoneExcluded(FieldErrors(key, section, i, f, seenP1, seenP2))
  {
    assert NoneExcluded(StreamErrors(key, section, i, f));
    assert NoneExcluded(LocationErrors(key, section, i, f, seenP1, seenP2));
  }

  lemma RegularMessageErrors(key: string, section: Section, message: Option<Message>)
    requires RegularMessage(section, Fields(message))
    ensures NoneExcluded(MessageErrors(key, section, message))
  {
    if message.Some? {
      var fields := message.value.fields;
      var parts := FieldParts(key, section, fields);
      forall i | 0 <= i < |parts| ensures NoneExcluded(parts[i]) {
        InUseIs(fields, i, P1);
        InUseIs(fields, i, P2);
        RegularFieldErrors(key, section, i, fields[i], InUse(fields, i, P1), InUse(fields, i, P2));
      }
      NoneExcludedJoined(parts);
    }
  }

  lemma NameErrorsAreOthers(key: string, m: Method, names: map<string, string>)
    ensures NoneExcluded(NameErrors(key, m, names))
  {
  }

  lemma InsErrorsAreOthers(key: string, m: Method, seen: map<int, string>)
    ensures NoneExcluded(InsErrors(key, m, seen))
  {
    NoneExcludedJoined(ByteParts(key, m.ins, Span(m), seen));
  }

  lemma StreamUseErrorsAreOthers(key: string, applet: Applet, m: Method)
    ensures NoneExcluded(StreamUseErrors(key, applet, m))
  {
    NoneExcludedJoined(ReservedParts(key, Fields(m.request)));
    assert NoneExcluded(StreamModeErrors(key, applet, m));
  }

  lemma MethodErrorsAreOthers(s: Schema, keys: seq<string>, i: nat, m: Method)
    requires i < |keys| && MethodAt(s.methods, keys[i]) == Some(m)
    requires RegularMessage(Request, Fields(m.request)) && RegularMessage(Response, Fields(m.response))
    ensures NoneExcluded(MethodErrors(s, keys, i))
  {
    var key, names, seen := keys[i], NameOwners(s.methods, keys, i), InsOwners(s.methods, keys, i);
    NameErrorsAreOthers(key, m, names);
    InsErrorsAreOthers(key, m, seen);
    StreamUseErrorsAreOthers(key, s.applet, m);
    RegularMessageErrors(key, Request, m.request);
    RegularMessageErrors(key, Response, m.response);
    NoneExcludedFive(NameErrors(key, m, names), InsErrors(key, m, seen), MessageErrors(key, Request, m.request),
                     MessageErrors(key, Response, m.response), StreamUseErrors(key, s.applet, m));
  }

  lemma StatusErrorsAreOthers(words: map<string, StatusWord>, keys: seq<string>)
    ensures NoneExcluded(Joined(StatusWordParts(words, keys)))
  {
    var parts := StatusWordParts(words, keys);
    forall i | 0 <= i < |parts| ensures NoneExcluded(parts[i]) {
      StatusErrorIsOther(keys[i], WordAt(words, keys[i]), StatusNames(words, keys, i), Codes(words, keys, i));
    }
    NoneExcludedJoined(parts);
  }

  lemma StatusErrorIsOther(key: string, w: StatusWord, names: map<string, string>, codes: map<int, string>)
    ensures NoneExcluded(StatusErrors(key, w, names, codes))
  {
    NoneExcludedFive(
      When(!IsIdentifier(key), StatusPath(key), BadIdentifier),
      When(!IsBlank(w.name) && !IsIdentifier(w.name), StatusNamePath(key), BadIdentifier),
      if StatusName(key, w) in names
      then When(true, StatusPath(key), DuplicateName(StatusName(key, w), names[StatusName(key, w)])) else [],
      When(!IsStatusCode(w.code), CodePath(key), BadCode),
      if w.code in codes then When(true, CodePath(key), DuplicateCode(w.code, codes[w.code])) else []);
  }

  lemma AppletErrorsAreOthers(applet: Applet)
    ensures NoneExcluded(AppletErrors(applet))
  {
    WorkspaceErrorsAreOthers(applet);
    IdentityErrorsAreOthers(applet);
  }

  lemma WorkspaceErrorsAreOthers(applet: Applet)
    ensures NoneExcluded(WorkspaceErrors(applet))
  {
  }

  lemma IdentityErrorsAreOthers(applet: Applet)
    ensures NoneExcluded(IdentityErrors(applet))
  {
    IdentityProblemsAreOthers(IsBlank(applet.name), !IsAid(applet.aid), applet.cla == 0, !IsSemver(applet.version));
  }

  lemma IdentityProblemsAreOthers(name: bool, aid: bool, cla: bool, version: bool)
    ensures NoneExcluded(When(name, AppletPath(NameField), Blank) + When(aid, AppletPath(AidField), BadAid)
                         + When(cla, AppletPath(ClaField), ReservedCla)
                         + When(version, AppletPath(VersionField), BadVersion))
  {
  }

  lemma MethodIsRegular(key: string, raw: RawMethod)
    requires MethodOf(key, raw).Ok?
    ensures var m := MethodOf(key, raw).value;
            RegularMessage(Request, Fields(m.request)) && RegularMessage(Response, Fields(m.response))
  {
    if raw.request.Some? {
      MessageIsRegular(key, Request, raw.request.value);
    }
    if raw.response.Some? {
      MessageIsRegular(key, Response, raw.response.value);
    }
  }

  lemma NoneExcludedThree(a: seq<ValidationError>, b: seq<ValidationError>, c: seq<ValidationError>)
    requires NoneExcluded(a) && NoneExcluded(b) && NoneExcluded(c)
    ensures NoneExcluded(a + b + c)
  {
  }

  // Of a schema that was parsed the validator never reports a nil method, an unsupported type, a
  // `.length`, or an unsupported or duplicate request location.
  lemma ParsedSchemaIsRegular(raw: RawSchema, order: seq<string>, statusOrder: seq<string>)
    requires Normalizes(raw) && Enumerates(order, raw.methods.Keys)
    ensures NoneExcluded(Report(Some(Normalized(raw)), order, statusOrder))
  {
    var s := Normalized(raw);
    var keys, statusKeys := Sort(order), Sort(statusOrder);
    AppletErrorsAreOthers(s.applet);
    StatusErrorsAreOthers(s.statusWords, statusKeys);
    ParsedMethods(raw, order);
    NoneExcludedThree(AppletErrors(s.applet), AllMethodsErrors(s, keys),
                      Joined(StatusWordParts(s.statusWords, statusKeys)));
  }

  lemma ParsedMethods(raw: RawSchema, order: seq<string>)
    requires Normalizes(raw) && Enumerates(order, raw.methods.Keys)
    ensures NoneExcluded(AllMethodsErrors(Normalized(raw), Sort(order)))
  {
    var s, keys := Normalized(raw), Sort(order);
    var parts := MethodParts(s, keys);
    SortedKeys(order, raw.methods.Keys);
    forall i | 0 <= i < |parts| ensures NoneExcluded(parts[i]) {
      assert keys[i] in keys;
      MethodIsRegular(keys[i], raw.methods[keys[i]]);
      MethodErrorsAreOthers(s, keys, i, MethodOf(keys[i], raw.methods[keys[i]]).value);
    }
    NoneExcludedJoined(parts);
  }

  // The request fields of a parsed schema all have a place, one at most in each parameter byte,
  // and placing them again changes nothing.
  lemma ParsedRequestsArePlaced(raw: RawSchema, key: string)
    requires Normalizes(raw) && key in raw.methods
    ensures var fields := Fields(Normalized(raw).methods[key].value.request);
            && (forall i | 0 <= i < |fields| :: fields[i].location in {P1, P2, InData})
            && Orderly(fields, |fields|)
            && Conflict(fields, |fields|).None? && Placed(fields) == fields
  {
    var r := raw.methods[key];
    MethodIsRegular(key, r);
    var fields := Fields(Normalized(raw).methods[key].value.request);
    ConflictIs(fields, |fields|);
    if r.request.Some? {
      PlacementIsStable(NormalFields(r.request.value.fields, |r.request.value.fields|).value);
    }
  }
}
