/** The validator's loops (validator.go): errors are appended, first owners remembered in maps. */
module Validator {
  import opened Wrappers
  import opened Idl
  import opened Keys
  import opened ValidationRules

  class Validation {
    var errs: seq<ValidationError>
    var insSeen: map<int, string>
    var methodNameSeen: map<string, string>
    var statusNameSeen: map<string, string>
    var codeSeen: map<int, string>

    constructor ()
      ensures errs == [] && insSeen == map[] && methodNameSeen == map[]
      ensures statusNameSeen == map[] && codeSeen == map[]
    {
      errs, insSeen, methodNameSeen, statusNameSeen, codeSeen := [], map[], map[], map[], map[];
    }

    method Add(more: seq<ValidationError>)
      modifies this`errs
      ensures errs == old(errs) + more
    {
      errs := errs + more;
    }

    method ValidateApplet(applet: Applet)
      modifies this`errs
      ensures old(errs) == [] ==> errs == AppletErrors(applet)
    {
      Add(AppletErrors(applet));
    }

    method ValidateMessage(key: string, section: Section, message: Option<Message>)
      modifies this`errs
      ensures errs == old(errs) + MessageErrors(key, section, message)
    {
      if message.None? {
        return;
      }
      var fields := message.value.fields;
      ghost var parts, start := FieldParts(key, section, fields), errs;
      var seenP1, seenP2, streamCount := false, false, 0;
      for i := 0 to |fields|
        invariant seenP1 == InUse(fields, i, P1) && seenP2 == InUse(fields, i, P2)
        invariant streamCount == StreamCount(fields, i)
        invariant errs == start + Joined(parts[..i])
      {
        var f := fields[i];
        Add(FieldErrors(key, section, i, f, seenP1, seenP2));
        JoinedAppends(start, parts, i);
        if f.fieldType == Stream {
          streamCount := streamCount + 1;
        }
        if f.location == P1 {
          seenP1 := true;
        }
        if f.location == P2 {
          seenP2 := true;
        }
      }
      assert parts[..|fields|] == parts;
      var alone := When(streamCount > 0 && |fields| != 1, FieldsPath(key, section), StreamNotAlone);
      Associative(start, Joined(parts), alone);
      Add(alone);
    }

    // Afterwards every byte of the range has an owner: whoever was there, or else this method.
    method ValidateMethodINSRange(key: string, m: Method)
      modifies this`errs, this`insSeen
      ensures errs == old(errs) + InsErrors(key, m, old(insSeen))
      ensures insSeen == Claimed(old(insSeen), key, m.ins, Span(m))
    {
      var count := 1;
      if HasStream(m) {
        count := 6;
      }
      var base: int := m.ins;
      var exceeds := When(base + count - 1 > 0xFF, InsPath(key), ExceedsByte(base, base + count - 1));
      Add(exceeds);
      ClaimBytes(key, base, count);
      Associative(old(errs), exceeds, Joined(ByteParts(key, base, count, old(insSeen))));
    }

    method ClaimBytes(key: string, base: byte, count: nat)
      modifies this`errs, this`insSeen
      ensures errs == old(errs) + Joined(ByteParts(key, base, count, old(insSeen)))
      ensures insSeen == Claimed(old(insSeen), key, base, count)
    {
      ghost var start, parts, seen := errs, ByteParts(key, base, count, insSeen), insSeen;
      var offset := 0;
      while offset < count && base + offset <= 0xFF
        invariant 0 <= offset <= count && base + offset <= 0x100
        invariant insSeen == Claimed(seen, key, base, offset)
        invariant errs == start + Joined(parts[..offset])
      {
        ClaimByte(key, base, offset, seen);
        JoinedAppends(start, parts, offset);
        offset := offset + 1;
      }
      NothingBeyond(parts, offset);
      ClaimedBeyond(seen, key, base, offset, count);
    }

    // One byte of a range.
    method ClaimByte(key: string, base: byte, offset: nat, ghost seen: map<int, string>)
      requires base + offset <= 0xFF && insSeen == Claimed(seen, key, base, offset)
      modifies this`errs, this`insSeen
      ensures insSeen == Claimed(seen, key, base, offset + 1)
      ensures errs == old(errs) + ByteErrors(key, base, offset, seen)
    {
      ClaimedIs(seen, key, base, offset, base + offset);
      Add(ByteErrors(key, base, offset, insSeen));
      insSeen := FirstOwner(insSeen, base + offset, key);
    }

    method ValidateMethod(s: Schema, key: string, m: Method)
      modifies this`errs, this`insSeen, this`methodNameSeen
      ensures errs == old(errs) + DefinitionErrors(s.applet, key, m, old(methodNameSeen), old(insSeen))
      ensures insSeen == Claimed(old(insSeen), key, m.ins, Span(m))
      ensures methodNameSeen == FirstOwner(old(methodNameSeen), MethodName(key, m), key)
    {
      var a := NameErrors(key, m, methodNameSeen);
      Add(a);
      methodNameSeen := FirstOwner(methodNameSeen, MethodName(key, m), key);
      ghost var b := InsErrors(key, m, insSeen);
      ValidateMethodINSRange(key, m);
      ghost var c, d := MessageErrors(key, Request, m.request), MessageErrors(key, Response, m.response);
      ValidateMessage(key, Request, m.request);
      ValidateMessage(key, Response, m.response);
      var e := StreamUseErrors(key, s.applet, m);
      Add(e);
      Associative(old(errs), a, b);
      Associative(old(errs), a + b, c);
      Associative(old(errs), a + b + c, d);
      Associative(old(errs), a + b + c + d, e);
    }

    // The method with the i-th key.
    method ValidateEntry(s: Schema, keys: seq<string>, i: nat)
      requires i < |keys|
      requires insSeen == InsOwners(s.methods, keys, i) && methodNameSeen == NameOwners(s.methods, keys, i)
      modifies this`errs, this`insSeen, this`methodNameSeen
      ensures errs == old(errs) + MethodErrors(s, keys, i)
      ensures insSeen == InsOwners(s.methods, keys, i + 1) && methodNameSeen == NameOwners(s.methods, keys, i + 1)
    {
      var key := keys[i];
      var a := When(!IsIdentifier(key), MethodPath(key), BadIdentifier);
      Add(a);
      if MethodAt(s.methods, key).None? {
        OwnersSkip(s.methods, keys, i);
        Associative(old(errs), a, When(true, MethodPath(key), NilMethod));
        Add(When(true, MethodPath(key), NilMethod));
      } else {
        var m := MethodAt(s.methods, key).value;
        OwnersGrow(s.methods, keys, i);
        Associative(old(errs), a, DefinitionErrors(s.applet, key, m, methodNameSeen, insSeen));
        ValidateMethod(s, key, m);
      }
    }

    method ValidateMethods(s: Schema, keys: seq<string>)
      requires insSeen == map[] && methodNameSeen == map[]
      modifies this`errs, this`insSeen, this`methodNameSeen
      ensures errs == old(errs) + AllMethodsErrors(s, keys)
    {
      if |keys| == 0 {
        Add(When(true, MethodsPath, NoMethods));
      } else {
        ValidateEach(s, keys);
      }
    }

    method ValidateEach(s: Schema, keys: seq<string>)
      requires insSeen == map[] && methodNameSeen == map[]
      modifies this`errs, this`insSeen, this`methodNameSeen
      ensures errs == old(errs) + Joined(MethodParts(s, keys))
    {
      ghost var parts, start := MethodParts(s, keys), errs;
      assert InsOwners(s.methods, keys, 0) == map[];
      for i := 0 to |keys|
        invariant insSeen == InsOwners(s.methods, keys, i)
        invariant methodNameSeen == NameOwners(s.methods, keys, i)
        invariant errs == start + Joined(parts[..i])
      {
        ValidateEntry(s, keys, i);
        JoinedAppends(start, parts, i);
      }
      assert parts[..|keys|] == parts;
    }

    // The status word with the i-th key.
    method ValidateStatusWord(words: map<string, StatusWord>, keys: seq<string>, i: nat,
                              ghost reported: seq<ValidationError>)
      requires i < |keys| && reported == StatusWordErrors(words, keys, i)
      requires statusNameSeen == StatusNames(words, keys, i) && codeSeen == Codes(words, keys, i)
      modifies this`errs, this`statusNameSeen, this`codeSeen
      ensures errs == old(errs) + reported
      ensures statusNameSeen == StatusNames(words, keys, i + 1) && codeSeen == Codes(words, keys, i + 1)
    {
      var key := keys[i];
      var sw := WordAt(words, key);
      Add(StatusErrors(key, sw, statusNameSeen, codeSeen));
      statusNameSeen := FirstOwner(statusNameSeen, StatusName(key, sw), key);
      codeSeen := FirstOwner(codeSeen, sw.code, key);
    }

    method ValidateStatusWords(words: map<string, StatusWord>, keys: seq<string>)
      requires statusNameSeen == map[] && codeSeen == map[]
      modifies this`errs, this`statusNameSeen, this`codeSeen
      ensures errs == old(errs) + Joined(StatusWordParts(words, keys))
    {
      ghost var parts, start := StatusWordParts(words, keys), errs;
      for i := 0 to |keys|
        invariant statusNameSeen == StatusNames(words, keys, i) && codeSeen == Codes(words, keys, i)
        invariant errs == start + Joined(parts[..i])
      {
        JoinedAppends(start, parts, i);
        ValidateStatusWord(words, keys, i, parts[i]);
      }
      assert parts[..|keys|] == parts;
    }
  }

  // A first-owner map after a method has claimed `count` bytes from `base` on.
  ghost function Claimed(seen: map<int, string>, key: string, base: byte, count: nat): map<int, string> {
    if count == 0 then seen
    else
      var before := Claimed(seen, key, base, count - 1);
      if base + count - 1 <= 0xFF then FirstOwner(before, base + count - 1, key) else before
  }

  lemma {:induction false} ClaimedIs(seen: map<int, string>, key: string, base: byte, count: nat, ins: int)
    ensures var after := Claimed(seen, key, base, count);
            && (ins in after <==> ins in seen || (base <= ins < base + count && ins <= 0xFF))
            && (ins in after ==> after[ins] == if ins in seen then seen[ins] else key)
  {
    if count > 0 {
      ClaimedIs(seen, key, base, count - 1, ins);
    }
  }

  lemma {:induction false} ClaimedBeyond(seen: map<int, string>, key: string, base: byte, n: nat, count: nat)
    requires n <= count && (n == count || base + n > 0xFF)
    ensures Claimed(seen, key, base, count) == Claimed(seen, key, base, n)
    decreases count
  {
    if n < count {
      ClaimedBeyond(seen, key, base, n, count - 1);
    }
  }

  lemma {:induction false} NothingBeyond<T>(parts: seq<seq<T>>, n: nat)
    requires n <= |parts| && forall i | n <= i < |parts| :: parts[i] == []
    ensures Joined(parts) == Joined(parts[..n])
  {
    if n == |parts| {
      assert parts[..n] == parts;
    } else {
      NothingBeyond(parts[..|parts| - 1], n);
      assert parts[..|parts| - 1][..n] == parts[..n];
    }
  }

  lemma OwnersSkip(methods: map<string, Option<Method>>, keys: seq<string>, i: nat)
    requires i < |keys| && MethodAt(methods, keys[i]).None?
    ensures InsOwners(methods, keys, i + 1) == InsOwners(methods, keys, i)
    ensures NameOwners(methods, keys, i + 1) == NameOwners(methods, keys, i)
  {
    forall ins ensures FirstClaim(methods, keys, i + 1, ins) == FirstClaim(methods, keys, i, ins) {
    }
  }

  lemma OwnersGrow(methods: map<string, Option<Method>>, keys: seq<string>, i: nat)
    requires i < |keys| && MethodAt(methods, keys[i]).Some?
    ensures var m := MethodAt(methods, keys[i]).value;
            && InsOwners(methods, keys, i + 1) == Claimed(InsOwners(methods, keys, i), keys[i], m.ins, Span(m))
            && NameOwners(methods, keys, i + 1)
               == FirstOwner(NameOwners(methods, keys, i), MethodName(keys[i], m), keys[i])
  {
    forall ins ensures FirstClaim(methods, keys, i + 1, ins)
      == if FirstClaim(methods, keys, i, ins).Some? then FirstClaim(methods, keys, i, ins)
         else if Claims(methods, keys[i], ins) then Some(keys[i]) else None
    {
    }
    var m := MethodAt(methods, keys[i]).value;
    forall ins ensures ins in InsOwners(methods, keys, i + 1)
                  <==> ins in Claimed(InsOwners(methods, keys, i), keys[i], m.ins, Span(m))
    {
      ClaimedIs(InsOwners(methods, keys, i), keys[i], m.ins, Span(m), ins);
    }
    forall ins | ins in InsOwners(methods, keys, i + 1)
      ensures InsOwners(methods, keys, i + 1)[ins] == Claimed(InsOwners(methods, keys, i), keys[i], m.ins, Span(m))[ins]
    {
      ClaimedIs(InsOwners(methods, keys, i), keys[i], m.ins, Span(m), ins);
    }
  }

  // The errors in the order they are found: an empty list is what makes a schema acceptable.
  method Validate(schema: Option<Schema>, methodOrder: seq<string>, statusOrder: seq<string>)
    returns (errs: seq<ValidationError>)
    requires schema.Some? ==> Enumerates(methodOrder, schema.value.methods.Keys)
    requires schema.Some? ==> Enumerates(statusOrder, schema.value.statusWords.Keys)
    ensures errs == Report(schema, methodOrder, statusOrder)
  {
    if schema.None? {
      return When(true, SchemaPath, NilSchema);
    }
    var s := schema.value;
    var keys, statusKeys := Sort(methodOrder), Sort(statusOrder);
    var v := new Validation();
    v.ValidateApplet(s.applet);
    v.ValidateMethods(s, keys);
    v.ValidateStatusWords(s.statusWords, statusKeys);
    return v.errs;
  }

  function Report(schema: Option<Schema>, methodOrder: seq<string>, statusOrder: seq<string>): seq<ValidationError> {
    match schema
    case None => When(true, SchemaPath, NilSchema)
    case Some(s) => SchemaErrors(s, Sort(methodOrder), Sort(statusOrder))
  }

  // However the two maps are ranged over, the list of errors is the same.
  lemma ReportForgetsTheOrder(schema: Option<Schema>, a: seq<string>, b: seq<string>, c: seq<string>, d: seq<string>)
    requires schema.Some? ==> Enumerates(a, schema.value.methods.Keys) && Enumerates(b, schema.value.methods.Keys)
    requires schema.Some? ==>
      Enumerates(c, schema.value.statusWords.Keys) && Enumerates(d, schema.value.statusWords.Keys)
    ensures Report(schema, a, c) == Report(schema, b, d)
  {
    if schema.Some? {
      SortingForgetsTheOrder(a, b, schema.value.methods.Keys);
      SortingForgetsTheOrder(c, d, schema.value.statusWords.Keys);
    }
  }
}
