/** What the validator says about instruction bytes: exactly the conflicts there are (validator.go). */
module Allocation {
  import opened Wrappers
  import opened Idl
  import opened Keys
  import opened ValidationRules
  import opened Validator

  ghost predicate LeastClaimant(methods: map<string, Option<Method>>, ins: int, first: string) {
    && Claims(methods, first, ins)
    && forall k | k in methods && Claims(methods, k, ins) :: k == first || Before(first, k)
  }

  // The problems of one method's instruction range, without an order of visiting or a map of owners.
  ghost predicate InsProblem(methods: map<string, Option<Method>>, key: string, problem: Problem) {
    match MethodAt(methods, key)
    case None => false
    case Some(m) =>
      match problem
      case ExceedsByte(base, last) => base == m.ins && last == m.ins + Span(m) - 1 && last > 0xFF
      case DuplicateIns(ins, first) =>
        ins == m.ins && Claims(methods, key, ins) && LeastClaimant(methods, ins, first) && first != key
      case Collides(ins, first) =>
        ins != m.ins && Claims(methods, key, ins) && LeastClaimant(methods, ins, first) && first != key
      case ReservedIns(ins) => Claims(methods, key, ins) && IsReserved(ins)
      case _ => false
  }

  // Every range fits into the byte, no two share a byte, and none touches a reserved one.
  ghost predicate Allocated(methods: map<string, Option<Method>>) {
    && (forall k | k in methods && methods[k].Some? :: methods[k].value.ins + Span(methods[k].value) - 1 <= 0xFF)
    && (forall k, ins | Claims(methods, k, ins) :: !IsReserved(ins))
    && (forall j, k, ins | Claims(methods, j, ins) && Claims(methods, k, ins) :: j == k)
  }

  ghost predicate NoIns(errs: seq<ValidationError>) {
    forall e | e in errs :: !e.where.InsPath?
  }

  lemma NoInsJoined(parts: seq<seq<ValidationError>>)
    requires forall i | 0 <= i < |parts| :: NoIns(parts[i])
    ensures NoIns(Joined(parts))
  {
    forall e | e in Joined(parts) ensures !e.where.InsPath? {
      JoinedMembers(parts, e);
    }
  }

  lemma NoInsInField(key: string, section: Section, i: nat, f: Field, seenP1: bool, seenP2: bool)
    ensures NoIns(FieldErrors(key, section, i, f, seenP1, seenP2))
  {
    assert NoIns(StreamErrors(key, section, i, f));
    assert NoIns(LocationErrors(key, section, i, f, seenP1, seenP2));
  }

  lemma NoInsInMessage(key: string, section: Section, message: Option<Message>)
    ensures NoIns(MessageErrors(key, section, message))
  {
    if message.Some? {
      var fields := message.value.fields;
      var parts := FieldParts(key, section, fields);
      forall i | 0 <= i < |parts| ensures NoIns(parts[i]) {
        NoInsInField(key, section, i, fields[i], InUse(fields, i, P1), InUse(fields, i, P2));
      }
      NoInsJoined(parts);
    }
  }

  lemma NoInsInStreamUse(key: string, applet: Applet, m: Method)
    ensures NoIns(StreamUseErrors(key, applet, m))
  {
    NoInsJoined(ReservedParts(key, Fields(m.request)));
    assert NoIns(StreamModeErrors(key, applet, m));
  }

  lemma NoInsInStatusWords(words: map<string, StatusWord>, keys: seq<string>)
    ensures NoIns(Joined(StatusWordParts(words, keys)))
  {
    var parts := StatusWordParts(words, keys);
    forall i | 0 <= i < |parts| ensures NoIns(parts[i]) {
      NoInsInStatusWord(keys[i], WordAt(words, keys[i]), StatusNames(words, keys, i), Codes(words, keys, i));
    }
    NoInsJoined(parts);
  }

  lemma NoInsInStatusWord(key: string, w: StatusWord, names: map<string, string>, codes: map<int, string>)
    ensures NoIns(StatusErrors(key, w, names, codes))
  {
    var name := StatusName(key, w);
    var a := When(!IsIdentifier(key), StatusPath(key), BadIdentifier)
           + When(!IsBlank(w.name) && !IsIdentifier(w.name), StatusNamePath(key), BadIdentifier);
    assert NoIns(a);
    var b := a + (if name in names then When(true, StatusPath(key), DuplicateName(name, names[name])) else []);
    assert NoIns(b);
    assert NoIns(b + When(!IsStatusCode(w.code), CodePath(key), BadCode));
  }

  // What the validator finds out about the bytes of the method with the i-th key.
  ghost predicate InsFound(methods: map<string, Option<Method>>, keys: seq<string>, i: nat, e: ValidationError)
    requires i < |keys|
  {
    match MethodAt(methods, keys[i])
    case None => false
    case Some(m) => e in InsErrors(keys[i], m, InsOwners(methods, keys, i))
  }

  ghost predicate SomeInsFound(methods: map<string, Option<Method>>, keys: seq<string>, e: ValidationError) {
    exists i :: 0 <= i < |keys| && InsFound(methods, keys, i, e)
  }

  lemma DefinitionIns(applet: Applet, key: string, m: Method, names: map<string, string>, seen: map<int, string>,
                      e: ValidationError)
    requires e.where.InsPath?
    ensures e in DefinitionErrors(applet, key, m, names, seen) <==> e in InsErrors(key, m, seen)
  {
    assert NoIns(NameErrors(key, m, names));
    NoInsInMessage(key, Request, m.request);
    NoInsInMessage(key, Response, m.response);
    NoInsInStreamUse(key, applet, m);
  }

  lemma MethodIns(s: Schema, keys: seq<string>, i: nat, e: ValidationError)
    requires i < |keys| && e.where.InsPath?
    ensures e in MethodErrors(s, keys, i) <==> InsFound(s.methods, keys, i, e)
  {
    assert NoIns(When(!IsIdentifier(keys[i]), MethodPath(keys[i]), BadIdentifier));
    match MethodAt(s.methods, keys[i])
    case None =>
    case Some(m) =>
      DefinitionIns(s.applet, keys[i], m, NameOwners(s.methods, keys, i), InsOwners(s.methods, keys, i), e);
  }

  lemma SchemaIns(s: Schema, keys: seq<string>, statusKeys: seq<string>, e: ValidationError)
    requires e.where.InsPath?
    ensures e in SchemaErrors(s, keys, statusKeys) <==> SomeInsFound(s.methods, keys, e)
  {
    InMethods(s, keys, e);
    NoInsInApplet(s.applet);
    NoInsInStatusWords(s.statusWords, statusKeys);
    SecondOfThree(AppletErrors(s.applet), AllMethodsErrors(s, keys),
                  Joined(StatusWordParts(s.statusWords, statusKeys)), e);
  }

  lemma SecondOfThree(a: seq<ValidationError>, b: seq<ValidationError>, c: seq<ValidationError>, e: ValidationError)
    requires NoIns(a) && NoIns(c) && e.where.InsPath?
    ensures e in a + b + c <==> e in b
  {
  }

  lemma NoInsInApplet(applet: Applet)
    ensures NoIns(AppletErrors(applet))
  {
    assert NoIns(WorkspaceErrors(applet));
    assert NoIns(IdentityErrors(applet));
  }

  lemma InMethods(s: Schema, keys: seq<string>, e: ValidationError)
    requires e.where.InsPath?
    ensures e in AllMethodsErrors(s, keys) <==> SomeInsFound(s.methods, keys, e)
  {
    var parts := MethodParts(s, keys);
    JoinedMembers(parts, e);
    forall i | 0 <= i < |keys| ensures e in parts[i] <==> InsFound(s.methods, keys, i, e) {
      MethodIns(s, keys, i, e);
    }
  }

  predicate InRange(m: Method, ins: int) {
    m.ins <= ins < m.ins + Span(m) && ins <= 0xFF
  }

  // A problem with one byte that is in range.
  predicate ByteProblem(base: byte, ins: int, seen: map<int, string>, problem: Problem) {
    match problem
    case DuplicateIns(i, first) => i == ins && ins == base && ins in seen && seen[ins] == first
    case Collides(i, first) => i == ins && ins != base && ins in seen && seen[ins] == first
    case ReservedIns(i) => i == ins && IsReserved(ins)
    case _ => false
  }

  lemma ByteErrorsAre(key: string, base: byte, k: nat, seen: map<int, string>, e: ValidationError)
    ensures e in ByteErrors(key, base, k, seen)
       <==> e.where == InsPath(key) && ByteProblem(base, base + k, seen, e.problem)
  {
  }

  lemma BytePartIs(key: string, m: Method, seen: map<int, string>, e: ValidationError, k: nat)
    requires k < Span(m)
    ensures e in ByteParts(key, m.ins, Span(m), seen)[k]
       <==> e.where == InsPath(key) && InRange(m, m.ins + k) && ByteProblem(m.ins, m.ins + k, seen, e.problem)
  {
    ByteErrorsAre(key, m.ins, k, seen, e);
  }

  lemma BytePartsAre(key: string, m: Method, seen: map<int, string>, e: ValidationError)
    ensures e in Joined(ByteParts(key, m.ins, Span(m), seen))
       <==> e.where == InsPath(key) && exists ins :: InRange(m, ins) && ByteProblem(m.ins, ins, seen, e.problem)
  {
    var parts := ByteParts(key, m.ins, Span(m), seen);
    JoinedMembers(parts, e);
    if k :| 0 <= k < |parts| && e in parts[k] {
      BytePartIs(key, m, seen, e, k);
    }
    if ins :| InRange(m, ins) && ByteProblem(m.ins, ins, seen, e.problem) {
      BytePartIs(key, m, seen, e, ins - m.ins);
    }
  }

  lemma InsErrorsAre(key: string, m: Method, seen: map<int, string>, e: ValidationError)
    ensures e in InsErrors(key, m, seen)
       <==> e.where == InsPath(key) &&
            match e.problem
            case ExceedsByte(base, last) => base == m.ins && last == m.ins + Span(m) - 1 && last > 0xFF
            case DuplicateIns(ins, first) => ins == m.ins && ins in seen && seen[ins] == first
            case Collides(ins, first) => m.ins < ins && InRange(m, ins) && ins in seen && seen[ins] == first
            case ReservedIns(ins) => InRange(m, ins) && IsReserved(ins)
            case _ => false
  {
    BytePartsAre(key, m, seen, e);
    if e.problem.DuplicateIns? || e.problem.Collides? || e.problem.ReservedIns? {
      assert ByteProblem(m.ins, e.problem.ins, seen, e.problem)
          || !exists ins :: InRange(m, ins) && ByteProblem(m.ins, ins, seen, e.problem);
    }
  }

  lemma {:induction false} FirstClaimIs(methods: map<string, Option<Method>>, keys: seq<string>, n: nat, ins: int)
    requires n <= |keys|
    ensures var first := FirstClaim(methods, keys, n, ins);
            && (first.None? ==> forall j | 0 <= j < n :: !Claims(methods, keys[j], ins))
            && (first.Some? ==> exists i | 0 <= i < n :: keys[i] == first.value && Claims(methods, keys[i], ins)
                                 && forall j | 0 <= j < i :: !Claims(methods, keys[j], ins))
  {
    if n > 0 {
      FirstClaimIs(methods, keys, n - 1, ins);
    }
  }

  // The keys are taken in ascending order, so the first to claim a byte is the least to claim it.
  lemma FirstIsLeast(methods: map<string, Option<Method>>, keys: seq<string>, i: nat, ins: int, first: string)
    requires Ascending(keys) && Enumerates(keys, methods.Keys) && i < |keys| && Claims(methods, keys[i], ins)
    ensures FirstClaim(methods, keys, i, ins) == Some(first)
       <==> LeastClaimant(methods, ins, first) && first != keys[i]
  {
    if LeastClaimant(methods, ins, first) && first != keys[i] {
      assert keys[i] in keys && first in keys;
      var j :| 0 <= j < |keys| && keys[j] == first;
      Trichotomy(first, keys[i]);
      FirstIsFound(methods, keys, i, j, ins);
    }
    if FirstClaim(methods, keys, i, ins) == Some(first) {
      FoundIsLeast(methods, keys, i, ins, first);
    }
  }

  lemma FoundIsLeast(methods: map<string, Option<Method>>, keys: seq<string>, i: nat, ins: int, first: string)
    requires Ascending(keys) && Enumerates(keys, methods.Keys) && i < |keys|
    requires FirstClaim(methods, keys, i, ins) == Some(first)
    ensures LeastClaimant(methods, ins, first) && Before(first, keys[i]) && first != keys[i]
  {
    FirstClaimIs(methods, keys, i, ins);
    var j :| 0 <= j < i && keys[j] == first && Claims(methods, keys[j], ins)
             && forall k | 0 <= k < j :: !Claims(methods, keys[k], ins);
    NotBeforeItself(first);
    NoEarlierIsLeast(methods, keys, j, ins);
  }

  lemma NoEarlierIsLeast(methods: map<string, Option<Method>>, keys: seq<string>, j: nat, ins: int)
    requires Ascending(keys) && Enumerates(keys, methods.Keys) && j < |keys| && Claims(methods, keys[j], ins)
    requires forall k | 0 <= k < j :: !Claims(methods, keys[k], ins)
    ensures LeastClaimant(methods, ins, keys[j])
  {
    forall k | k in methods && Claims(methods, k, ins) ensures k == keys[j] || Before(keys[j], k) {
      var at :| 0 <= at < |keys| && keys[at] == k;
      assert j <= at;
    }
  }

  lemma PlacesFollowKeys(keys: seq<string>, i: nat, j: nat)
    requires Ascending(keys) && i < |keys| && j < |keys| && Before(keys[i], keys[j])
    ensures i < j
  {
    Trichotomy(keys[i], keys[j]);
  }

  lemma FirstIsFound(methods: map<string, Option<Method>>, keys: seq<string>, i: nat, j: nat, ins: int)
    requires Ascending(keys) && Enumerates(keys, methods.Keys) && i < |keys| && j < |keys|
    requires LeastClaimant(methods, ins, keys[j]) && Before(keys[j], keys[i])
    ensures FirstClaim(methods, keys, i, ins) == Some(keys[j])
  {
    PlacesFollowKeys(keys, j, i);
    FirstClaimIs(methods, keys, i, ins);
    var first := FirstClaim(methods, keys, i, ins);
    var k :| 0 <= k < i && keys[k] == first.value && Claims(methods, keys[k], ins)
             && forall h | 0 <= h < k :: !Claims(methods, keys[h], ins);
    if keys[k] != keys[j] {
      assert keys[k] in methods;
      PlacesFollowKeys(keys, j, k);
    }
  }

  // The report on instruction bytes is exact: it holds every problem there is and no other one,
  // and a message about a byte that is taken names the least key that claims it.
  lemma InsReportIsExact(s: Schema, order: seq<string>, statusOrder: seq<string>, key: string, problem: Problem)
    requires Enumerates(order, s.methods.Keys)
    ensures ValidationError(InsPath(key), problem) in Report(Some(s), order, statusOrder)
       <==> key in s.methods && InsProblem(s.methods, key, problem)
  {
    var e := ValidationError(InsPath(key), problem);
    SortedKeys(order, s.methods.Keys);
    SchemaProblems(s, Sort(order), Sort(statusOrder), e);
  }

  lemma SchemaProblems(s: Schema, keys: seq<string>, statusKeys: seq<string>, e: ValidationError)
    requires Ascending(keys) && Enumerates(keys, s.methods.Keys) && e.where.InsPath?
    ensures e in SchemaErrors(s, keys, statusKeys)
       <==> e.where.key in s.methods && InsProblem(s.methods, e.where.key, e.problem)
  {
    SchemaIns(s, keys, statusKeys, e);
    FoundAreProblems(s.methods, keys, e);
  }

  lemma FoundAreProblems(methods: map<string, Option<Method>>, keys: seq<string>, e: ValidationError)
    requires Ascending(keys) && Enumerates(keys, methods.Keys) && e.where.InsPath?
    ensures SomeInsFound(methods, keys, e)
       <==> e.where.key in methods && InsProblem(methods, e.where.key, e.problem)
  {
    forall i | 0 <= i < |keys|
      ensures InsFound(methods, keys, i, e) <==> keys[i] == e.where.key && InsProblem(methods, e.where.key, e.problem)
    {
      FoundIsProblem(methods, keys, i, e);
    }
    if e.where.key in methods {
      assert e.where.key in keys;
    }
  }

  lemma FoundIsProblem(methods: map<string, Option<Method>>, keys: seq<string>, i: nat, e: ValidationError)
    requires Ascending(keys) && Enumerates(keys, methods.Keys) && i < |keys| && e.where.InsPath?
    ensures InsFound(methods, keys, i, e) <==> keys[i] == e.where.key && InsProblem(methods, e.where.key, e.problem)
  {
    match MethodAt(methods, keys[i])
    case None =>
    case Some(m) =>
      InsErrorsAre(keys[i], m, InsOwners(methods, keys, i), e);
      if e.problem.DuplicateIns? || e.problem.Collides? {
        if Claims(methods, keys[i], e.problem.ins) {
          FirstIsLeast(methods, keys, i, e.problem.ins, e.problem.first);
        }
      }
  }

  lemma AProblem(methods: map<string, Option<Method>>, key: string, problem: Problem)
    requires Allocated(methods) && key in methods
    ensures !InsProblem(methods, key, problem)
  {
  }

  // Whoever shares a byte without being the first to claim it has a problem.
  lemma SharingIsAProblem(methods: map<string, Option<Method>>, j: string, k: string, ins: int)
    requires Claims(methods, j, ins) && Claims(methods, k, ins) && j != k
    ensures exists key, problem :: key in methods && InsProblem(methods, key, problem)
  {
    var first := SomeLeast(methods, methods.Keys, j, ins);
    var key := if first == j then k else j;
    var problem := if ins == methods[key].value.ins then DuplicateIns(ins, first) else Collides(ins, first);
    assert InsProblem(methods, key, problem);
  }

  lemma {:induction false} SomeLeast(methods: map<string, Option<Method>>, among: set<string>, j: string, ins: int)
    returns (first: string)
    requires j in among && Claims(methods, j, ins)
    ensures first in among && Claims(methods, first, ins)
    ensures forall k | k in among && Claims(methods, k, ins) :: k == first || Before(first, k)
    decreases |among|
  {
    if k :| k in among && Claims(methods, k, ins) && k != j && !Before(j, k) {
      Trichotomy(j, k);
      first := SomeLeast(methods, among - {j}, k, ins);
      Trichotomy(first, j);
      if first != k {
        Transitive(first, k, j);
      }
    } else {
      first := j;
    }
  }

  lemma NoProblems(methods: map<string, Option<Method>>)
    requires forall key, problem | key in methods :: !InsProblem(methods, key, problem)
    ensures Allocated(methods)
  {
    forall k | k in methods && methods[k].Some?
      ensures methods[k].value.ins + Span(methods[k].value) - 1 <= 0xFF
    {
      var m := methods[k].value;
      assert !InsProblem(methods, k, ExceedsByte(m.ins, m.ins + Span(m) - 1));
    }
    forall k, ins | Claims(methods, k, ins) ensures !IsReserved(ins) {
      assert !InsProblem(methods, k, ReservedIns(ins));
    }
    forall j, k, ins | Claims(methods, j, ins) && Claims(methods, k, ins) ensures j == k {
      if j != k {
        SharingIsAProblem(methods, j, k, ins);
      }
    }
  }

  // No error about instruction bytes means that all ranges are in range, disjoint and unreserved.
  lemma InsVerdictIsExact(s: Schema, order: seq<string>, statusOrder: seq<string>)
    requires Enumerates(order, s.methods.Keys)
    ensures NoIns(Report(Some(s), order, statusOrder)) <==> Allocated(s.methods)
  {
    var errs := Report(Some(s), order, statusOrder);
    if Allocated(s.methods) {
      forall e | e in errs && e.where.InsPath? ensures false {
        InsReportIsExact(s, order, statusOrder, e.where.key, e.problem);
        AProblem(s.methods, e.where.key, e.problem);
      }
    }
    if NoIns(errs) {
      forall key, problem | key in s.methods ensures !InsProblem(s.methods, key, problem) {
        InsReportIsExact(s, order, statusOrder, key, problem);
        assert ValidationError(InsPath(key), problem).where.InsPath?;
      }
      NoProblems(s.methods);
    }
  }
}
