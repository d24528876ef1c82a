/** The parser's loops over fields, methods and status words (parser.go). */
module Normalizer {
  import opened Wrappers
  import opened Keys
  import opened Idl
  import opened ValidationRules
  import opened Parser

  /** A field that is refused, and why. */
  datatype Refusal = Refusal(index: nat, fault: FieldFault)

  // The first n fields, or the first of them that is refused.
  function NormalFields(raws: seq<RawField>, n: nat): (r: Result<seq<Field>, Refusal>)
    requires n <= |raws|
    ensures r.Ok? ==> |r.value| == n
  {
    if n == 0 then Ok([])
    else
      match NormalFields(raws, n - 1)
      case Err(refusal) => Err(refusal)
      case Ok(fields) =>
        match NormalField(raws[n - 1])
        case Err(fault) => Err(Refusal(n - 1, fault))
        case Ok(f) => Ok(fields + [f])
  }

  function MessageOf(key: string, section: Section, raw: RawMessage): Result<Message, ParseError> {
    match NormalFields(raw.fields, |raw.fields|)
    case Err(Refusal(index, fault)) => Err(InField(key, section, index, fault))
    case Ok(fields) =>
      if section == Response then Ok(Message(fields))
      else
        match Conflict(fields, |fields|)
        case Some(location) => Err(InRequest(key, location))
        case None => Ok(Message(Placed(fields)))
  }

  lemma {:induction false} RefusalStays(raws: seq<RawField>, i: nat, n: nat)
    requires i <= n <= |raws| && NormalFields(raws, i).Err?
    ensures NormalFields(raws, n) == NormalFields(raws, i)
    decreases n
  {
    if i < n {
      RefusalStays(raws, i, n - 1);
    }
  }

  lemma NextField(raws: seq<RawField>, i: nat, fields: seq<Field>, normal: Result<Field, FieldFault>)
    requires i < |raws| && NormalFields(raws, i) == Ok(fields) && NormalField(raws[i]) == normal
    ensures normal.Ok? ==> NormalFields(raws, i + 1) == Ok(fields + [normal.value])
    ensures normal.Err? ==> NormalFields(raws, |raws|) == Err(Refusal(i, normal.error))
  {
    if normal.Err? {
      RefusalStays(raws, i + 1, |raws|);
    }
  }

  method NormalizeFields(raws: seq<RawField>) returns (r: Result<seq<Field>, Refusal>)
    ensures r == NormalFields(raws, |raws|)
  {
    var fields: seq<Field> := [];
    for i := 0 to |raws|
      invariant NormalFields(raws, i) == Ok(fields)
    {
      var normal := NormalField(raws[i]);
      NextField(raws, i, fields, normal);
      if normal.Err? {
        return Err(Refusal(i, normal.error));
      }
      fields := fields + [normal.value];
    }
    return Ok(fields);
  }

  // The slice of fields is placed in the array that holds it.
  method PlaceRequest(key: string, fields: seq<Field>) returns (r: Result<seq<Field>, ParseError>)
    ensures r == match Conflict(fields, |fields|)
                 case Some(location) => Err(InRequest(key, location))
                 case None => Ok(Placed(fields))
  {
    var slice := new Field[|fields|](i requires 0 <= i < |fields| => fields[i]);
    assert slice[..] == fields;
    var conflict := AssignRequestLocations(slice);
    if conflict.Some? {
      return Err(InRequest(key, conflict.value));
    }
    return Ok(slice[..]);
  }

  method NormalizeMessage(key: string, section: Section, raw: RawMessage) returns (r: Result<Message, ParseError>)
    ensures r == MessageOf(key, section, raw)
  {
    var fields := NormalizeFields(raw.fields);
    if fields.Err? {
      return Err(InField(key, section, fields.error.index, fields.error.fault));
    }
    if section == Response {
      return Ok(Message(fields.value));
    }
    var placed := PlaceRequest(key, fields.value);
    if placed.Err? {
      return Err(placed.error);
    }
    return Ok(Message(placed.value));
  }

  function OptionalMessageOf(key: string, section: Section, raw: Option<RawMessage>)
    : Result<Option<Message>, ParseError>
  {
    match raw
    case None => Ok(None)
    case Some(message) =>
      match MessageOf(key, section, message)
      case Ok(m) => Ok(Some(m))
      case Err(e) => Err(e)
  }

  predicate IsByte(v: int64) {
    0 <= v <= 0xFF
  }

  function MethodOf(key: string, raw: RawMethod): Result<Method, ParseError> {
    if !IsByte(raw.ins) then Err(InsOutOfRange(key))
    else
      match OptionalMessageOf(key, Request, raw.request)
      case Err(e) => Err(e)
      case Ok(request) =>
        match OptionalMessageOf(key, Response, raw.response)
        case Err(e) => Err(e)
        case Ok(response) => Ok(Method(key, raw.ins, raw.description, request, response, raw.streamMode))
  }

  method NormalizeMethod(key: string, raw: RawMethod) returns (r: Result<Method, ParseError>)
    ensures r == MethodOf(key, raw)
  {
    if !IsByte(raw.ins) {
      return Err(InsOutOfRange(key));
    }
    var request, response: Option<Message> := None, None;
    if raw.request.Some? {
      var req := NormalizeMessage(key, Request, raw.request.value);
      if req.Err? {
        return Err(req.error);
      }
      request := Some(req.value);
    }
    if raw.response.Some? {
      var resp := NormalizeMessage(key, Response, raw.response.value);
      if resp.Err? {
        return Err(resp.error);
      }
      response := Some(resp.value);
    }
    return Ok(Method(key, raw.ins, raw.description, request, response, raw.streamMode));
  }

  function StatusWordOf(key: string, raw: RawStatusWord): Result<StatusWord, ParseError> {
    if 0 <= raw.code <= 0xFFFF then Ok(StatusWord(key, raw.code, raw.description)) else Err(CodeOutOfRange(key))
  }

  // The errors that a schema holds, whatever the order in which they are come across.
  ghost predicate IsErrorOf(raw: RawSchema, e: ParseError) {
    || (!IsByte(raw.applet.cla) && e == ClaOutOfRange)
    || (IsByte(raw.applet.cla) && exists k :: k in raw.methods && MethodOf(k, raw.methods[k]) == Err(e))
    || (IsByte(raw.applet.cla) && exists k :: k in raw.statusWords && StatusWordOf(k, raw.statusWords[k]) == Err(e))
  }

  ghost predicate MethodsNormalize(methods: map<string, RawMethod>) {
    forall k | k in methods :: MethodOf(k, methods[k]).Ok?
  }

  ghost predicate StatusWordsNormalize(words: map<string, RawStatusWord>) {
    forall k | k in words :: StatusWordOf(k, words[k]).Ok?
  }

  ghost predicate Normalizes(raw: RawSchema) {
    IsByte(raw.applet.cla) && MethodsNormalize(raw.methods) && StatusWordsNormalize(raw.statusWords)
  }

  function AppletOf(raw: RawApplet): Applet
    requires IsByte(raw.cla)
  {
    Applet(raw.name, raw.description, raw.version, raw.aid, raw.cla, raw.workspace, raw.cleanup)
  }

  ghost function MethodsOf(methods: map<string, RawMethod>): map<string, Option<Method>>
    requires MethodsNormalize(methods)
  {
    map k | k in methods :: Some(MethodOf(k, methods[k]).value)
  }

  ghost function StatusWordsOf(words: map<string, RawStatusWord>): map<string, StatusWord>
    requires StatusWordsNormalize(words)
  {
    map k | k in words :: StatusWordOf(k, words[k]).value
  }

  ghost function Normalized(raw: RawSchema): Schema
    requires Normalizes(raw)
  {
    Schema(AppletOf(raw.applet), MethodsOf(raw.methods), StatusWordsOf(raw.statusWords))
  }

  method NormalizeMethods(methods: map<string, RawMethod>, order: seq<string>)
    returns (r: Result<map<string, Option<Method>>, ParseError>)
    requires Enumerates(order, methods.Keys)
    ensures r.Ok? <==> MethodsNormalize(methods)
    ensures r.Ok? ==> r.value == MethodsOf(methods)
    ensures r.Err? ==> exists k :: k in methods && MethodOf(k, methods[k]) == Err(r.error)
  {
    var normal: map<string, Option<Method>> := map[];
    for i := 0 to |order|
      invariant forall k :: k in normal <==> k in order[..i]
      invariant forall k | k in order[..i] :: k in methods && MethodOf(k, methods[k]).Ok?
      invariant forall k | k in normal :: normal[k] == Some(MethodOf(k, methods[k]).value)
    {
      var name := order[i];
      assert name in order;
      var m := NormalizeMethod(name, methods[name]);
      if m.Err? {
        return Err(m.error);
      }
      normal := normal[name := Some(m.value)];
      assert order[..i + 1] == order[..i] + [name];
    }
    assert order[..|order|] == order;
    return Ok(normal);
  }

  method NormalizeStatusWords(words: map<string, RawStatusWord>, order: seq<string>)
    returns (r: Result<map<string, StatusWord>, ParseError>)
    requires Enumerates(order, words.Keys)
    ensures r.Ok? <==> StatusWordsNormalize(words)
    ensures r.Ok? ==> r.value == StatusWordsOf(words)
    ensures r.Err? ==> exists k :: k in words && StatusWordOf(k, words[k]) == Err(r.error)
  {
    var normal: map<string, StatusWord> := map[];
    for i := 0 to |order|
      invariant forall k :: k in normal <==> k in order[..i]
      invariant forall k | k in order[..i] :: k in words && StatusWordOf(k, words[k]).Ok?
      invariant forall k | k in normal :: normal[k] == StatusWordOf(k, words[k]).value
    {
      var name := order[i];
      assert name in order;
      var w := StatusWordOf(name, words[name]);
      if w.Err? {
        return Err(w.error);
      }
      normal := normal[name := w.value];
      assert order[..i + 1] == order[..i] + [name];
    }
    assert order[..|order|] == order;
    return Ok(normal);
  }

  // Whether a schema normalises, and to what, does not depend on the order in which the two maps
  // are ranged over; only which of its errors is the one reported does.
  method NormalizeSchema(raw: RawSchema, methodOrder: seq<string>, statusOrder: seq<string>)
    returns (r: Result<Schema, ParseError>)
    requires Enumerates(methodOrder, raw.methods.Keys) && Enumerates(statusOrder, raw.statusWords.Keys)
    ensures r.Ok? <==> Normalizes(raw)
    ensures r.Ok? ==> r.value == Normalized(raw)
    ensures r.Err? ==> IsErrorOf(raw, r.error)
  {
    if !IsByte(raw.applet.cla) {
      return Err(ClaOutOfRange);
    }
    var methods := NormalizeMethods(raw.methods, methodOrder);
    if methods.Err? {
      return Err(methods.error);
    }
    var words := NormalizeStatusWords(raw.statusWords, statusOrder);
    if words.Err? {
      return Err(words.error);
    }
    return Ok(Schema(AppletOf(raw.applet), methods.value, words.value));
  }
}
