/**
 The stream dispatch table that the instruction allocation makes possible: how many methods fit,
 and which method and operation each instruction byte stands for (gen_java_stream_dispatch_test.go).
 */
module Dispatch {
  import opened Wrappers
  import opened Idl
  import opened Keys
  import opened ValidationRules
  import opened Allocation

  type Methods = map<string, Option<Method>>

  ghost predicate AllDefined(methods: Methods) {
    forall k | k in methods :: methods[k].Some?
  }

  // ---- How many instruction bytes there are.

  function Interval(from: int, until: int): set<int>
    decreases until - from
  {
    if from < until then Interval(from, until - 1) + {until - 1} else {}
  }

  lemma {:induction false} IntervalIs(from: int, until: int, x: int)
    ensures x in Interval(from, until) <==> from <= x < until
    decreases until - from
  {
    if from < until {
      IntervalIs(from, until - 1, x);
    }
  }

  lemma {:induction false} AddInterval(s: set<int>, from: int, until: int)
    requires from <= until && forall x | x in s :: x < from
    ensures |s + Interval(from, until)| == |s| + until - from
    decreases until - from
  {
    if from < until {
      AddInterval(s, from, until - 1);
      IntervalIs(from, until - 1, until - 1);
      assert s + Interval(from, until) == s + Interval(from, until - 1) + {until - 1};
    } else {
      assert s + Interval(from, until) == s;
    }
  }

  function ThreeIntervals(a: int, b: int, c: int, d: int, e: int, f: int): set<int> {
    Interval(a, b) + Interval(c, d) + Interval(e, f)
  }

  lemma ThreeIntervalsSize(a: int, b: int, c: int, d: int, e: int, f: int)
    requires a <= b <= c <= d <= e <= f
    ensures |ThreeIntervals(a, b, c, d, e, f)| == (b - a) + (d - c) + (f - e)
  {
    AddInterval({}, a, b);
    assert {} + Interval(a, b) == Interval(a, b);
    forall x | x in Interval(a, b) ensures x < c {
      IntervalIs(a, b, x);
    }
    AddInterval(Interval(a, b), c, d);
    forall x | x in Interval(a, b) + Interval(c, d) ensures x < e {
      IntervalIs(a, b, x);
      IntervalIs(c, d, x);
    }
    AddInterval(Interval(a, b) + Interval(c, d), e, f);
  }

  lemma ThreeIntervalsAre(a: int, b: int, c: int, d: int, e: int, f: int, x: int)
    ensures x in ThreeIntervals(a, b, c, d, e, f) <==> a <= x < b || c <= x < d || e <= x < f
  {
    IntervalIs(a, b, x);
    IntervalIs(c, d, x);
    IntervalIs(e, f, x);
  }

  function TotalSpan(methods: Methods, keys: seq<string>): nat {
    if keys == [] then 0
    else
      TotalSpan(methods, keys[..|keys| - 1])
      + match MethodAt(methods, keys[|keys| - 1]) case None => 0 case Some(m) => Span(m)
  }

  function StreamedCount(methods: Methods, keys: seq<string>): nat {
    if keys == [] then 0
    else
      var last := MethodAt(methods, keys[|keys| - 1]);
      StreamedCount(methods, keys[..|keys| - 1]) + if last.Some? && HasStream(last.value) then 1 else 0
  }

  lemma {:induction false} SixPerStream(methods: Methods, keys: seq<string>)
    ensures 6 * StreamedCount(methods, keys) <= TotalSpan(methods, keys)
  {
    if keys != [] {
      SixPerStream(methods, keys[..|keys| - 1]);
    }
  }

  function BytesOf(methods: Methods, key: string): set<int> {
    match MethodAt(methods, key)
    case None => {}
    case Some(m) => Interval(m.ins, m.ins + Span(m))
  }

  function AllBytes(methods: Methods, keys: seq<string>): set<int> {
    if keys == [] then {} else AllBytes(methods, keys[..|keys| - 1]) + BytesOf(methods, keys[|keys| - 1])
  }

  lemma {:induction false} AllBytesAre(methods: Methods, keys: seq<string>, ins: int)
    ensures ins in AllBytes(methods, keys) <==> exists i :: 0 <= i < |keys| && ins in BytesOf(methods, keys[i])
  {
    if keys != [] {
      AllBytesAre(methods, keys[..|keys| - 1], ins);
    }
  }

  lemma ClaimsAre(methods: Methods, key: string, ins: int)
    requires Allocated(methods)
    ensures ins in BytesOf(methods, key) <==> Claims(methods, key, ins)
  {
    if MethodAt(methods, key).Some? {
      IntervalIs(methods[key].value.ins, methods[key].value.ins + Span(methods[key].value), ins);
    }
  }

  lemma BytesOfSize(methods: Methods, key: string)
    ensures |BytesOf(methods, key)| == match MethodAt(methods, key) case None => 0 case Some(m) => Span(m)
  {
    match MethodAt(methods, key)
    case None =>
    case Some(m) =>
      AddInterval({}, m.ins, m.ins + Span(m));
      assert {} + Interval(m.ins, m.ins + Span(m)) == Interval(m.ins, m.ins + Span(m));
  }

  lemma {:induction false} AllBytesSize(methods: Methods, keys: seq<string>)
    requires Allocated(methods) && Distinct(keys)
    ensures |AllBytes(methods, keys)| == TotalSpan(methods, keys)
  {
    if keys != [] {
      var front, last := keys[..|keys| - 1], keys[|keys| - 1];
      AllBytesSize(methods, front);
      forall ins | ins in AllBytes(methods, front) ensures ins !in BytesOf(methods, last) {
        AllBytesAre(methods, front, ins);
        var i :| 0 <= i < |front| && ins in BytesOf(methods, front[i]);
        ClaimsAre(methods, front[i], ins);
        ClaimsAre(methods, last, ins);
      }
      assert AllBytes(methods, front) !! BytesOf(methods, last);
      BytesOfSize(methods, last);
    }
  }

  lemma AllBytesAreFree(methods: Methods, keys: seq<string>, ins: int)
    requires Allocated(methods) && ins in AllBytes(methods, keys)
    ensures 0 <= ins <= 0xFF && !IsReserved(ins)
  {
    AllBytesAre(methods, keys, ins);
    var i :| 0 <= i < |keys| && ins in BytesOf(methods, keys[i]);
    ClaimsAre(methods, keys[i], ins);
  }

  // `a` to `f` bound the three runs of bytes that are not reserved.
  lemma AllBytesFit(methods: Methods, keys: seq<string>, a: int, b: int, c: int, d: int, e: int, f: int)
    requires Allocated(methods) && a <= b <= c <= d <= e <= f
    requires forall ins | 0 <= ins <= 0xFF && !IsReserved(ins) :: a <= ins < b || c <= ins < d || e <= ins < f
    ensures |AllBytes(methods, keys)| <= (b - a) + (d - c) + (f - e)
  {
    forall ins | ins in AllBytes(methods, keys) ensures ins in ThreeIntervals(a, b, c, d, e, f) {
      AllBytesAreFree(methods, keys, ins);
      ThreeIntervalsAre(a, b, c, d, e, f, ins);
    }
    SubsetSize(AllBytes(methods, keys), ThreeIntervals(a, b, c, d, e, f));
    ThreeIntervalsSize(a, b, c, d, e, f);
  }

  lemma SubsetSize(a: set<int>, b: set<int>)
    requires a <= b
    ensures |a| <= |b|
  {
    assert b == a + (b - a);
  }

  // However many methods a schema has, they share 224 bytes: at most 37 of them can be streamed,
  // so that the ids counted from one fit a byte.
  lemma AtMost224Bytes(methods: Methods, keys: seq<string>)
    requires Allocated(methods) && Enumerates(keys, methods.Keys)
    ensures TotalSpan(methods, keys) <= 224
    ensures StreamedCount(methods, keys) <= 37
  {
    AllBytesSize(methods, keys);
    AllBytesFit(methods, keys, 0, 0x60, 0x70, 0x90, 0xA0, 0x100);
    SixPerStream(methods, keys);
  }

  // ---- The table.

  /** One direction of a streamed method. */
  datatype Direction = Direction(enabled: bool, max: int64, chunk: int64)

  /** `exact` is the width of a response without a stream, -1 with one, None if it has no width. */
  datatype StreamConfig = StreamConfig(request: Direction, response: Direction, exact: Option<int64>)

  function DirectionOf(field: Option<Field>): Direction {
    match field
    case None => Direction(false, 0, 0)
    case Some(f) => Direction(true, f.maxLength, f.chunkSize)
  }

  function ConfigOf(m: Method): StreamConfig {
    var response := StreamField(m.response);
    StreamConfig(DirectionOf(StreamField(m.request)), DirectionOf(response),
                 if response.Some? then Some(-1) else FixedLength(Fields(m.response)))
  }

  /** What an instruction byte is dispatched to: SW 6D00, or one of a method's six operations. */
  datatype Row = NotSupported | Owned(id: nat, operation: nat, config: StreamConfig)

  // By INS, then by name.
  predicate Precedes(methods: Methods, a: string, b: string) {
    var x, y := MethodAt(methods, a), MethodAt(methods, b);
    x.Some? && y.Some? && (x.value.ins < y.value.ins || (x.value.ins == y.value.ins && Before(a, b)))
  }

  function InsertByIns(methods: Methods, name: string, sorted: seq<string>): seq<string> {
    if sorted == [] then [name]
    else if Precedes(methods, sorted[0], name) then [sorted[0]] + InsertByIns(methods, name, sorted[1..])
    else [name] + sorted
  }

  // The names as sort.Slice leaves them: the order is total, so there is only one.
  function SortByIns(methods: Methods, names: seq<string>): seq<string> {
    if names == [] then [] else InsertByIns(methods, names[0], SortByIns(methods, names[1..]))
  }

  predicate IsStreamed(methods: Methods, name: string) {
    MethodAt(methods, name).Some? && HasStream(MethodAt(methods, name).value)
  }

  function Streamed(methods: Methods, names: seq<string>): (r: seq<Method>)
    ensures forall i | 0 <= i < |r| :: HasStream(r[i])
  {
    if names == [] then []
    else
      var last := names[|names| - 1];
      Streamed(methods, names[..|names| - 1])
      + if IsStreamed(methods, last) then [MethodAt(methods, last).value] else []
  }

  predicate IsIns(ins: int) {
    0 <= ins <= 0xFF
  }

  function NoRows(n: nat): map<int, Row> {
    map ins | 0 <= ins < n && IsIns(ins) :: NotSupported
  }

  // One family's operations, written over what was there.
  function WriteFamily(rows: map<int, Row>, id: nat, m: Method, operations: nat): map<int, Row> {
    if operations == 0 then rows
    else WriteFamily(rows, id, m, operations - 1)[m.ins + operations - 1 := Owned(id, operations - 1, ConfigOf(m))]
  }

  function Rows(families: seq<Method>, n: nat): map<int, Row>
    requires n <= |families|
  {
    if n == 0 then NoRows(0x100) else WriteFamily(Rows(families, n - 1), n, families[n - 1], 6)
  }

  lemma {:induction false} StreamedGrows(methods: Methods, names: seq<string>, i: nat)
    requires i <= |names|
    ensures |Streamed(methods, names[..i])| <= |Streamed(methods, names)|
    ensures Streamed(methods, names[..i]) == Streamed(methods, names)[..|Streamed(methods, names[..i])|]
    decreases |names|
  {
    if i == |names| {
      assert names[..i] == names;
    } else {
      var front := names[..|names| - 1];
      StreamedGrows(methods, front, i);
      assert front[..i] == names[..i];
    }
  }

  // None is the test's end at a response that has neither a stream nor a fixed width.
  method CollectFamilies(methods: Methods, names: seq<string>) returns (families: Option<seq<Method>>)
    ensures families.Some? ==> families.value == Streamed(methods, names)
    ensures families.None? <==> exists m :: m in Streamed(methods, names) && ConfigOf(m).exact.None?
  {
    var found: seq<Method> := [];
    for i := 0 to |names|
      invariant found == Streamed(methods, names[..i])
      invariant forall m | m in found :: ConfigOf(m).exact.Some?
    {
      assert names[..i + 1][..i] == names[..i];
      if IsStreamed(methods, names[i]) {
        var m := MethodAt(methods, names[i]).value;
        if ConfigOf(m).exact.None? {
          StreamedGrows(methods, names, i + 1);
          assert Streamed(methods, names[..i + 1])[|found|] == m;
          return None;
        }
        found := found + [m];
      }
    }
    assert names[..|names|] == names;
    return Some(found);
  }

  method ExpectedStreamDispatchRows(methods: Methods, order: seq<string>) returns (rows: Option<map<int, Row>>)
    requires Enumerates(order, methods.Keys) && AllDefined(methods)
    ensures var families := Streamed(methods, SortByIns(methods, order));
            && (rows.Some? ==> rows.value == Rows(families, |families|))
            && (rows.None? <==> exists m :: m in families && ConfigOf(m).exact.None?)
  {
    var families := CollectFamilies(methods, SortByIns(methods, order));
    if families.None? {
      return None;
    }
    var filled := FillRows(families.value);
    return Some(filled);
  }

  method FillRows(families: seq<Method>) returns (rows: map<int, Row>)
    ensures rows == Rows(families, |families|)
  {
    rows := map[];
    for ins := 0 to 0x100
      invariant rows == NoRows(ins)
    {
      rows := rows[ins := NotSupported];
    }
    for index := 0 to |families|
      invariant rows == Rows(families, index)
    {
      var f := families[index];
      for operation := 0 to 6
        invariant rows == WriteFamily(Rows(families, index), index + 1, f, operation)
      {
        rows := rows[f.ins + operation := Owned(index + 1, operation, ConfigOf(f))];
      }
    }
  }
}
