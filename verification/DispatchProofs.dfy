/** For an accepted allocation the stream dispatch table is the exact inverse of it. */
module DispatchProofs {
  import opened Idl
  import opened Keys
  import opened ValidationRules
  import opened Allocation
  import opened Dispatch

  ghost predicate Defined(methods: Methods, names: seq<string>) {
    forall i | 0 <= i < |names| :: MethodAt(methods, names[i]).Some?
  }

  function InsOf(methods: Methods, name: string): int {
    match MethodAt(methods, name)
    case None => -1
    case Some(m) => m.ins
  }

  ghost predicate InsAscends(methods: Methods, names: seq<string>) {
    forall i, j | 0 <= i < j < |names| :: InsOf(methods, names[i]) < InsOf(methods, names[j])
  }

  // Of two methods the one with the greater INS starts after the other one's last byte.
  lemma Apart(methods: Methods, a: string, b: string)
    requires Allocated(methods) && MethodAt(methods, a).Some? && MethodAt(methods, b).Some? && a != b
    ensures InsOf(methods, a) != InsOf(methods, b)
    ensures InsOf(methods, a) < InsOf(methods, b)
            ==> InsOf(methods, a) + Span(MethodAt(methods, a).value) <= InsOf(methods, b)
  {
    assert Claims(methods, b, InsOf(methods, b));
    assert !Claims(methods, a, InsOf(methods, b));
  }

  lemma {:induction false} InsertMembers(methods: Methods, name: string, sorted: seq<string>)
    ensures multiset(InsertByIns(methods, name, sorted)) == multiset(sorted) + multiset{name}
  {
    if sorted != [] {
      assert sorted == [sorted[0]] + sorted[1..];
      InsertMembers(methods, name, sorted[1..]);
    }
  }

  lemma {:induction false} SortMembers(methods: Methods, names: seq<string>)
    ensures multiset(SortByIns(methods, names)) == multiset(names)
  {
    if names != [] {
      assert names == [names[0]] + names[1..];
      SortMembers(methods, names[1..]);
      InsertMembers(methods, names[0], SortByIns(methods, names[1..]));
    }
  }

  lemma SameMembers(a: seq<string>, b: seq<string>, k: string)
    requires multiset(a) == multiset(b)
    ensures k in a <==> k in b
  {
    assert k in a <==> k in multiset(a);
  }

  lemma {:induction false} InsertAscends(methods: Methods, name: string, sorted: seq<string>)
    requires Allocated(methods) && InsAscends(methods, sorted) && Defined(methods, sorted)
    requires MethodAt(methods, name).Some? && name !in sorted
    ensures InsAscends(methods, InsertByIns(methods, name, sorted))
  {
    if sorted != [] {
      Apart(methods, sorted[0], name);
      if Precedes(methods, sorted[0], name) {
        InsertAscends(methods, name, sorted[1..]);
        InsertMembers(methods, name, sorted[1..]);
        FirstStaysFirst(methods, sorted[0], name, sorted[1..], InsertByIns(methods, name, sorted[1..]));
      }
    }
  }

  lemma FirstStaysFirst(methods: Methods, first: string, name: string, later: seq<string>, all: seq<string>)
    requires multiset(all) == multiset(later) + multiset{name} && InsAscends(methods, [first] + later)
    requires InsAscends(methods, all) && InsOf(methods, first) < InsOf(methods, name)
    ensures InsAscends(methods, [first] + all)
  {
    forall j | 0 <= j < |all| ensures InsOf(methods, first) < InsOf(methods, all[j]) {
      assert all[j] in multiset(all);
      if all[j] != name {
        assert all[j] in multiset(later);
        var k :| 0 <= k < |later| && later[k] == all[j];
        assert ([first] + later)[0] == first && ([first] + later)[k + 1] == all[j];
      }
    }
  }

  lemma {:induction false} SortAscendsByIns(methods: Methods, names: seq<string>)
    requires Allocated(methods) && Distinct(names) && Defined(methods, names)
    ensures InsAscends(methods, SortByIns(methods, names)) && Defined(methods, SortByIns(methods, names))
  {
    if names != [] {
      var sorted := SortByIns(methods, names[1..]);
      SortAscendsByIns(methods, names[1..]);
      SortMembers(methods, names[1..]);
      SameMembers(names[1..], sorted, names[0]);
      InsertAscends(methods, names[0], sorted);
      SortMembers(methods, names);
      var all := SortByIns(methods, names);
      forall i | 0 <= i < |all| ensures MethodAt(methods, all[i]).Some? {
        assert all[i] in all;
        SameMembers(names, all, all[i]);
      }
    }
  }

  // No two families share a byte, and they come in the order of their first bytes.
  ghost predicate Spaced(families: seq<Method>) {
    && (forall i, j | 0 <= i < j < |families| :: families[i].ins + 6 <= families[j].ins)
    && (forall i | 0 <= i < |families| :: families[i].ins + 5 <= 0xFF)
  }

  lemma {:induction false} StreamedMembers(methods: Methods, names: seq<string>, m: Method)
    ensures m in Streamed(methods, names)
       <==> exists k :: 0 <= k < |names| && IsStreamed(methods, names[k]) && MethodAt(methods, names[k]).value == m
  {
    if names != [] {
      StreamedMembers(methods, names[..|names| - 1], m);
    }
  }

  lemma {:induction false} StreamedIsSpaced(methods: Methods, names: seq<string>)
    requires Allocated(methods) && InsAscends(methods, names) && Defined(methods, names)
    ensures Spaced(Streamed(methods, names))
    ensures |Streamed(methods, names)| == StreamedCount(methods, names)
  {
    if names != [] {
      var front, last := names[..|names| - 1], names[|names| - 1];
      StreamedIsSpaced(methods, front);
      if IsStreamed(methods, last) {
        var earlier := Streamed(methods, front);
        forall i | 0 <= i < |earlier| ensures earlier[i].ins + 6 <= InsOf(methods, last) {
          StreamedMembers(methods, front, earlier[i]);
          var k :| 0 <= k < |front| && IsStreamed(methods, front[k]) && MethodAt(methods, front[k]).value == earlier[i];
          assert InsOf(methods, names[k]) < InsOf(methods, last);
          Apart(methods, front[k], last);
        }
      }
    }
  }

  lemma {:induction false} WriteFamilyIs(rows: map<int, Row>, id: nat, m: Method, operations: nat, ins: int)
    ensures var after := WriteFamily(rows, id, m, operations);
            && (ins in after <==> ins in rows || m.ins <= ins < m.ins + operations)
            && (ins in after ==>
                  after[ins] == if m.ins <= ins < m.ins + operations
                                then Owned(id, ins - m.ins, ConfigOf(m)) else rows[ins])
  {
    if operations > 0 {
      WriteFamilyIs(rows, id, m, operations - 1, ins);
    }
  }

  // What one byte of the table says, given the first n families.
  ghost predicate RowIs(families: seq<Method>, n: nat, ins: int, row: Row)
    requires n <= |families|
  {
    match row
    case NotSupported => forall i | 0 <= i < n :: !(families[i].ins <= ins < families[i].ins + 6)
    case Owned(id, operation, config) =>
      && 1 <= id <= n && operation < 6
      && ins == families[id - 1].ins + operation && config == ConfigOf(families[id - 1])
  }

  lemma NextRowIs(families: seq<Method>, n: nat, ins: int, before: Row, row: Row)
    requires 0 < n <= |families| && RowIs(families, n - 1, ins, before)
    requires var m := families[n - 1];
             row == if m.ins <= ins < m.ins + 6 then Owned(n, ins - m.ins, ConfigOf(m)) else before
    ensures RowIs(families, n, ins, row)
  {
  }

  lemma {:induction false} RowsAre(families: seq<Method>, n: nat, ins: int)
    requires n <= |families| && Spaced(families)
    ensures ins in Rows(families, n) <==> 0 <= ins <= 0xFF
    ensures 0 <= ins <= 0xFF ==> RowIs(families, n, ins, Rows(families, n)[ins])
  {
    if n == 0 {
      assert IsIns(ins) <==> 0 <= ins <= 0xFF;
    } else {
      RowsAre(families, n - 1, ins);
      WriteFamilyIs(Rows(families, n - 1), n, families[n - 1], 6, ins);
      if 0 <= ins <= 0xFF {
        NextRowIs(families, n, ins, Rows(families, n - 1)[ins], Rows(families, n)[ins]);
      }
    }
  }

  lemma OneFamilyPerByte(families: seq<Method>, i: nat, j: nat, ins: int)
    requires Spaced(families) && i < |families| && j < |families|
    requires families[i].ins <= ins < families[i].ins + 6 && families[j].ins <= ins < families[j].ins + 6
    ensures i == j
  {
  }

  // Every byte of every family is dispatched to that family, with the operation that it is.
  ghost predicate IsDispatched(families: seq<Method>, rows: map<int, Row>, i: int, operation: int)
    requires 0 <= i < |families| && 0 <= operation < 6
  {
    var ins := families[i].ins + operation;
    ins in rows && rows[ins] == Owned(i + 1, operation, ConfigOf(families[i]))
  }

  lemma RowOfFamily(families: seq<Method>, i: nat, ins: int, row: Row)
    requires Spaced(families) && i < |families| && families[i].ins <= ins < families[i].ins + 6
    requires RowIs(families, |families|, ins, row)
    ensures row == Owned(i + 1, ins - families[i].ins, ConfigOf(families[i]))
  {
    match row
    case NotSupported =>
    case Owned(other, _, _) => OneFamilyPerByte(families, other - 1, i, ins);
  }

  ghost predicate RowsAreRight(families: seq<Method>, rows: map<int, Row>) {
    && (forall ins :: ins in rows <==> 0 <= ins <= 0xFF)
    && (forall ins | 0 <= ins <= 0xFF :: RowIs(families, |families|, ins, rows[ins]))
  }

  lemma OperationIsDispatched(families: seq<Method>, rows: map<int, Row>, i: nat, operation: nat)
    requires Spaced(families) && RowsAreRight(families, rows) && i < |families| && operation < 6
    ensures IsDispatched(families, rows, i, operation)
  {
    var ins := families[i].ins + operation;
    RowOfFamily(families, i, ins, rows[ins]);
  }

  ghost predicate RowsInvert(families: seq<Method>, rows: map<int, Row>) {
    && RowsAreRight(families, rows)
    && (forall i, operation | 0 <= i < |families| && 0 <= operation < 6 :: IsDispatched(families, rows, i, operation))
  }

  lemma SpacedRowsInvert(families: seq<Method>)
    requires Spaced(families)
    ensures RowsInvert(families, Rows(families, |families|))
  {
    SpacedRowsAreRight(families);
    AllAreDispatched(families, Rows(families, |families|));
  }

  lemma SpacedRowsAreRight(families: seq<Method>)
    requires Spaced(families)
    ensures RowsAreRight(families, Rows(families, |families|))
  {
    var rows := Rows(families, |families|);
    forall ins ensures ins in rows <==> 0 <= ins <= 0xFF {
      RowsAre(families, |families|, ins);
    }
    forall ins | 0 <= ins <= 0xFF ensures RowIs(families, |families|, ins, rows[ins]) {
      RowsAre(families, |families|, ins);
    }
  }

  lemma AllAreDispatched(families: seq<Method>, rows: map<int, Row>)
    requires Spaced(families) && RowsAreRight(families, rows)
    ensures RowsInvert(families, rows)
  {
    forall i, operation | 0 <= i < |families| && 0 <= operation < 6 ensures IsDispatched(families, rows, i, operation) {
      OperationIsDispatched(families, rows, i, operation);
    }
  }

  /** The table is the allocation read backwards. */
  ghost predicate Inverts(methods: Methods, families: seq<Method>, rows: map<int, Row>) {
    && |families| <= 37 && Spaced(families)
    && (forall m :: m in families
               <==> exists k :: k in methods && IsStreamed(methods, k) && MethodAt(methods, k).value == m)
    && RowsInvert(families, rows)
  }

  // One row for each of the 256 bytes: SW 6D00, or exactly the (id, operation) whose byte it is.
  // The ids count the streamed methods in the order of their INS.
  lemma DispatchInvertsAllocation(methods: Methods, order: seq<string>)
    requires Allocated(methods) && AllDefined(methods) && Enumerates(order, methods.Keys)
    ensures var families := Streamed(methods, SortByIns(methods, order));
            Inverts(methods, families, Rows(families, |families|))
  {
    forall i | 0 <= i < |order| ensures MethodAt(methods, order[i]).Some? {
      assert order[i] in order;
    }
    var names := SortByIns(methods, order);
    var families := Streamed(methods, names);
    SortAscendsByIns(methods, order);
    StreamedIsSpaced(methods, names);
    SortedEnumerates(methods, order);
    AtMost224Bytes(methods, names);
    FamiliesAreTheStreamed(methods, names);
    SpacedRowsInvert(families);
  }

  lemma SortedEnumerates(methods: Methods, order: seq<string>)
    requires Allocated(methods) && AllDefined(methods) && Enumerates(order, methods.Keys)
    requires InsAscends(methods, SortByIns(methods, order))
    ensures Enumerates(SortByIns(methods, order), methods.Keys)
  {
    SortMembers(methods, order);
    forall k ensures k in SortByIns(methods, order) <==> k in methods.Keys {
      SameMembers(order, SortByIns(methods, order), k);
    }
  }

  lemma FamiliesAreTheStreamed(methods: Methods, names: seq<string>)
    requires Enumerates(names, methods.Keys)
    ensures forall m :: m in Streamed(methods, names)
                   <==> exists k :: k in methods && IsStreamed(methods, k) && MethodAt(methods, k).value == m
  {
    forall m ensures m in Streamed(methods, names)
                <==> exists k :: k in methods && IsStreamed(methods, k) && MethodAt(methods, k).value == m
    {
      StreamedMembers(methods, names, m);
      if k :| k in methods && IsStreamed(methods, k) && MethodAt(methods, k).value == m {
        assert k in names;
      }
      if i :| 0 <= i < |names| && IsStreamed(methods, names[i]) && MethodAt(methods, names[i]).value == m {
        assert names[i] in names;
      }
    }
  }
}
