/** The keys of a Go map: ranged over in any order, then sorted as sort.Strings does. */
module Keys {

  // Go's `<` on strings.
  predicate Before(a: string, b: string) {
    b != [] && (a == [] || a[0] < b[0] || (a[0] == b[0] && Before(a[1..], b[1..])))
  }

  lemma {:induction false} Trichotomy(a: string, b: string)
    ensures Before(a, b) || a == b || Before(b, a)
    ensures !(Before(a, b) && Before(b, a))
  {
    if a != [] && b != [] && a[0] == b[0] {
      Trichotomy(a[1..], b[1..]);
      assert a == [a[0]] + a[1..] && b == [b[0]] + b[1..];
    }
  }

  lemma {:induction false} Transitive(a: string, b: string, c: string)
    requires Before(a, b) && Before(b, c)
    ensures Before(a, c)
  {
    if a != [] && a[0] == b[0] == c[0] {
      Transitive(a[1..], b[1..], c[1..]);
    }
  }

  // Up to some place the two agree; there the first one ends, or has the lesser character.
  ghost predicate LessAt(a: string, b: string, k: nat) {
    && k <= |a| && k < |b| && (forall i | 0 <= i < k :: a[i] == b[i])
    && (k == |a| || a[k] < b[k])
  }

  // The order of Go's strings is the lexicographic one.
  lemma {:induction false} BeforeIsLexicographic(a: string, b: string)
    ensures Before(a, b) <==> exists k: nat :: LessAt(a, b, k)
  {
    if a != [] && b != [] && a[0] == b[0] {
      BeforeIsLexicographic(a[1..], b[1..]);
      if k: nat :| LessAt(a[1..], b[1..], k) {
        assert LessAt(a, b, k + 1);
      }
      if k: nat :| LessAt(a, b, k) {
        assert k > 0 && LessAt(a[1..], b[1..], k - 1);
      }
    } else if Before(a, b) {
      assert LessAt(a, b, 0);
    }
  }

  lemma NotBeforeItself(a: string)
    ensures !Before(a, a)
  {
    Trichotomy(a, a);
  }

  ghost predicate Distinct(keys: seq<string>) {
    forall i, j | 0 <= i < j < |keys| :: keys[i] != keys[j]
  }

  /** `keys` is one of the orders in which a range loop may visit the keys of a map. */
  ghost predicate Enumerates(keys: seq<string>, domain: set<string>) {
    Distinct(keys) && forall k :: k in keys <==> k in domain
  }

  ghost predicate Ascending(keys: seq<string>) {
    forall i, j | 0 <= i < j < |keys| :: Before(keys[i], keys[j])
  }

  function Insert(key: string, sorted: seq<string>): (r: seq<string>)
    ensures multiset(r) == multiset(sorted) + multiset{key}
  {
    if sorted == [] then [key]
    else
      assert sorted == [sorted[0]] + sorted[1..];
      if Before(sorted[0], key) then [sorted[0]] + Insert(key, sorted[1..])
      else [key] + sorted
  }

  function Sort(keys: seq<string>): (r: seq<string>)
    ensures multiset(r) == multiset(keys)
  {
    if keys == [] then []
    else
      assert keys == [keys[0]] + keys[1..];
      Insert(keys[0], Sort(keys[1..]))
  }

  lemma {:induction false} InsertAscends(key: string, sorted: seq<string>)
    requires Ascending(sorted) && key !in sorted
    ensures Ascending(Insert(key, sorted))
  {
    if sorted != [] {
      var r := Insert(key, sorted);
      if Before(sorted[0], key) {
        InsertAscends(key, sorted[1..]);
        var rest := Insert(key, sorted[1..]);
        forall j | 0 <= j < |rest| ensures Before(sorted[0], rest[j]) {
          assert rest[j] in multiset(rest);
          assert rest[j] in multiset(sorted[1..]) || rest[j] == key;
        }
      } else {
        Trichotomy(key, sorted[0]);
        forall j | 0 < j < |sorted| ensures Before(key, sorted[j]) {
          Transitive(key, sorted[0], sorted[j]);
        }
      }
    }
  }

  lemma {:induction false} SortAscends(keys: seq<string>)
    requires Distinct(keys)
    ensures Ascending(Sort(keys))
  {
    if keys != [] {
      SortAscends(keys[1..]);
      var sorted := Sort(keys[1..]);
      assert keys[0] in sorted <==> keys[0] in multiset(sorted);
      assert keys[0] in keys[1..] <==> keys[0] in multiset(keys[1..]);
      InsertAscends(keys[0], sorted);
    }
  }

  // There is one ascending order of a set of keys.
  lemma {:induction false} OneAscendingOrder(a: seq<string>, b: seq<string>)
    requires Ascending(a) && Ascending(b) && forall k :: k in a <==> k in b
    ensures a == b
  {
    assert a != [] ==> a[0] in b;
    assert b != [] ==> b[0] in a;
    if a != [] {
      Trichotomy(a[0], b[0]);
      assert a[0] == b[0];
      TailMembers(a);
      TailMembers(b);
      OneAscendingOrder(a[1..], b[1..]);
      assert a == [a[0]] + a[1..] && b == [b[0]] + b[1..];
    }
  }

  lemma TailMembers(a: seq<string>)
    requires a != [] && Ascending(a)
    ensures forall k :: k in a[1..] <==> k in a && k != a[0]
  {
    NotBeforeItself(a[0]);
    forall k ensures k in a[1..] <==> k in a && k != a[0] {
      if k in a && k != a[0] {
        var i :| 0 <= i < |a| && a[i] == k;
        assert a[1..][i - 1] == k;
      }
    }
  }

  // Sorting an enumeration: the keys in ascending order, each once.
  lemma SortedKeys(keys: seq<string>, domain: set<string>)
    requires Enumerates(keys, domain)
    ensures Ascending(Sort(keys)) && Enumerates(Sort(keys), domain) && |Sort(keys)| == |keys|
  {
    SortAscends(keys);
    var sorted := Sort(keys);
    forall i, j | 0 <= i < j < |sorted| ensures sorted[i] != sorted[j] {
      NotBeforeItself(sorted[i]);
    }
    forall k ensures k in sorted <==> k in domain {
      assert k in sorted <==> k in multiset(sorted);
      assert k in keys <==> k in multiset(keys);
    }
    assert |multiset(sorted)| == |multiset(keys)|;
  }

  // The sorted keys do not depend on the order of enumeration.
  lemma SortingForgetsTheOrder(a: seq<string>, b: seq<string>, domain: set<string>)
    requires Enumerates(a, domain) && Enumerates(b, domain)
    ensures Sort(a) == Sort(b)
  {
    SortedKeys(a, domain);
    SortedKeys(b, domain);
    OneAscendingOrder(Sort(a), Sort(b));
  }
}
