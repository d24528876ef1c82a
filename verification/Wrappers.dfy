/** Small result types shared by the modules of this project. */
module Wrappers {

  datatype Option<+T> = None | Some(value: T)

  datatype Result<+T, +E> = Ok(value: T) | Err(error: E)

  /** A byte as the unsigned number it stands for. */
  type byte = x: int | 0 <= x < 256

  type Bytes = seq<byte>

  lemma Associative<T>(a: seq<T>, b: seq<T>, c: seq<T>)
    ensures (a + b) + c == a + (b + c)
  {
  }

  /** The lists of a list, one after the other. */
  function Joined<T>(parts: seq<seq<T>>): seq<T> {
    if parts == [] then [] else Joined(parts[..|parts| - 1]) + parts[|parts| - 1]
  }

  lemma JoinedNext<T>(parts: seq<seq<T>>, i: nat)
    requires i < |parts|
    ensures Joined(parts[..i + 1]) == Joined(parts[..i]) + parts[i]
  {
    assert parts[..i + 1][..i] == parts[..i];
  }

  lemma JoinedAppends<T>(start: seq<T>, parts: seq<seq<T>>, i: nat)
    requires i < |parts|
    ensures start + Joined(parts[..i + 1]) == start + Joined(parts[..i]) + parts[i]
  {
    JoinedNext(parts, i);
  }

  lemma {:induction false} JoinedMembers<T>(parts: seq<seq<T>>, x: T)
    ensures x in Joined(parts) <==> exists i :: 0 <= i < |parts| && x in parts[i]
  {
    if parts != [] {
      JoinedMembers(parts[..|parts| - 1], x);
    }
  }

  function Decimal(n: nat): (r: string)
    ensures r != []
    ensures forall i | 0 <= i < |r| :: '0' <= r[i] <= '9'
  {
    if n < 10 then [('0' as int + n) as char] else Decimal(n / 10) + [('0' as int + n % 10) as char]
  }
}
