/** A stream payload cut into chunks, and the validator's bound on their number (validator.go). */
module Chunks {
  import opened Wrappers
  import opened Idl
  import opened ValidationRules

  // Full chunks first, then what is left.
  function Split(payload: Bytes, size: nat): seq<Bytes>
    requires size > 0
    decreases |payload|
  {
    if payload == [] then []
    else if |payload| <= size then [payload]
    else [payload[..size]] + Split(payload[size..], size)
  }

  lemma Times(n: nat, size: nat)
    requires n > 0
    ensures n * size == (n - 1) * size + size
  {
  }

  // How many chunks there are: more than n exactly when n full chunks do not hold the payload.
  lemma {:induction false} SplitCount(payload: Bytes, size: nat, n: nat)
    requires size > 0
    ensures |Split(payload, size)| > n <==> |payload| > n * size
    decreases n
  {
    if n > 0 {
      Times(n, size);
      if |payload| > size {
        SplitCount(payload[size..], size, n - 1);
      }
    }
  }

  lemma {:induction false} JoinedCons<T>(first: seq<T>, rest: seq<seq<T>>)
    ensures Joined([first] + rest) == first + Joined(rest)
  {
    if rest == [] {
      assert [first] + rest == [first] && Joined([first]) == Joined([]) + first;
    } else {
      var front := rest[..|rest| - 1];
      assert ([first] + rest)[..|rest|] == [first] + front;
      JoinedCons(first, front);
      Associative(first, Joined(front), rest[|rest| - 1]);
    }
  }

  // The chunks are the payload, in order, and none is empty or over the size.
  lemma {:induction false} SplitIsWhole(payload: Bytes, size: nat)
    requires size > 0
    ensures Joined(Split(payload, size)) == payload
    ensures forall i | 0 <= i < |Split(payload, size)| :: 0 < |Split(payload, size)[i]| <= size
    decreases |payload|
  {
    if |payload| > size {
      SplitIsWhole(payload[size..], size);
      JoinedCons(payload[..size], Split(payload[size..], size));
      assert payload == payload[..size] + payload[size..];
    } else if payload != [] {
      assert Joined([payload]) == Joined([]) + payload;
    }
  }

  // Chunk i is found at offset i * size.
  lemma {:induction false} SplitAt(payload: Bytes, size: nat, i: nat, at: nat)
    requires size > 0 && i < |Split(payload, size)| && at == i * size
    ensures var chunk := Split(payload, size)[i];
            && chunk != [] && at + |chunk| <= |payload|
            && forall k | 0 <= k < |chunk| :: chunk[k] == payload[at + k]
    decreases |payload|
  {
    if |payload| > size && i > 0 {
      Times(i, size);
      SplitAt(payload[size..], size, i - 1, at - size);
    }
  }

  // For sizes that are in range the bound is exact: the error is reported if and only if a payload
  // of the greatest declared length needs more than 255 chunks.
  lemma ChunkBoundIsExact(key: string, section: Section, i: nat, f: Field, payload: Bytes)
    requires 1 <= f.maxLength <= 0x7FFF && 1 <= f.chunkSize <= 0xFF && |payload| == f.maxLength
    ensures (exists e :: e in StreamErrors(key, section, i, f) && e.problem == TooManyChunks)
       <==> |Split(payload, f.chunkSize)| > 255
  {
    SplitCount(payload, f.chunkSize, 255);
    assert Wrap64(f.chunkSize * 0xFF) == f.chunkSize * 0xFF;
    var e := ValidationError(FieldPath(key, section, i, MaxLengthPart), TooManyChunks);
    assert e in StreamErrors(key, section, i, f) <==> f.maxLength > f.chunkSize * 0xFF;
  }

  ghost predicate SoundStream(f: Field) {
    1 <= f.maxLength <= 0x7FFF && 1 <= f.chunkSize <= 0xFF && f.maxLength <= 255 * f.chunkSize
  }

  // Every payload an accepted stream field allows fits 255 chunks of at most 255 bytes, whose
  // offsets and ends are positive as signed 16-bit numbers, and which are the payload.
  lemma AcceptedPayloadSplits(f: Field, payload: Bytes)
    requires SoundStream(f) && |payload| <= f.maxLength
    ensures var chunks := Split(payload, f.chunkSize);
            && |chunks| <= 255 && Joined(chunks) == payload
            && forall i | 0 <= i < |chunks| ::
                 && 0 < |chunks[i]| <= 255
                 && i * f.chunkSize + |chunks[i]| <= 0x7FFF
  {
    SplitIsWhole(payload, f.chunkSize);
    SplitCount(payload, f.chunkSize, 255);
    forall i | 0 <= i < |Split(payload, f.chunkSize)|
      ensures i * f.chunkSize + |Split(payload, f.chunkSize)[i]| <= 0x7FFF
    {
      SplitAt(payload, f.chunkSize, i, i * f.chunkSize);
    }
  }
}
