/**
 The length-prefixed frames of the bridge's TCP protocol (FrameCodec.java): two bytes of
 big-endian length, then the payload. The specification functions read and write byte
 sequences; the methods below them work on streams with a moving position.
 */
module FrameCodec {
  import opened Wrappers

  const MAX_FRAME := 65535

  /** Why a read failed with an IOException. */
  datatype ReadError = InvalidLength | EndOfFile

  /** `Closed` is the `null` of readFrame: the stream ended before a whole length was there. */
  datatype Read = Frame(payload: Bytes, rest: Bytes) | Closed | Failed(error: ReadError)

  function Length(stream: Bytes): (len: nat)
    requires |stream| >= 2
    ensures len <= MAX_FRAME
  {
    stream[0] as int * 256 + stream[1]
  }

  function NextFrame(stream: Bytes): (r: Read)
    ensures r.Frame? ==> 0 < |r.payload| <= MAX_FRAME && |r.rest| < |stream|
  {
    if |stream| < 2 then Closed
    else if Length(stream) == 0 then Failed(InvalidLength)
    else if |stream| < 2 + Length(stream) then Failed(EndOfFile)
    else Frame(stream[2..2 + Length(stream)], stream[2 + Length(stream)..])
  }

  /** What a reader makes of `n` followed by a payload: writeShort keeps the low 16 bits. */
  function Header(n: nat): Bytes
    requires n <= MAX_FRAME
  {
    [n / 256, n % 256]
  }

  function Encode(payload: Bytes): Bytes
    requires |payload| <= MAX_FRAME
  {
    Header(|payload|) + payload
  }

  /** The payloads a reader can be given: writeFrame also accepts the empty one. */
  predicate Framable(payload: Bytes) {
    0 < |payload| <= MAX_FRAME
  }

  ghost predicate AllFramable(payloads: seq<Bytes>) {
    forall i | 0 <= i < |payloads| :: Framable(payloads[i])
  }

  function EncodeAll(payloads: seq<Bytes>): Bytes
    requires AllFramable(payloads)
  {
    if payloads == [] then [] else Encode(payloads[0]) + EncodeAll(payloads[1..])
  }

  /** Everything a loop of reads obtains from a stream, and how the loop ended. */
  datatype Transcript = Transcript(payloads: seq<Bytes>, end: Read)

  function ReadAll(stream: Bytes): (s: Transcript)
    ensures AllFramable(s.payloads) && !s.end.Frame?
    decreases |stream|
  {
    match NextFrame(stream)
    case Frame(payload, rest) =>
      var later := ReadAll(rest);
      Transcript([payload] + later.payloads, later.end)
    case end => Transcript([], end)
  }

  // One frame in front of any stream is read back exactly, and the rest is left alone.
  lemma ReadBack(payload: Bytes, rest: Bytes)
    requires Framable(payload)
    ensures NextFrame(Encode(payload) + rest) == Frame(payload, rest)
  {
    var stream := Encode(payload) + rest;
    assert Length(stream) == |payload|;
    assert stream[2..2 + |payload|] == payload;
    assert stream[2 + |payload|..] == rest;
  }

  // A frame that was read is a frame that was written: nothing else decodes to it.
  lemma OnlyFramesAreRead(stream: Bytes)
    requires NextFrame(stream).Frame?
    ensures stream == Encode(NextFrame(stream).payload) + NextFrame(stream).rest
  {
    var n := Length(stream);
    assert stream == [n / 256, n % 256] + stream[2..2 + n] + stream[2 + n..];
  }

  lemma {:induction false} EncodeAllConcat(left: seq<Bytes>, right: seq<Bytes>)
    requires AllFramable(left) && AllFramable(right)
    ensures AllFramable(left + right)
    ensures EncodeAll(left + right) == EncodeAll(left) + EncodeAll(right)
  {
    if left == [] {
      assert left + right == right;
    } else {
      EncodeAllConcat(left[1..], right);
      assert (left + right)[1..] == left[1..] + right;
      Associative(Encode(left[0]), EncodeAll(left[1..]), EncodeAll(right));
    }
  }

  lemma ReadAllOne(payload: Bytes, tail: Bytes)
    requires Framable(payload)
    ensures ReadAll(Encode(payload) + tail)
         == Transcript([payload] + ReadAll(tail).payloads, ReadAll(tail).end)
  {
    ReadBack(payload, tail);
  }

  // Unique decodability, any continuation: written frames come back as the list written,
  // followed by whatever the rest of the stream holds.
  lemma {:induction false} WrittenFramesAreRead(payloads: seq<Bytes>, rest: Bytes)
    requires AllFramable(payloads)
    ensures ReadAll(EncodeAll(payloads) + rest)
         == Transcript(payloads + ReadAll(rest).payloads, ReadAll(rest).end)
  {
    if payloads == [] {
      assert EncodeAll(payloads) + rest == rest;
      assert payloads + ReadAll(rest).payloads == ReadAll(rest).payloads;
    } else {
      var first, later, others := payloads[0], payloads[1..], ReadAll(rest).payloads;
      var tail := EncodeAll(later) + rest;
      WrittenFramesAreRead(later, rest);
      ReadAllOne(first, tail);
      assert EncodeAll(payloads) + rest == Encode(first) + tail by {
        Associative(Encode(first), EncodeAll(later), rest);
      }
      assert payloads == [first] + later;
      Associative([first], later, others);
    }
  }

  // Conversely every list of payloads read from a stream is what the stream spells out, up to
  // the bytes at which the loop stopped.
  lemma {:induction false} ReadFramesWereWritten(stream: Bytes)
    ensures EncodeAll(ReadAll(stream).payloads) <= stream
    ensures NextFrame(stream[|EncodeAll(ReadAll(stream).payloads)|..]) == ReadAll(stream).end
    decreases |stream|
  {
    if NextFrame(stream).Frame? {
      var payload, rest := NextFrame(stream).payload, NextFrame(stream).rest;
      OnlyFramesAreRead(stream);
      ReadFramesWereWritten(rest);
      var later := ReadAll(rest).payloads;
      assert ([payload] + later)[1..] == later;
      var whole := EncodeAll([payload] + later);
      assert whole == Encode(payload) + EncodeAll(later);
      assert stream[|whole|..] == rest[|EncodeAll(later)|..];
    } else {
      assert stream[0..] == stream;
    }
  }

  // Cutting one encoded frame short leaves no frame: at most one byte of the length reads as a
  // closed connection, anything longer as an end-of-file error.
  lemma TornFrame(payload: Bytes, kept: nat)
    requires Framable(payload) && kept < |Encode(payload)|
    ensures NextFrame(Encode(payload)[..kept]) == if kept < 2 then Closed else Failed(EndOfFile)
  {
    var stream := Encode(payload)[..kept];
    if kept >= 2 {
      assert Length(stream) == |payload|;
    }
  }

  // What is read of an encoding of which `kept` bytes arrive: the frames that are complete, in
  // order, then null or an end-of-file error.
  ghost predicate IsCut(read: Transcript, payloads: seq<Bytes>, kept: nat)
    requires AllFramable(payloads) && AllFramable(read.payloads)
  {
    && read.payloads <= payloads
    && (read.end == Closed || read.end == Failed(EndOfFile))
    && (read.payloads == payloads <==> kept == |EncodeAll(payloads)|)
    && |EncodeAll(read.payloads)| <= kept
    && (read.end == Closed <==> kept - |EncodeAll(read.payloads)| < 2)
  }

  lemma CutLater(first: Bytes, read: Transcript, payloads: seq<Bytes>, kept: nat)
    requires Framable(first) && AllFramable(payloads) && AllFramable(read.payloads) && IsCut(read, payloads, kept)
    ensures IsCut(Transcript([first] + read.payloads, read.end), [first] + payloads, |Encode(first)| + kept)
  {
    assert ([first] + read.payloads)[1..] == read.payloads && ([first] + payloads)[1..] == payloads;
  }

  // A truncated stream never yields an altered frame.
  lemma {:induction false} TruncationYieldsAPrefix(payloads: seq<Bytes>, kept: nat)
    requires AllFramable(payloads) && kept <= |EncodeAll(payloads)|
    ensures IsCut(ReadAll(EncodeAll(payloads)[..kept]), payloads, kept)
  {
    if payloads != [] {
      var first, later := payloads[0], payloads[1..];
      var tail := EncodeAll(later);
      if kept < |Encode(first)| {
        assert EncodeAll(payloads)[..kept] == Encode(first)[..kept];
        TornFrame(first, kept);
      } else {
        var n := kept - |Encode(first)|;
        assert EncodeAll(payloads)[..kept] == Encode(first) + tail[..n];
        ReadAllOne(first, tail[..n]);
        TruncationYieldsAPrefix(later, n);
        CutLater(first, ReadAll(tail[..n]), later, n);
        assert payloads == [first] + later;
      }
    }
  }

  /** The receiving end of a socket: the bytes that will arrive, and how many are consumed. */
  class DataInput {
    const data: Bytes
    var pos: nat

    ghost predicate Valid()
      reads this
    {
      pos <= |data|
    }

    function Unread(): Bytes
      requires Valid()
      reads this
    {
      data[pos..]
    }

    constructor (data: Bytes)
      ensures Valid() && this.data == data && Unread() == data
    {
      this.data := data;
      pos := 0;
    }

    // readUnsignedShort: None is its EOFException, after which the stream is exhausted.
    method ReadUnsignedShort() returns (len: Option<nat>)
      requires Valid()
      modifies this
      ensures Valid()
      ensures len == if |old(Unread())| < 2 then None else Some(Length(old(Unread())))
      ensures Unread() == if |old(Unread())| < 2 then [] else old(Unread())[2..]
    {
      if pos + 2 > |data| {
        pos := |data|;
        return None;
      }
      len := Some(data[pos] as int * 256 + data[pos + 1]);
      pos := pos + 2;
    }

    // readFully fills the whole array or throws EOFException.
    method ReadFully(payload: array<byte>) returns (ok: bool)
      requires Valid()
      modifies this, payload
      ensures Valid()
      ensures ok == (|old(Unread())| >= payload.Length)
      ensures ok ==> payload[..] == old(Unread())[..payload.Length] && Unread() == old(Unread())[payload.Length..]
    {
      ok := pos + payload.Length <= |data|;
      var n := if ok then payload.Length else |data| - pos;
      ghost var start := pos;
      for i := 0 to n
        invariant pos == start + i
        invariant payload[..i] == data[start..start + i]
      {
        payload[i] := data[pos];
        pos := pos + 1;
      }
      if ok {
        assert payload[..] == payload[..n];
        assert data[start..][..n] == data[start..start + n] && data[start..][n..] == data[start + n..];
      }
    }

    method ReadFrame() returns (r: Result<Option<Bytes>, ReadError>)
      requires Valid()
      modifies this
      ensures Valid()
      ensures match NextFrame(old(Unread()))
              case Frame(payload, rest) => r == Ok(Some(payload)) && Unread() == rest
              case Closed => r == Ok(None)
              case Failed(error) => r == Err(error)
    {
      var len := ReadUnsignedShort();
      if len == None {
        return Ok(None);
      }
      if len.value == 0 || len.value > MAX_FRAME {
        return Err(InvalidLength);
      }
      var payload := new byte[len.value];
      var ok := ReadFully(payload);
      if !ok {
        return Err(EndOfFile);
      }
      assert payload[..] == old(Unread())[2..][..len.value] == old(Unread())[2..2 + len.value];
      r := Ok(Some(payload[..]));
    }
  }

  /** The sending end of a socket: the bytes written so far. */
  class DataOutput {
    var written: Bytes

    constructor ()
      ensures written == []
    {
      written := [];
    }

    // False is the "Frame too large" IOException, raised before anything is written.
    method WriteFrame(payload: Bytes) returns (ok: bool)
      modifies this
      ensures ok == (|payload| <= MAX_FRAME)
      ensures written == old(written) + if ok then Encode(payload) else []
    {
      if |payload| > MAX_FRAME {
        return false;
      }
      written := written + Header(|payload|);
      written := written + payload;
      return true;
    }
  }
}
