/** The counter applet's object: its fields, its scratch buffer and its calls (CounterApplet.java). */
module CounterApplet {
  import opened Wrappers
  import opened CounterState
  import opened CardBuffers
  import opened SignatureSpec

  function InfoOf(counter: short, limit: short, stored: bool, full: bool): (info: Bytes)
    ensures |info| == 7
  {
    U16(counter) + U16(limit) + [VERSION] + [Bit(stored)] + [Bit(full)]
  }

  /** The reply of getInfo. */
  function Info(s: State): Bytes {
    InfoOf(s.counter, s.limit, s.stored.Some?, s.counter == s.limit)
  }

  function ReadU16(s: Bytes, at: nat): short
    requires at + 2 <= |s|
  {
    ToShort(s[at] as int * 256 + s[at + 1])
  }

  // The seven bytes give back counter, limit, version and the two flags.
  lemma InfoReadsBack(s: State)
    ensures var info := Info(s);
            && |info| == 7
            && ReadU16(info, 0) == s.counter && ReadU16(info, 2) == s.limit && info[4] == VERSION
            && (info[5] == 1 <==> s.stored.Some?) && (info[6] == 1 <==> s.counter == s.limit)
            && info[5] in {0, 1} && info[6] in {0, 1}
  {
    U16ReadsBack(s.counter);
    U16ReadsBack(s.limit);
  }

  lemma U16ReadsBack(x: short)
    ensures ToShort(U16(x)[0] as int * 256 + U16(x)[1]) == x
  {
    var q := x / 256;
    assert x == 256 * q + x % 256;
    if x >= 0 {
      assert q % 256 == q;
    } else {
      assert q % 256 == q + 256;
    }
  }

  // Challenge and masks taken out, the bytes of the two parts are the low bytes of counter and limit
  // as getInfo shows them; the first byte of each part up to the top bit that is cleared in it.
  lemma MasksAreInfoBytes(s: State, challenge: Bytes, i: nat)
    requires i < PartLen(challenge)
    ensures var mask := Xor(Xor(FirstPart(challenge, s.counter)[i], challenge[i]), 0x01);
            if i == 0 then mask % 0x80 == Info(s)[1] % 0x80 else mask == Info(s)[1]
    ensures var mask := Xor(Xor(SecondPart(challenge, s.limit)[i], challenge[|challenge| - 1 - i]), 0x5A);
            if i == 0 then mask % 0x80 == Info(s)[3] % 0x80 else mask == Info(s)[3]
  {
    MaskOf(FirstPart(challenge, s.counter)[i], challenge[i], 0x01, LowByte(s.counter), i == 0);
    MaskOf(SecondPart(challenge, s.limit)[i], challenge[|challenge| - 1 - i], 0x5A, LowByte(s.limit), i == 0);
  }

  lemma MaskOf(part: byte, c: byte, v: byte, l: byte, cleared: bool)
    requires part == Kept(Xor(Xor(c, v), l), cleared) || part == Kept(Xor(Xor(c, l), v), cleared)
    ensures var mask := Xor(Xor(part, c), v); if cleared then mask % 0x80 == l % 0x80 else mask == l
  {
    XorUnmix(c, v, l);
    if cleared {
      var whole := if part == ClearTop(Xor(Xor(c, v), l)) then Xor(Xor(c, v), l) else Xor(Xor(c, l), v);
      LowBitsTwice(whole, BitsOfByte() - 1);
      SameButTop(part, whole, c);
      SameButTop(Xor(part, c), Xor(whole, c), v);
      ClearTopIs(Xor(Xor(part, c), v));
      ClearTopIs(l);
    }
  }

  function Kept(b: byte, cleared: bool): byte {
    if cleared then ClearTop(b) else b
  }

  // The tag, the length and the bytes of one INTEGER.
  method AppendInteger(output: array<byte>, off: nat, scratch: array<byte>, from: nat, partLen: nat,
                       ghost before: Bytes, ghost start: nat, ghost written: Bytes, ghost part: Bytes)
    returns (next: nat)
    requires output != scratch && from + partLen <= scratch.Length && partLen <= 8
    requires Stands(output, before, start, written) && off == start + |written| && off + 2 + partLen <= output.Length
    requires part == scratch[from..from + partLen]
    modifies output
    ensures next == off + 2 + partLen && Stands(output, before, start, written + [0x02, partLen] + part)
  {
    next := AppendTwo(output, off, 0x02, partLen, before, start, written);
    assert scratch[from..from + partLen] == part;
    next := AppendBytes(output, next, scratch, from, partLen, before, start, written + [0x02, partLen]);
  }

  method WriteSignature(output: array<byte>, outputOffset: nat, scratch: array<byte>, partLen: nat, length: nat)
    requires output != scratch && scratch.Length == 16 && partLen <= 8 && length == 6 + 2 * partLen
    requires outputOffset + length <= output.Length
    modifies output
    ensures output[..] == Splice(old(output[..]), outputOffset,
              [0x30, length - 2] + [0x02, partLen] + scratch[..partLen] + [0x02, partLen] + scratch[8..8 + partLen])
  {
    ghost var before, first, second := output[..], scratch[..partLen], scratch[8..8 + partLen];
    assert Stands(output, before, outputOffset, []);
    var off := AppendTwo(output, outputOffset, 0x30, length - 2, before, outputOffset, []);
    ghost var written := [0x30, length - 2];
    assert [] + written == written;
    assert scratch[0..0 + partLen] == first;
    off := AppendInteger(output, off, scratch, 0, partLen, before, outputOffset, written, first);
    written := written + [0x02, partLen] + first;
    assert scratch[8..8 + partLen] == second;
    off := AppendInteger(output, off, scratch, 8, partLen, before, outputOffset, written, second);
  }

  lemma SignatureIs(challenge: Bytes, counter: short, limit: short, n: nat, first: Bytes, second: Bytes)
    requires n == PartLen(challenge) && first == FirstPart(challenge, counter) && second == SecondPart(challenge, limit)
    ensures [0x30, 6 + 2 * n - 2] + [0x02, n] + first + [0x02, n] + second
         == ExpectedMockSignature(challenge, counter, limit)
    ensures |ExpectedMockSignature(challenge, counter, limit)| == 6 + 2 * n
  {
  }

  // How much of the reply is there when the packers run out of room: whole fields only.
  function Packed(room: nat): (n: nat)
    ensures n <= room && n <= 7 && (n == 7 <==> room >= 7)
  {
    if room >= 7 then 7 else if room >= 4 then room else room / 2 * 2
  }

  method PackInfo(output: array<byte>, outputOffset: nat, counter: short, limit: short, stored: bool, full: bool)
    returns (next: Option<nat>)
    requires outputOffset <= output.Length
    modifies output
    ensures next.Some? <==> outputOffset + 7 <= output.Length
    ensures output[..] == Splice(old(output[..]), outputOffset,
                                 InfoOf(counter, limit, stored, full)[..Packed(output.Length - outputOffset)])
  {
    ghost var before, info := output[..], InfoOf(counter, limit, stored, full);
    assert info[..0] == [] && info[..2] == U16(counter) && info[..4] == U16(counter) + U16(limit);
    next := PackLimits(output, outputOffset, counter, limit, before);
    if next.Some? {
      next := PackFlags(output, next.value, stored, full, before, outputOffset, U16(counter) + U16(limit));
      PrefixesOf(U16(counter) + U16(limit), VERSION, Bit(stored), Bit(full));
    }
  }

  lemma PrefixesOf(numbers: Bytes, version: byte, stored: byte, full: byte)
    requires |numbers| == 4
    ensures var info := numbers + [version] + [stored] + [full];
            && info[..4] == numbers && info[..5] == numbers + [version]
            && info[..6] == numbers + [version] + [stored] && info[..7] == info
  {
  }

  method PackLimits(output: array<byte>, outputOffset: nat, counter: short, limit: short, ghost before: Bytes)
    returns (next: Option<nat>)
    requires outputOffset <= output.Length && output[..] == before
    modifies output
    ensures next == if outputOffset + 4 <= output.Length then Some(outputOffset + 4) else None
    ensures var room := output.Length - outputOffset;
            Stands(output, before, outputOffset,
                   if room < 2 then [] else if room < 4 then U16(counter) else U16(counter) + U16(limit))
  {
    assert Stands(output, before, outputOffset, []) && [] + U16(counter) == U16(counter);
    next := AppendU16(output, outputOffset, counter, before, outputOffset, []);
    if next.Some? {
      next := AppendU16(output, next.value, limit, before, outputOffset, U16(counter));
    }
  }

  method PackFlags(output: array<byte>, off: nat, stored: bool, full: bool,
                   ghost before: Bytes, ghost start: nat, ghost written: Bytes)
    returns (next: Option<nat>)
    requires Stands(output, before, start, written) && off == start + |written|
    modifies output
    ensures next.Some? <==> off + 3 <= output.Length
    ensures var room := output.Length - off;
            Stands(output, before, start,
                   if room < 1 then written else if room < 2 then written + [VERSION]
                   else if room < 3 then written + [VERSION] + [Bit(stored)]
                   else written + [VERSION] + [Bit(stored)] + [Bit(full)])
  {
    next := AppendU8(output, off, VERSION, before, start, written);
    if next.Some? {
      next := AppendBool(output, next.value, stored, before, start, written + [VERSION]);
      if next.Some? {
        next := AppendBool(output, next.value, full, before, start, written + [VERSION] + [Bit(stored)]);
      }
    }
  }

  class CounterApplet {
    var counter: short
    var limit: short
    const storedData: array<byte>
    var storedDataLen: int
    const signatureScratch: array<byte>

    ghost predicate Valid()
      reads this
    {
      && storedData.Length == MAX_DATA_SIZE && signatureScratch.Length == 16
      && storedData != signatureScratch
      && -1 <= storedDataLen <= MAX_DATA_SIZE
    }

    ghost function Model(): State
      requires Valid()
      reads this, storedData
    {
      State(counter, limit, if storedDataLen < 0 then None else Some(storedData[..storedDataLen]))
    }

    constructor ()
      ensures Valid() && Model() == INITIAL
      ensures fresh(storedData) && fresh(signatureScratch)
    {
      counter := 0;
      limit := DEFAULT_LIMIT;
      storedData := new byte[MAX_DATA_SIZE];
      storedDataLen := -1;
      signatureScratch := new byte[16];
    }

    method OnIncrement(amount: byte) returns (r: Reply)
      requires Valid()
      modifies this
      ensures Valid() && (Model(), r) == Step(old(Model()), Increment(amount))
    {
      var inc: short := amount % 256;
      var newVal := ToShort(counter + inc);
      if newVal > limit || newVal < counter {
        return Refused(Overflow);
      }
      counter := newVal;
      return Number(counter);
    }

    method OnDecrement(amount: byte) returns (r: Reply)
      requires Valid()
      modifies this
      ensures Valid() && (Model(), r) == Step(old(Model()), Decrement(amount))
    {
      var dec: short := amount % 256;
      if dec > counter {
        return Refused(Underflow);
      }
      counter := ToShort(counter - dec);
      return Number(counter);
    }

    method OnGet() returns (r: Reply)
      requires Valid()
      ensures (Model(), r) == Step(Model(), GetCounter)
    {
      return Number(counter);
    }

    method OnReset() returns (r: Reply)
      requires Valid()
      modifies this
      ensures Valid() && (Model(), r) == Step(old(Model()), ResetCounter)
    {
      counter := 0;
      return Done;
    }

    method OnSetLimit(newLimit: short) returns (r: Reply)
      requires Valid()
      modifies this
      ensures Valid() && (Model(), r) == Step(old(Model()), SetLimit(newLimit))
    {
      limit := newLimit;
      return Done;
    }

    method OnStore(data: array<byte>, dataOffset: nat, dataLength: nat) returns (r: Reply)
      requires Valid() && dataOffset + dataLength <= data.Length && data != storedData
      modifies this, storedData
      ensures Valid() && (Model(), r) == Step(old(Model()), Store(old(data[dataOffset..dataOffset + dataLength])))
    {
      if dataLength > MAX_DATA_SIZE {
        return Refused(DataTooLong);
      }
      CopyBytes(data, dataOffset, storedData, 0, dataLength);
      storedDataLen := dataLength;
      assert storedData[..dataLength] == old(data[dataOffset..dataOffset + dataLength]);
      return Done;
    }

    // The data goes to the start of the output window; a refusal writes nothing.
    method OnLoad(output: array<byte>, outputOffset: nat, outputCapacity: nat) returns (r: Reply)
      requires Valid() && outputOffset + outputCapacity <= output.Length && output != storedData
      modifies output
      ensures Valid() && (Model(), r) == Step(old(Model()), Load(outputCapacity))
      ensures r.Data? ==> output[..] == Splice(old(output[..]), outputOffset, r.bytes)
      ensures !r.Data? ==> output[..] == old(output[..])
    {
      if storedDataLen < 0 {
        return Refused(NoData);
      }
      ghost var stored := storedData[..storedDataLen];
      assert storedData[0..storedDataLen] == stored;
      var produced := WriteBytes(storedData, 0, storedDataLen, output, outputOffset, outputCapacity);
      if produced.None? {
        return Refused(WrongLength);
      }
      return Data(storedData[..storedDataLen]);
    }

    // None is the 6700 refusal: the room in the buffer decides, not the capacity, and what the
    // packers wrote before they ran out of it stays written.
    method OnGetInfo(output: array<byte>, outputOffset: nat) returns (produced: Option<nat>)
      requires Valid() && output != storedData && outputOffset <= output.Length
      modifies output
      ensures Valid() && Model() == old(Model())
      ensures produced == if outputOffset + 7 <= output.Length then Some(7) else None
      ensures output[..] == Splice(old(output[..]), outputOffset,
                                   Info(old(Model()))[..Packed(output.Length - outputOffset)])
    {
      var next := PackInfo(output, outputOffset, counter, limit, storedDataLen >= 0, counter == limit);
      return if next.Some? then Some(7) else None;
    }

    // requireCapacity then packBytes; None is the 6700 refusal. Source and output may overlap.
    method WriteBytes(source: array<byte>, offset: nat, length: nat,
                      output: array<byte>, outputOffset: nat, outputCapacity: nat) returns (produced: Option<nat>)
      requires offset + length <= source.Length && outputOffset + outputCapacity <= output.Length
      modifies output
      ensures produced == if length > outputCapacity then None else Some(length)
      ensures output[..] == if produced.None? then old(output[..])
                            else Splice(old(output[..]), outputOffset, old(source[offset..offset + length]))
    {
      if length > outputCapacity {
        return None;
      }
      var next := PackBytes(output, outputOffset, source, offset, length);
      return Some(length);
    }

    method OnEchoMessage(message: array<byte>, messageOffset: nat, messageLength: nat,
                         output: array<byte>, outputOffset: nat, outputCapacity: nat) returns (produced: Option<nat>)
      requires messageOffset + messageLength <= message.Length && outputOffset + outputCapacity <= output.Length
      modifies output
      ensures produced == if messageLength > outputCapacity then None else Some(messageLength)
      ensures output[..] == if produced.None? then old(output[..])
                            else Splice(old(output[..]), outputOffset,
                                        old(message[messageOffset..messageOffset + messageLength]))
    {
      produced := WriteBytes(message, messageOffset, messageLength, output, outputOffset, outputCapacity);
    }

    // The two halves of the signature, computed into the applet's own scratch.
    method FillScratch(challenge: array<byte>, challengeOffset: nat, challengeLength: nat, partLen: nat)
      requires Valid() && challenge != signatureScratch && 0 < challengeLength
      requires challengeOffset + challengeLength <= challenge.Length
      requires partLen == PartLen(challenge[challengeOffset..challengeOffset + challengeLength])
      modifies signatureScratch
      ensures var span := challenge[challengeOffset..challengeOffset + challengeLength];
              && signatureScratch[..partLen] == FirstPart(span, counter)
              && signatureScratch[8..8 + partLen] == SecondPart(span, limit)
    {
      FillRaw(challenge, challengeOffset, challengeLength, partLen);
      signatureScratch[0] := ClearTop(signatureScratch[0]);
      signatureScratch[8] := ClearTop(signatureScratch[8]);
    }

    method FillRaw(challenge: array<byte>, challengeOffset: nat, challengeLength: nat, partLen: nat)
      requires Valid() && challenge != signatureScratch && 0 < challengeLength
      requires challengeOffset + challengeLength <= challenge.Length
      requires partLen == PartLen(challenge[challengeOffset..challengeOffset + challengeLength])
      modifies signatureScratch
      ensures var span := challenge[challengeOffset..challengeOffset + challengeLength];
              && signatureScratch[..partLen] == RawFirst(span, counter)
              && signatureScratch[8..8 + partLen] == RawSecond(span, limit)
    {
      ghost var span := challenge[challengeOffset..challengeOffset + challengeLength];
      ghost var first, second := RawFirst(span, counter), RawSecond(span, limit);
      for i := 0 to partLen
        invariant forall k | 0 <= k < i :: signatureScratch[k] == first[k]
        invariant forall k | 0 <= k < i :: signatureScratch[8 + k] == second[k]
      {
        signatureScratch[i] := Xor(Xor(challenge[challengeOffset + i], VERSION), LowByte(counter));
        signatureScratch[8 + i] :=
          Xor(Xor(challenge[challengeOffset + challengeLength - 1 - i], LowByte(limit)), 0x5A);
      }
    }

    // The signature of what the scratch was filled from.
    method WriteParts(ghost span: Bytes, output: array<byte>, outputOffset: nat, partLen: nat, length: nat)
      requires Valid() && output != signatureScratch && partLen == PartLen(span) && length == 6 + 2 * partLen
      requires signatureScratch[..partLen] == FirstPart(span, counter)
      requires signatureScratch[8..8 + partLen] == SecondPart(span, limit)
      requires outputOffset + length <= output.Length
      modifies output
      ensures |ExpectedMockSignature(span, counter, limit)| == length
      ensures output[..] == Splice(old(output[..]), outputOffset, ExpectedMockSignature(span, counter, limit))
    {
      SignatureIs(span, counter, limit, partLen, signatureScratch[..partLen], signatureScratch[8..8 + partLen]);
      WriteSignature(output, outputOffset, signatureScratch, partLen, length);
    }

    // Challenge and output may be the same buffer and overlap in any way: every challenge byte is
    // read into scratch before the first output byte is written.
    method OnSignChallenge(challenge: array<byte>, challengeOffset: nat, challengeLength: nat,
                           output: array<byte>, outputOffset: nat, outputCapacity: nat)
      returns (r: Result<nat, StatusWord>)
      requires Valid()
      requires challengeOffset + challengeLength <= challenge.Length
      requires outputOffset + outputCapacity <= output.Length
      requires challenge != signatureScratch && output != signatureScratch && output != storedData
      modifies signatureScratch, output
      ensures Valid() && Model() == old(Model())
      ensures var span := old(challenge[challengeOffset..challengeOffset + challengeLength]);
              var signature := ExpectedMockSignature(span, counter, limit);
              if span == [] then r == Err(EmptyChallenge) && output[..] == old(output[..])
              else if |signature| > outputCapacity then r == Err(WrongLength) && output[..] == old(output[..])
              else r == Ok(|signature|) && output[..] == Splice(old(output[..]), outputOffset, signature)
    {
      ghost var span := challenge[challengeOffset..challengeOffset + challengeLength];
      if challengeLength == 0 {
        return Err(EmptyChallenge);
      }
      var partLen := if challengeLength > 8 then 8 else challengeLength;
      var length := 6 + 2 * partLen;
      if length > outputCapacity {
        return Err(WrongLength);
      }
      FillScratch(challenge, challengeOffset, challengeLength, partLen);
      WriteParts(span, output, outputOffset, partLen, length);
      return Ok(length);
    }
  }
}
